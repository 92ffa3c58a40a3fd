/** What a directory scan finds, said of the tree alone: the directories that names lead to, and which of them are
    repositories. */
module DirectoryReach {
  import opened Wrappers
  import opened DirectoryScan

  /** Following the names from a directory one subdirectory after the other, never into `.git`, can lead to `to`. */
  ghost predicate Leads(w: World, from: nat, names: Path, to: nat)
    decreases |names|
  {
    && from in w.directories
    && if names == [] then from == to
       else exists e <- w.directories[from].listing :: Enters(w, e, names, to)
  }

  /** The first of the names is that of this subdirectory, and the others lead on from there. */
  ghost predicate Enters(w: World, e: Entry, names: Path, to: nat)
    requires names != []
    decreases |names|, 0
  {
    e.name == names[0] && names[0] != ".git" && e.node.SubDirectory? && Leads(w, e.node.ino, names[1..], to)
  }

  /** A directory has an entry named `.git`, in small or capital letters. */
  ghost predicate HoldsGit(w: World, ino: nat) {
    && ino in w.directories
    && exists e <- w.directories[ino].listing ::
         e.name in {".git", ".giT", ".gIt", ".gIT", ".Git", ".GiT", ".GIt", ".GIT"}
  }

  lemma GitHasEightNames(name: string)
    ensures IsGit(name) <==> name in {".git", ".giT", ".gIt", ".gIT", ".Git", ".GiT", ".GIt", ".GIT"}
  {
    if IsGit(name) {
      assert name == ['.', name[1], name[2], name[3]];
      assert name[1] in {'g', 'G'} && name[2] in {'i', 'I'} && name[3] in {'t', 'T'};
    }
  }

  lemma GitIsHeld(w: World, ino: nat, path: Path)
    requires ino in w.directories
    ensures HasGit(path, w.directories[ino].listing) <==> path != [] && HoldsGit(w, ino)
  {
    var listing := w.directories[ino].listing;
    forall e | e in listing
      ensures IsGit(e.name) <==> e.name in {".git", ".giT", ".gIt", ".gIT", ".Git", ".GiT", ".GIt", ".GIT"}
    {
      GitHasEightNames(e.name);
    }
    hide IsGit;
    if e :| e in listing && IsGit(e.name) {
      var k :| 0 <= k < |listing| && listing[k] == e;
    }
  }

  lemma {:induction false} EverySubdirectoryIsAChild(listing: seq<Entry>, e: Entry)
    requires e in listing && e.node.SubDirectory? && e.name != ".git"
    ensures e in Children(listing)
  {
    if e != listing[|listing| - 1] {
      EverySubdirectoryIsAChild(listing[..|listing| - 1], e);
    }
  }

  lemma {:induction false} ChildrenHaveOneName(listing: seq<Entry>, j: nat, k: nat)
    requires UniqueNames(listing) && j < k < |Children(listing)|
    ensures Children(listing)[j].name != Children(listing)[k].name
  {
    var earlier := Children(listing[..|listing| - 1]);
    if k < |earlier| {
      ChildrenHaveOneName(listing[..|listing| - 1], j, k);
    } else {
      ChildIsListed(listing[..|listing| - 1], j);
    }
  }

  /** Some names lead on through a child exactly when they lead on at all. */
  lemma {:induction false} LeadsThroughAChild(w: World, from: nat, names: Path, to: nat)
    requires from in w.directories && names != []
    ensures Leads(w, from, names, to) <==>
            exists k :: 0 <= k < |Children(w.directories[from].listing)|
                        && Enters(w, Children(w.directories[from].listing)[k], names, to)
  {
    var listing := w.directories[from].listing;
    var children := Children(listing);
    if Leads(w, from, names, to) {
      var e :| e in listing && Enters(w, e, names, to);
      EverySubdirectoryIsAChild(listing, e);
      var k :| 0 <= k < |children| && children[k] == e;
    }
    if k :| 0 <= k < |children| && Enters(w, children[k], names, to) {
      ChildIsListed(listing, k);
    }
  }

  // ---- how deep ----

  /** No names that lead anywhere are more than `room` long. */
  ghost predicate Within(w: World, from: nat, room: int) {
    forall names: Path, to: nat :: Leads(w, from, names, to) ==> |names| <= room
  }

  ghost predicate WithinChild(w: World, e: Entry, room: int) {
    e.node.SubDirectory? ==> Within(w, e.node.ino, room)
  }

  ghost predicate AllWithin(w: World, children: seq<Entry>, room: int) {
    forall e <- children :: WithinChild(w, e, room)
  }

  lemma OneMoreWithin(w: World, children: seq<Entry>, last: Entry, room: int)
    ensures AllWithin(w, children + [last], room) <==> AllWithin(w, children, room) && WithinChild(w, last, room)
  {
    hide WithinChild;
    assert last in children + [last] && forall e <- children :: e in children + [last];
  }

  lemma WithinChildren(w: World, from: nat, room: nat)
    requires WellFormed(w) && from in w.directories
    ensures Within(w, from, room) <==>
            AllWithin(w, Children(w.directories[from].listing), room - 1)
  {
    var listing := w.directories[from].listing;
    var children := Children(listing);
    if Within(w, from, room) {
      forall e: Entry, names: Path, to: nat | e in children && e.node.SubDirectory? && Leads(w, e.node.ino, names, to)
        ensures |names| <= room - 1
      {
        var k :| 0 <= k < |children| && children[k] == e;
        ChildIsListed(listing, k);
        assert ([e.name] + names)[1..] == names && Enters(w, e, [e.name] + names, to);
        assert Leads(w, from, [e.name] + names, to);
      }
    }
    if AllWithin(w, children, room - 1) {
      forall names: Path, to: nat | Leads(w, from, names, to)
        ensures |names| <= room
      {
        if names != [] {
          LeadsThroughAChild(w, from, names, to);
          var k :| 0 <= k < |children| && Enters(w, children[k], names, to);
          assert children[k] in children;
          assert WithinChild(w, children[k], room - 1) && Leads(w, children[k].node.ino, names[1..], to);
        }
      }
    }
  }

  /** The scan fails exactly when some directory is too deep. */
  lemma {:induction false} FailsIffTooDeep(w: World, ino: nat, path: Path, depth: nat)
    requires WellFormed(w) && ino in w.directories
    ensures FullScan(w, ino, path, depth).Ok? <==> Within(w, ino, MAX_DEPTH - depth)
    decreases MAX_DEPTH + 1 - depth, 1, 0
  {
    if depth > MAX_DEPTH {
      assert Leads(w, ino, [], ino);
    } else {
      var children := Children(w.directories[ino].listing);
      ChildrenFailIffTooDeep(w, ino, path, depth, |children|);
      assert children[..|children|] == children;
      WithinChildren(w, ino, MAX_DEPTH - depth);
    }
  }

  lemma {:induction false} ChildrenFailIffTooDeep(w: World, ino: nat, path: Path, depth: nat, k: nat)
    requires WellFormed(w) && ino in w.directories && depth <= MAX_DEPTH && k <= |Children(w.directories[ino].listing)|
    ensures FullChildren(w, ino, path, depth, k).Ok? <==>
            AllWithin(w, Children(w.directories[ino].listing)[..k], MAX_DEPTH - depth - 1)
    decreases MAX_DEPTH + 1 - depth, 0, k
  {
    hide Within, WellFormed, Children, FullScan;
    var children := Children(w.directories[ino].listing);
    if k > 0 {
      OneMoreFullChild(w, ino, path, depth, k - 1);
      ChildrenFailIffTooDeep(w, ino, path, depth, k - 1);
      var e := children[k - 1];
      FailsIffTooDeep(w, e.node.ino, Under(path, e.name), depth + 1);
      OneMoreWithin(w, children[..k - 1], e, MAX_DEPTH - depth - 1);
      assert children[..k - 1] + [e] == children[..k];
    }
  }

  // ---- which directories, and which repositories ----

  /** `at` is where names that continue `path` lead from the directory at `path`. */
  ghost predicate Below(w: World, ino: nat, path: Path, at: Repository) {
    path <= at.path && Leads(w, ino, at.path[|path|..], at.ino)
  }

  /** The visits that are repositories, in their order. */
  ghost function Repositories(w: World, visits: seq<Repository>): seq<Repository> {
    if visits == [] then []
    else
      var last := visits[|visits| - 1];
      Repositories(w, visits[..|visits| - 1]) + if last.path != [] && HoldsGit(w, last.ino) then [last] else []
  }

  lemma {:induction false} RepositoriesAre(w: World, visits: seq<Repository>)
    ensures forall v :: v in Repositories(w, visits) <==> v in visits && v.path != [] && HoldsGit(w, v.ino)
  {
    hide HoldsGit;
    if visits != [] {
      RepositoriesAre(w, visits[..|visits| - 1]);
      assert visits == visits[..|visits| - 1] + [visits[|visits| - 1]];
    }
  }

  lemma {:induction false} RepositoriesConcat(w: World, xs: seq<Repository>, ys: seq<Repository>)
    ensures Repositories(w, xs + ys) == Repositories(w, xs) + Repositories(w, ys)
  {
    hide HoldsGit;
    if ys == [] {
      assert xs + ys == xs;
    } else {
      RepositoriesConcat(w, xs, ys[..|ys| - 1]);
      assert (xs + ys)[..|xs + ys| - 1] == xs + ys[..|ys| - 1];
    }
  }

  /** No path twice. */
  ghost predicate OncePerPath(visits: seq<Repository>) {
    forall i, j :: 0 <= i < j < |visits| ==> visits[i].path != visits[j].path
  }

  /** A response answers for visits: it counts them, and lists their repositories. */
  ghost predicate AnswersFor(w: World, r: Response, visits: seq<Repository>) {
    r.directories == |visits| && r.repositories == Repositories(w, visits) && OncePerPath(visits)
  }

  lemma AnswersForBoth(w: World, a: Response, xs: seq<Repository>, b: Response, ys: seq<Repository>)
    requires AnswersFor(w, a, xs) && AnswersFor(w, b, ys)
    requires forall x <- xs, y <- ys :: x.path != y.path
    ensures AnswersFor(w, Join(a, b), xs + ys)
  {
    RepositoriesConcat(w, xs, ys);
  }

  lemma OwnAnswers(w: World, ino: nat, path: Path)
    requires ino in w.directories
    ensures AnswersFor(w, Own(w, ino, path), [Repository(path, ino)])
  {
    GitIsHeld(w, ino, path);
    assert [Repository(path, ino)][..0] == [];
  }

  /** What a scan of a directory visits: every directory below it, once. */
  lemma {:induction false} ScanVisits(w: World, ino: nat, path: Path, depth: nat) returns (visits: seq<Repository>)
    requires Tidy(w) && ino in w.directories && FullScan(w, ino, path, depth).Ok?
    ensures AnswersFor(w, FullScan(w, ino, path, depth).value, visits)
    ensures forall v :: v in visits <==> Below(w, ino, path, v)
    decreases MAX_DEPTH + 1 - depth, 1, 0
  {
    var children := Children(w.directories[ino].listing);
    visits := ChildrenVisit(w, ino, path, depth, |children|);
    forall v
      ensures v in visits <==> Below(w, ino, path, v)
    {
      BelowIsBelowAChild(w, ino, path, v);
    }
  }

  /** The directory itself or one below its first `k` children. */
  ghost predicate BelowFirst(w: World, ino: nat, path: Path, k: nat, at: Repository)
    requires ino in w.directories && k <= |Children(w.directories[ino].listing)|
  {
    || at == Repository(path, ino)
    || exists j :: 0 <= j < k && BelowChild(w, Children(w.directories[ino].listing)[j], path, at)
  }

  ghost predicate BelowChild(w: World, e: Entry, path: Path, at: Repository) {
    e.node.SubDirectory? && Below(w, e.node.ino, Under(path, e.name), at)
  }

  lemma BelowIsBelowAChild(w: World, ino: nat, path: Path, at: Repository)
    requires ino in w.directories
    ensures Below(w, ino, path, at) <==> BelowFirst(w, ino, path, |Children(w.directories[ino].listing)|, at)
  {
    var children := Children(w.directories[ino].listing);
    if path <= at.path {
      var names := at.path[|path|..];
      assert at.path == path + names;
      if names != [] {
        LeadsThroughAChild(w, ino, names, at.ino);
        forall k | 0 <= k < |children|
          ensures Enters(w, children[k], names, at.ino) <==> BelowChild(w, children[k], path, at)
        {
          EntersIsBelow(w, ino, k, path, at);
        }
      }
    }
  }

  lemma {:induction false} EntersIsBelow(w: World, ino: nat, k: nat, path: Path, at: Repository)
    requires ino in w.directories && k < |Children(w.directories[ino].listing)| && path < at.path
    ensures Enters(w, Children(w.directories[ino].listing)[k], at.path[|path|..], at.ino) <==>
            BelowChild(w, Children(w.directories[ino].listing)[k], path, at)
  {
    ChildIsListed(w.directories[ino].listing, k);
    hide Children, Leads;
    var e := Children(w.directories[ino].listing)[k];
    assert at.path[|path|..][1..] == at.path[|Under(path, e.name)|..];
    assert Under(path, e.name) <= at.path <==> e.name == at.path[|path|];
  }

  lemma {:induction false} ChildrenVisit(w: World, ino: nat, path: Path, depth: nat, k: nat)
    returns (visits: seq<Repository>)
    requires Tidy(w) && ino in w.directories && depth <= MAX_DEPTH && k <= |Children(w.directories[ino].listing)|
    requires FullChildren(w, ino, path, depth, k).Ok?
    ensures AnswersFor(w, FullChildren(w, ino, path, depth, k).value, visits)
    ensures forall v :: v in visits <==> BelowFirst(w, ino, path, k, v)
    decreases MAX_DEPTH + 1 - depth, 0, k
  {
    hide Children, FullScan, AnswersFor, Below, Own, UniqueNames, WellFormed;
    if k == 0 {
      visits := [Repository(path, ino)];
      OwnAnswers(w, ino, path);
    } else {
      var e := Children(w.directories[ino].listing)[k - 1];
      OneMoreFullChild(w, ino, path, depth, k - 1);
      var before := ChildrenVisit(w, ino, path, depth, k - 1);
      var below := ScanVisits(w, e.node.ino, Under(path, e.name), depth + 1);
      forall x, y | x in before && y in below
        ensures x.path != y.path
      {
        ChildrenAreApart(w, ino, path, k - 1, x, y);
      }
      AnswersForBoth(w, FullChildren(w, ino, path, depth, k - 1).value, before,
                     FullScan(w, e.node.ino, Under(path, e.name), depth + 1).value, below);
      visits := before + below;
    }
  }

  /** What lies below the `k`-th child has another path than the directory itself and what lies below another child. */
  lemma ChildrenAreApart(w: World, ino: nat, path: Path, k: nat, x: Repository, y: Repository)
    requires Tidy(w) && ino in w.directories && k < |Children(w.directories[ino].listing)|
    requires BelowFirst(w, ino, path, k, x) && BelowChild(w, Children(w.directories[ino].listing)[k], path, y)
    ensures x.path != y.path
  {
    var children := Children(w.directories[ino].listing);
    assert y.path[|path|] == children[k].name;
    if x != Repository(path, ino) {
      var j :| 0 <= j < k && BelowChild(w, children[j], path, x);
      assert x.path[|path|] == children[j].name;
      ChildrenHaveOneName(w.directories[ino].listing, j, k);
    }
  }

  /** A scan of a workspace goes through if and only if no names of more than 128 directories lead anywhere. Then it
      has visited every directory that names lead to, once each: it counts them, and lists those but the root that hold
      a `.git`. */
  lemma ScanFindsTheRepositories(w: World, root: nat) returns (visits: seq<Repository>)
    requires Tidy(w) && root in w.directories
    ensures var r := FullScan(w, root, [], 0);
            && (r.Ok? <==> Within(w, root, MAX_DEPTH))
            && (r.Ok? ==>
                  && (forall v :: v in visits <==> Leads(w, root, v.path, v.ino))
                  && (forall i, j :: 0 <= i < j < |visits| ==> visits[i].path != visits[j].path)
                  && r.value.directories == |visits| && r.value.repositories == Repositories(w, visits)
                  && (forall v :: v in r.value.repositories <==>
                                  v.path != [] && Leads(w, root, v.path, v.ino) && HoldsGit(w, v.ino)))
  {
    FailsIffTooDeep(w, root, [], 0);
    visits := [];
    if FullScan(w, root, [], 0).Ok? {
      visits := ScanVisits(w, root, [], 0);
      RepositoriesAre(w, visits);
      forall v: Repository
        ensures Below(w, root, [], v) <==> Leads(w, root, v.path, v.ino)
      {
        assert v.path[0..] == v.path;
      }
    }
  }
}
