/** Asking Git for fewer, larger subtrees than the scope lists, without learning more than the scope covers. */
module TreeScope {
  import opened Wrappers
  import opened Trees

  // A path is the sequence of its components; the empty path is ".".

  /** The scope holds the path itself, one of its ancestors, or ".". */
  ghost predicate Covers(scope: set<Path>, p: Path) {
    exists q :: q in scope && q <= p
  }

  /** The leaves of a tree: none lies below another. */
  ghost predicate Leaves(leaves: set<Path>) {
    [] !in leaves && forall a, b :: a in leaves && b in leaves && a <= b ==> a == b
  }

  lemma PrefixesNest(a: Path, b: Path, p: Path)
    requires a <= p && b <= p && |a| <= |b|
    ensures a <= b
  {
  }

  lemma PrefixesChain(a: Path, b: Path, p: Path)
    requires a <= b <= p
    ensures a <= p
  {
  }

  /** `treeScopeContains`. */
  method Contains(scope: set<Path>, p: Path) returns (covered: bool)
    ensures covered <==> Covers(scope, p)
  {
    if [] in scope || p in scope { return true; }
    var end := 1;
    while end < |p|
      invariant 1 <= end
      invariant forall q :: q in scope && q <= p ==> |q| >= end
    {
      if p[..end] in scope { return true; }
      assert forall q: Path {:trigger q in scope} :: q <= p && |q| == end ==> q == p[..end];
      end := end + 1;
    }
    assert forall q: Path {:trigger q in scope} :: q <= p && |q| >= |p| ==> q == p;
    return false;
  }

  ghost predicate AboveAll(parent: Path, scope: seq<Path>) {
    parent == [] || forall i :: 0 <= i < |scope| ==> parent < scope[i]
  }

  /** The longest prefix of the first path, of length `n` or less, that lies above every path of the scope. */
  ghost function LongestAbove(scope: seq<Path>, n: nat): (parent: Path)
    requires scope != [] && n <= |scope[0]|
    ensures AboveAll(parent, scope) && parent <= scope[0]
    ensures forall q :: AboveAll(q, scope) && |q| <= n ==> |q| <= |parent|
  {
    if n == 0 then []
    else if AboveAll(scope[0][..n], scope) then scope[0][..n]
    else
      assert forall q: Path :: AboveAll(q, scope) && |q| == n ==> q == scope[0][..n];
      LongestAbove(scope, n - 1)
  }

  /** The deepest common proper ancestor of the scope, and "." when a path of the scope is "." itself. */
  ghost function CommonAncestor(scope: seq<Path>): (parent: Path)
    requires scope != []
    ensures AboveAll(parent, scope) && parent <= scope[0]
    ensures forall q :: AboveAll(q, scope) ==> q <= parent
  {
    var parent := LongestAbove(scope, |scope[0]|);
    assert forall q :: AboveAll(q, scope) ==> |q| <= |scope[0]| && q <= scope[0] && |q| <= |parent|;
    parent
  }

  lemma StartsBelow(scope: seq<Path>)
    requires scope != [] && scope[0] != []
    ensures CommonAncestor(scope) <= scope[0][..|scope[0]| - 1]
  {
    var deepest := CommonAncestor(scope);
    assert deepest == [] || deepest < scope[0];
  }

  lemma OnlyTheDeepest(scope: seq<Path>, parent: Path)
    requires scope != [] && CommonAncestor(scope) <= parent && AboveAll(parent, scope)
    ensures parent == CommonAncestor(scope)
  {
    var deepest := CommonAncestor(scope);
    assert parent <= deepest;
  }

  lemma StaysBelow(scope: seq<Path>, i: nat)
    requires i < |scope|
    ensures CommonAncestor(scope) == [] || CommonAncestor(scope) < scope[i]
  {
    assert AboveAll(CommonAncestor(scope), scope);
  }

  lemma ParentShrinks(deepest: Path, parent: Path, scope: seq<Path>, i: nat)
    requires i < |scope| && deepest <= parent && parent != [] && !(parent < scope[i])
             && (deepest == [] || deepest < scope[i])
    ensures deepest <= parent[..|parent| - 1]
    ensures forall j :: 0 <= j < i && parent < scope[j] ==> parent[..|parent| - 1] < scope[j]
  {
  }

  /** `parent` lies above the first `n` paths. */
  ghost predicate AboveFirst(parent: Path, scope: seq<Path>, n: nat)
    requires n <= |scope|
  {
    parent == [] || forall j :: 0 <= j < n ==> parent < scope[j]
  }

  /** The first loop. */
  method CommonParent(scope: seq<Path>) returns (parent: Path)
    requires scope != []
    ensures parent == CommonAncestor(scope)
  {
    ghost var deepest := CommonAncestor(scope);
    if scope[0] != [] { StartsBelow(scope); }
    parent := if scope[0] == [] then [] else scope[0][..|scope[0]| - 1];
    if scope[0] == [] { StaysBelow(scope, 0); }
    for i := 0 to |scope|
      invariant deepest <= parent && AboveFirst(parent, scope, i)
    {
      StaysBelow(scope, i);
      parent := ShortenTo(parent, scope, i, deepest);
    }
    OnlyTheDeepest(scope, parent);
  }

  method ShortenTo(start: Path, scope: seq<Path>, i: nat, ghost deepest: Path) returns (parent: Path)
    requires i < |scope| && deepest <= start && AboveFirst(start, scope, i) && (deepest == [] || deepest < scope[i])
    ensures deepest <= parent && AboveFirst(parent, scope, i + 1)
  {
    parent := start;
    while parent != [] && !(parent < scope[i])
      invariant deepest <= parent && AboveFirst(parent, scope, i)
      decreases |parent|
    {
      ParentShrinks(deepest, parent, scope, i);
      parent := parent[..|parent| - 1];
    }
  }

  /** The proper ancestors of a path, "." among them. */
  method Ancestors(p: Path) returns (above: set<Path>)
    ensures forall q :: q in above <==> q < p
  {
    above := {};
    for n := 0 to |p|
      invariant forall q :: q in above <==> q < p && |q| < n
    {
      assert forall q: Path {:trigger q in above} :: q < p && |q| == n ==> q == p[..n];
      above := above + {p[..n]};
    }
  }

  /** What may not be asked for as a whole: what lies above the probed directory, and what has a leaf outside the
      scope. */
  ghost predicate IsBlocked(leaves: set<Path>, scope: set<Path>, parent: Path, q: Path) {
    q < parent || exists leaf :: leaf in leaves && parent <= leaf && !Covers(scope, leaf) && q < leaf
  }

  method Blocked(leaves: set<Path>, scope: set<Path>, parent: Path) returns (blocked: set<Path>)
    ensures forall q :: q in blocked <==> IsBlocked(leaves, scope, parent, q)
  {
    blocked := Ancestors(parent);
    var probed := set leaf | leaf in leaves && parent <= leaf;
    var todo := probed;
    while todo != {}
      invariant todo <= probed
      invariant forall q :: q in blocked <==>
        (q < parent || exists leaf :: leaf in probed && leaf !in todo && !Covers(scope, leaf) && q < leaf)
    {
      var leaf :| leaf in todo;
      var covered := Contains(scope, leaf);
      if !covered {
        var above := Ancestors(leaf);
        blocked := blocked + above;
      }
      todo := todo - {leaf};
    }
  }

  /** The shortest proper ancestor of `s` other than "." that is not blocked, or `s` itself. */
  ghost predicate IsCandidate(blocked: set<Path>, s: Path, c: Path) {
    && c <= s && (c != s ==> c != [] && c !in blocked)
    && forall q :: q < c && q !in blocked ==> q == []
  }

  method Candidate(blocked: set<Path>, s: Path) returns (c: Path)
    ensures IsCandidate(blocked, s, c)
  {
    var end := 1;
    while end < |s|
      invariant 1 <= end
      invariant forall q :: q <= s && |q| < end && q !in blocked ==> q == [] || q == s
    {
      if s[..end] !in blocked {
        assert forall q: Path {:trigger q in blocked} :: q < s[..end] ==> q <= s && |q| < end;
        return s[..end];
      }
      assert forall q: Path {:trigger q in blocked} :: q <= s && |q| == end ==> q == s[..end];
      end := end + 1;
    }
    return s;
  }

  ghost predicate HasCandidates(scope: seq<Path>, blocked: set<Path>, compacted: set<Path>) {
    forall s :: s in scope ==> exists c :: c in compacted && IsCandidate(blocked, s, c)
  }

  ghost predicate HasOrigins(scope: seq<Path>, blocked: set<Path>, compacted: set<Path>) {
    forall c :: c in compacted ==> exists s :: s in scope && IsCandidate(blocked, s, c)
  }

  lemma CandidateAdded(scope: seq<Path>, blocked: set<Path>, compacted: set<Path>, s: Path, c: Path)
    requires HasCandidates(scope, blocked, compacted) && IsCandidate(blocked, s, c)
    ensures HasCandidates(scope + [s], blocked, compacted + {c})
  {
    hide IsCandidate;
    forall t | t in scope + [s]
      ensures exists d :: d in compacted + {c} && IsCandidate(blocked, t, d)
    {
      if t in scope {
        var d :| d in compacted && IsCandidate(blocked, t, d);
        assert d in compacted + {c};
      } else {
        assert c in compacted + {c};
      }
    }
  }

  lemma OriginAdded(scope: seq<Path>, blocked: set<Path>, compacted: set<Path>, s: Path, c: Path)
    requires HasOrigins(scope, blocked, compacted) && IsCandidate(blocked, s, c)
    ensures HasOrigins(scope + [s], blocked, compacted + {c})
  {
    hide IsCandidate;
    forall d | d in compacted + {c}
      ensures exists t :: t in scope + [s] && IsCandidate(blocked, t, d)
    {
      if d in compacted {
        var t :| t in scope && IsCandidate(blocked, t, d);
        assert t in scope + [s];
      } else {
        assert s in scope + [s];
      }
    }
  }

  ghost function Members(scope: seq<Path>): set<Path> {
    set s | s in scope
  }

  /** A scope path lies below a leaf of the probed subtree that the scope does not hold itself. */
  ghost predicate Undercut(leaves: set<Path>, scope: seq<Path>, parent: Path, a: Path) {
    a in leaves && parent <= a && !Covers(Members(scope), a) && exists s :: s in scope && a < s
  }

  /** What the scope covers, the compacted scope covers. */
  lemma CompactedCoversMore(scope: seq<Path>, blocked: set<Path>, compacted: set<Path>, leaf: Path)
    requires HasCandidates(scope, blocked, compacted) && Covers(Members(scope), leaf)
    ensures Covers(compacted, leaf)
  {
    var s :| s in Members(scope) && s <= leaf;
    var c :| c in compacted && IsCandidate(blocked, s, c);
    PrefixesChain(c, s, leaf);
  }

  /** A leaf that only the compacted scope covers is undercut by the scope. */
  lemma OnlyUndercutLeavesAreAdded(leaves: set<Path>, scope: seq<Path>, parent: Path, blocked: set<Path>,
                                   compacted: set<Path>, leaf: Path)
    requires AboveAll(parent, scope) && forall q :: q in blocked <==> IsBlocked(leaves, Members(scope), parent, q)
    requires HasOrigins(scope, blocked, compacted) && leaf in leaves && Covers(compacted, leaf)
             && !Covers(Members(scope), leaf)
    ensures Undercut(leaves, scope, parent, leaf)
  {
    var c :| c in compacted && c <= leaf;
    var s :| s in scope && IsCandidate(blocked, s, c);
    assert s in Members(scope);
    assert c != s && !IsBlocked(leaves, Members(scope), parent, c);
    if |c| < |parent| {
      PrefixesNest(c, parent, s);
    } else {
      PrefixesNest(parent, c, s);
      PrefixesChain(parent, c, leaf);
      assert c == leaf;
    }
  }

  /** And every undercut leaf is indeed added. */
  lemma UndercutLeavesAreAdded(leaves: set<Path>, scope: seq<Path>, parent: Path, blocked: set<Path>,
                               compacted: set<Path>, a: Path)
    requires Leaves(leaves) && forall q :: q in blocked <==> IsBlocked(leaves, Members(scope), parent, q)
    requires HasCandidates(scope, blocked, compacted) && Undercut(leaves, scope, parent, a)
    ensures Covers(compacted, a) && !Covers(Members(scope), a)
  {
    var s :| s in scope && a < s;
    var c :| c in compacted && IsCandidate(blocked, s, c);
    assert !IsBlocked(leaves, Members(scope), parent, a);
    if |a| < |c| {
      PrefixesNest(a, c, s);
    } else {
      PrefixesNest(c, a, s);
    }
  }

  /** The leaves a query returns: all of them when there is no scope. */
  ghost function Listed(leaves: set<Path>, query: Option<set<Path>>): set<Path> {
    set leaf | leaf in leaves && (query.None? || Covers(query.value, leaf))
  }

  /** `compactTreeQueryScope`; the probe may fail, and then the scope stays as it is. What it asks for covers the scope,
      and no other leaf exactly when no scope path lies below a leaf of the probed subtree that the scope leaves out. */
  method Compact(leaves: set<Path>, scope: seq<Path>, probeFails: bool) returns (query: Option<set<Path>>)
    requires Leaves(leaves) && scope != []
    ensures Listed(leaves, query) >= Listed(leaves, Some(Members(scope)))
    ensures !probeFails ==>
              (Listed(leaves, query) == Listed(leaves, Some(Members(scope))) <==>
               forall a :: a in leaves ==> !Undercut(leaves, scope, CommonAncestor(scope), a))
    ensures probeFails ==> Listed(leaves, query) == Listed(leaves, Some(Members(scope)))
  {
    var parent := CommonParent(scope);
    var included := set s | s in scope;
    if probeFails { return Some(included); }
    var blocked := Blocked(leaves, included, parent);
    if [] !in blocked {
      NothingLeftOut(leaves, scope, parent, blocked);
      return None;
    }
    var compacted: set<Path> := {};
    assert HasCandidates(scope[..0], blocked, compacted) && HasOrigins(scope[..0], blocked, compacted);
    hide HasCandidates, HasOrigins, IsCandidate, IsBlocked, Covers;
    for i := 0 to |scope|
      invariant HasCandidates(scope[..i], blocked, compacted) && HasOrigins(scope[..i], blocked, compacted)
    {
      var c := Candidate(blocked, scope[i]);
      assert scope[..i + 1] == scope[..i] + [scope[i]];
      CandidateAdded(scope[..i], blocked, compacted, scope[i], c);
      OriginAdded(scope[..i], blocked, compacted, scope[i], c);
      compacted := compacted + {c};
    }
    assert scope[..|scope|] == scope;
    CompactedIsExactUnlessUndercut(leaves, scope, parent, blocked, compacted);
    return Some(compacted);
  }

  lemma NothingLeftOut(leaves: set<Path>, scope: seq<Path>, parent: Path, blocked: set<Path>)
    requires Leaves(leaves) && [] !in blocked && forall q :: q in blocked <==>
             IsBlocked(leaves, Members(scope), parent, q)
    ensures forall leaf :: leaf in leaves ==> Covers(Members(scope), leaf)
    ensures forall a :: !Undercut(leaves, scope, parent, a)
  {
    assert !IsBlocked(leaves, Members(scope), parent, []);
    assert parent == [];
    forall leaf | leaf in leaves && !Covers(Members(scope), leaf)
      ensures false
    {
      assert IsBlocked(leaves, Members(scope), parent, []);
    }
  }

  lemma CompactedIsExactUnlessUndercut(leaves: set<Path>, scope: seq<Path>, parent: Path, blocked: set<Path>,
                                       compacted: set<Path>)
    requires Leaves(leaves) && AboveAll(parent, scope)
    requires HasCandidates(scope, blocked, compacted) && HasOrigins(scope, blocked, compacted)
    requires forall q :: q in blocked <==> IsBlocked(leaves, Members(scope), parent, q)
    ensures forall leaf :: leaf in leaves ==>
              (Covers(compacted, leaf) <==> Covers(Members(scope), leaf) || Undercut(leaves, scope, parent, leaf))
    ensures Listed(leaves, Some(compacted)) == Listed(leaves, Some(Members(scope))) <==>
            forall a :: a in leaves ==> !Undercut(leaves, scope, parent, a)
  {
    hide HasCandidates, HasOrigins;
    forall leaf | leaf in leaves
      ensures Covers(compacted, leaf) <==> Covers(Members(scope), leaf) || Undercut(leaves, scope, parent, leaf)
    {
      if Covers(Members(scope), leaf) {
        CompactedCoversMore(scope, blocked, compacted, leaf);
      } else if Covers(compacted, leaf) {
        OnlyUndercutLeavesAreAdded(leaves, scope, parent, blocked, compacted, leaf);
      } else if Undercut(leaves, scope, parent, leaf) {
        UndercutLeavesAreAdded(leaves, scope, parent, blocked, compacted, leaf);
      }
    }
    assert forall a :: Undercut(leaves, scope, parent, a) ==> !Covers(Members(scope), a);
    hide Covers, Undercut;
    assert forall leaf :: leaf in Listed(leaves, Some(compacted)) <==> leaf in leaves && Covers(compacted, leaf);
    assert forall leaf :: leaf in Listed(leaves, Some(Members(scope))) <==>
           leaf in leaves && Covers(Members(scope), leaf);
  }

  lemma RootOnlyIsBlocked(q: Path)
    ensures q in {[]} <==> IsBlocked({["a"]}, {["a", "b"]}, ["a"], q)
  {
    assert !Covers({["a", "b"]}, ["a"]) by { assert !(["a", "b"] <= ["a"]); }
    hide Covers;
    assert q < ["a"] <==> q == [];
  }

  /** A tree with the file `a` and a scope with `a/b`: the compacted scope also asks for `a`. */
  lemma UndercutExample() returns (leaves: set<Path>, scope: seq<Path>, blocked: set<Path>, compacted: set<Path>)
    ensures Leaves(leaves) && scope != [] && compacted == {["a"]}
    ensures forall q :: q in blocked <==> IsBlocked(leaves, Members(scope), CommonAncestor(scope), q)
    ensures HasCandidates(scope, blocked, compacted) && HasOrigins(scope, blocked, compacted)
    ensures ["a"] in leaves && Undercut(leaves, scope, CommonAncestor(scope), ["a"]) && Covers(compacted, ["a"])
  {
    leaves, scope, blocked, compacted := {["a"]}, [["a", "b"]], {[]}, {["a"]};
    assert Members(scope) == {["a", "b"]};
    assert CommonAncestor(scope) == ["a"] by { assert AboveAll(["a"], scope); }
    forall q
      ensures q in blocked <==> IsBlocked(leaves, Members(scope), ["a"], q)
    {
      RootOnlyIsBlocked(q);
    }
    hide IsBlocked, CommonAncestor;
    assert Covers(compacted, ["a"]) by { assert ["a"] <= ["a"]; }
    assert !Covers(Members(scope), ["a"]) by { assert !(["a", "b"] <= ["a"]); }
    hide Covers;
    assert forall q: Path {:trigger q in blocked} :: q < ["a"] <==> q == [];
    assert IsCandidate(blocked, ["a", "b"], ["a"]);
  }

  /** `readTreeEntries`: the query may be compacted, the answer is filtered by the scope itself. */
  method ReadTreeEntries(leaves: set<Path>, scope: Option<seq<Path>>, compactFrom: nat, probeFails: bool)
    returns (entries: set<Path>)
    requires Leaves(leaves) && compactFrom > 0
    ensures entries == Listed(leaves, if scope.None? then None else Some(Members(scope.value)))
  {
    if scope.None? { return leaves; }
    var members := set s | s in scope.value;
    var query: Option<set<Path>> := Some(members);
    assert members == Members(scope.value);
    if |scope.value| >= compactFrom {
      query := Compact(leaves, scope.value, probeFails);
    }
    entries := {};
    var todo := leaves;
    while todo != {}
      invariant todo <= leaves && entries == Listed(leaves - todo, Some(members))
    {
      var leaf :| leaf in todo;
      var listed := true;
      if query.Some? { listed := Contains(query.value, leaf); }
      var covered := Contains(members, leaf);
      assert covered ==> leaf in Listed(leaves, Some(members)) && leaf in Listed(leaves, query);
      if listed && covered {
        entries := entries + {leaf};
      }
      assert leaves - (todo - {leaf}) == (leaves - todo) + {leaf};
      todo := todo - {leaf};
    }
    assert leaves - {} == leaves;
  }
}
