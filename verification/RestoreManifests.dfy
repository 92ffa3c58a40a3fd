/** The plan of two manifests, and what a restore from them is to reach and to spare. */
module RestoreManifests {
  import opened Wrappers
  import opened Trees
  import opened RestorePlan
  import opened ScopedRestore

  // ---- ordering ----

  function DepthRank(p: Path, deepest: bool): int {
    if deepest then -|p| else |p|
  }

  function Insert(p: Path, paths: seq<Path>, deepest: bool): (r: seq<Path>)
    ensures multiset(r) == multiset(paths) + multiset{p}
  {
    if paths == [] then [p]
    else if DepthRank(p, deepest) <= DepthRank(paths[0], deepest) then [p] + paths
    else
      assert paths == [paths[0]] + paths[1..];
      [paths[0]] + Insert(p, paths[1..], deepest)
  }

  /** `sortPaths`: by depth, in one direction or the other; equal depths in any order. */
  function SortByDepth(paths: seq<Path>, deepest: bool): (r: seq<Path>)
    ensures multiset(r) == multiset(paths)
  {
    if paths == [] then []
    else
      assert paths == [paths[0]] + paths[1..];
      Insert(paths[0], SortByDepth(paths[1..], deepest), deepest)
  }

  ghost predicate Ordered(paths: seq<Path>, deepest: bool) {
    forall i, j :: 0 <= i < j < |paths| ==> DepthRank(paths[i], deepest) <= DepthRank(paths[j], deepest)
  }

  lemma PrependKeepsOrder(p: Path, paths: seq<Path>, deepest: bool)
    requires Ordered(paths, deepest) && forall q :: q in paths ==> DepthRank(p, deepest) <= DepthRank(q, deepest)
    ensures Ordered([p] + paths, deepest)
  {
    assert forall j :: 0 < j <= |paths| ==> ([p] + paths)[j] == paths[j - 1] && paths[j - 1] in paths;
  }

  lemma {:induction false} InsertKeepsOrder(p: Path, paths: seq<Path>, deepest: bool)
    requires Ordered(paths, deepest)
    ensures Ordered(Insert(p, paths, deepest), deepest)
  {
    if paths != [] {
      if DepthRank(p, deepest) <= DepthRank(paths[0], deepest) {
        PrependKeepsOrder(p, paths, deepest);
      } else {
        var rest := Insert(p, paths[1..], deepest);
        InsertKeepsOrder(p, paths[1..], deepest);
        assert forall q :: q in rest ==> q in multiset(rest);
        PrependKeepsOrder(paths[0], rest, deepest);
      }
    }
  }

  lemma {:induction false} SortByDepthOrders(paths: seq<Path>, deepest: bool)
    ensures Ordered(SortByDepth(paths, deepest), deepest)
  {
    if paths != [] {
      SortByDepthOrders(paths[1..], deepest);
      InsertKeepsOrder(paths[0], SortByDepth(paths[1..], deepest), deepest);
    }
  }

  ghost predicate NoDuplicates(paths: seq<Path>) {
    forall i, j :: 0 <= i < j < |paths| ==> paths[i] != paths[j]
  }

  lemma {:induction false} CountOfDistinct(paths: seq<Path>)
    ensures NoDuplicates(paths) <==> forall p :: multiset(paths)[p] <= 1
  {
    if paths != [] {
      assert paths == [paths[0]] + paths[1..];
      CountOfDistinct(paths[1..]);
      if NoDuplicates(paths) {
        assert NoDuplicates(paths[1..]);
        forall p
          ensures multiset(paths)[p] <= 1
        {
          assert multiset(paths) == multiset{paths[0]} + multiset(paths[1..]);
          assert paths[0] !in paths[1..];
        }
      }
      if forall p :: multiset(paths)[p] <= 1 {
        forall p
          ensures multiset(paths[1..])[p] <= 1
        {
          assert multiset(paths)[p] <= 1;
        }
        forall i, j | 0 <= i < j < |paths|
          ensures paths[i] != paths[j]
        {
          if i == 0 {
            assert multiset(paths)[paths[0]] <= 1;
            assert paths[j] in multiset(paths[1..]);
          } else {
            assert paths[1..][i - 1] != paths[1..][j - 1];
          }
        }
      }
    }
  }

  lemma {:induction false} SortedListsTheSame(paths: seq<Path>, s: set<Path>, deepest: bool)
    requires ListsExactly(paths, s)
    ensures ListsExactly(SortByDepth(paths, deepest), s)
  {
    var sorted := SortByDepth(paths, deepest);
    CountOfDistinct(paths);
    CountOfDistinct(sorted);
    assert forall p :: p in sorted <==> p in multiset(sorted);
    assert forall p :: p in paths <==> p in multiset(paths);
  }

  lemma ListsOneMore(paths: seq<Path>, s: set<Path>, p: Path)
    requires ListsExactly(paths, s) && p !in s
    ensures ListsExactly(paths + [p], s + {p})
  {
    assert forall i :: 0 <= i < |paths| ==> paths[i] in paths;
  }

  lemma DisjointListsConcatenate(xs: seq<Path>, ys: seq<Path>, s: set<Path>, t: set<Path>)
    requires ListsExactly(xs, s) && ListsExactly(ys, t) && s !! t
    ensures ListsExactly(xs + ys, s + t)
  {
    forall i, j | 0 <= i < j < |xs + ys|
      ensures (xs + ys)[i] != (xs + ys)[j]
    {
      if i < |xs| <= j {
        assert xs[i] in xs && ys[j - |xs|] in ys;
      }
    }
  }

  // ---- planning ----

  predicate InScope(scope: Option<set<Path>>, p: Path) {
    scope.None? || p in scope.value
  }

  /** A manifest lists the files that were there but ignored; they protect themselves and the directories above them. */
  predicate IsProtected(ignored: set<Path>, p: Path, e: Entry) {
    if e == Directory then exists q :: q in ignored && p < q else p in ignored
  }

  /** What one manifest holds, the other does not, and the other's ignored files protect. */
  function ProtectedBy(tree: Tree, other: Tree, ignored: set<Path>): set<Path> {
    set p | p in tree && p !in other && IsProtected(ignored, p, tree[p])
  }

  /** The plan of two trees within a scope, sparing what the target's ignored files protect. */
  ghost predicate IsSparingPlan(plan: Plan, current: Tree, target: Tree, scope: Option<set<Path>>, ignored: set<Path>) {
    && ListsExactly(plan.deletePaths, Within(DeleteSet(current, target), scope) - ProtectedBy(current, target, ignored))
    && ListsExactly(plan.writePaths, Within(WriteSet(current, target), scope))
    && DeepestFirst(plan.deletePaths)
    && WriteOrder(plan.writePaths, target)
  }

  ghost function DirectoriesOf(s: set<Path>, target: Tree): set<Path> {
    set p | p in s && p in target && target[p] == Directory
  }

  /** Directories shallow to deep, then the leaves (`orderedWritePaths`). */
  lemma DirectoriesThenLeavesIsWriteOrder(directories: seq<Path>, leaves: seq<Path>, target: Tree)
    requires Ordered(directories, false)
    requires forall p :: p in directories ==> p in target && target[p] == Directory
    requires forall p :: p in leaves ==> p in target && target[p] != Directory
    ensures WriteOrder(directories + leaves, target)
  {
    var paths := directories + leaves;
    assert forall j :: 0 <= j < |directories| ==> paths[j] == directories[j] && directories[j] in directories;
    assert forall j :: |directories| <= j < |paths| ==>
           paths[j] == leaves[j - |directories|] && leaves[j - |directories|] in leaves;
    assert forall i, j :: 0 <= i < j < |directories| ==>
           DepthRank(directories[i], false) <= DepthRank(directories[j], false);
  }

  lemma {:induction false} SortedDeletesGoDeepestFirst(paths: seq<Path>)
    ensures DeepestFirst(SortByDepth(paths, true))
  {
    SortByDepthOrders(paths, true);
    var sorted := SortByDepth(paths, true);
    assert forall i, j :: 0 <= i < j < |sorted| ==> DepthRank(sorted[i], true) <= DepthRank(sorted[j], true);
  }

  lemma {:induction false} SortedPartsFormThePlan(target: Tree, writes: set<Path>, directories: seq<Path>,
                                                  leaves: seq<Path>)
    requires writes <= target.Keys
    requires ListsExactly(directories, DirectoriesOf(writes, target))
    requires ListsExactly(leaves, writes - DirectoriesOf(writes, target))
    ensures ListsExactly(SortByDepth(directories, false) + SortByDepth(leaves, false), writes)
    ensures WriteOrder(SortByDepth(directories, false) + SortByDepth(leaves, false), target)
  {
    var directorySet := DirectoriesOf(writes, target);
    SortedListsTheSame(directories, directorySet, false);
    SortedListsTheSame(leaves, writes - directorySet, false);
    SortByDepthOrders(directories, false);
    DirectoriesThenLeavesIsWriteOrder(SortByDepth(directories, false), SortByDepth(leaves, false), target);
    DisjointListsConcatenate(SortByDepth(directories, false), SortByDepth(leaves, false), directorySet,
                             writes - directorySet);
    assert directorySet + (writes - directorySet) == writes;
  }

  /** `RestoreEngine.plan`. */
  method ComputePlan(current: Tree, target: Tree, scope: Option<set<Path>>, ignored: set<Path>) returns (plan: Plan)
    ensures IsSparingPlan(plan, current, target, scope, ignored)
  {
    var deletes: seq<Path> := [];
    ghost var deleteSet := Within(DeleteSet(current, target), scope) - ProtectedBy(current, target, ignored);
    var todo := current.Keys;
    while todo != {}
      invariant todo <= current.Keys
      invariant ListsExactly(deletes, deleteSet - todo)
    {
      var p :| p in todo;
      if p in deleteSet { ListsOneMore(deletes, deleteSet - todo, p); }
      assert deleteSet - (todo - {p}) == if p in deleteSet then (deleteSet - todo) + {p} else deleteSet - todo;
      if InScope(scope, p) {
        if p in target && current[p] != target[p] {
          if !SameKind(current[p], target[p]) || target[p].Symlink? {
            deletes := deletes + [p];
          }
        } else if p !in target {
          if !IsProtected(ignored, p, current[p]) {
            deletes := deletes + [p];
          }
        }
      }
      todo := todo - {p};
    }
    var directories: seq<Path>, leaves: seq<Path> := [], [];
    ghost var writes := Within(WriteSet(current, target), scope);
    ghost var directorySet, leafSet := DirectoriesOf(writes, target), writes - DirectoriesOf(writes, target);
    todo := target.Keys;
    while todo != {}
      invariant todo <= target.Keys
      invariant ListsExactly(directories, directorySet - todo)
      invariant ListsExactly(leaves, leafSet - todo)
    {
      var p :| p in todo;
      if p in directorySet { ListsOneMore(directories, directorySet - todo, p); }
      if p in leafSet { ListsOneMore(leaves, leafSet - todo, p); }
      assert directorySet - (todo - {p}) == if p in directorySet then (directorySet - todo) + {p}
             else directorySet - todo;
      assert leafSet - (todo - {p}) == if p in leafSet then (leafSet - todo) + {p} else leafSet - todo;
      if InScope(scope, p) && (p !in current || current[p] != target[p]) {
        if target[p] == Directory {
          directories := directories + [p];
        } else {
          leaves := leaves + [p];
        }
      }
      todo := todo - {p};
    }
    assert deleteSet - {} == deleteSet && directorySet - {} == directorySet && leafSet - {} == leafSet;
    SortedListsTheSame(deletes, deleteSet, true);
    SortedDeletesGoDeepestFirst(deletes);
    SortedPartsFormThePlan(target, writes, directories, leaves);
    plan := Plan(SortByDepth(deletes, true), SortByDepth(directories, false) + SortByDepth(leaves, false));
  }

  // ---- the manifests a run is given ----

  /** What the engine works from: two manifests, with the files each found ignored, and for a scoped restore the paths
      it is limited to. */
  datatype Manifests = Manifests(
    source: Tree, target: Tree, sourceIgnored: set<Path>, targetIgnored: set<Path>, scope: Option<set<Path>>)

  /** Paths that either direction leaves as they are. */
  function Spared(m: Manifests): set<Path> {
    ProtectedBy(m.source, m.target, m.targetIgnored) + ProtectedBy(m.target, m.source, m.sourceIgnored)
  }

  /** The paths a restore may change. */
  function Reach(m: Manifests): set<Path> {
    (if m.scope.None? then m.source.Keys + m.target.Keys else m.scope.value) - Spared(m)
  }

  /** Where a restore of `live` from these manifests ends. */
  function Goal(m: Manifests, live: Tree): Tree {
    Mixed(live, m.target, Reach(m))
  }

  /** What is spared is there, as the manifest says that holds it. */
  ghost predicate HoldsTheSpared(m: Manifests, live: Tree) {
    forall p :: p in Spared(m) && InScope(m.scope, p) ==> AgreeAt(live, if p in m.source then m.source else m.target, p)
  }

  /** The manifests describe a restore that leads from the tree `source` to the tree `target`. */
  ghost predicate Fits(m: Manifests, source: Tree, target: Tree) {
    && WellFormed(m.source) && WellFormed(m.target) && WellFormed(source) && WellFormed(target)
    && m.sourceIgnored !! m.source.Keys && m.targetIgnored !! m.target.Keys
    && AgreeOn(m.source, source, Reach(m)) && HoldsTheSpared(m, source)
    && target == Goal(m, source)
  }

  /** Directories that a write pass takes for ignored files and does not make. */
  function Blocked(m: Manifests): set<Path> {
    set p | p in m.target && p in m.sourceIgnored && InScope(m.scope, p) && p !in Spared(m)
  }

  /** A directory that has to be made is one of those. */
  ghost predicate Stuck(m: Manifests, live: Tree) {
    exists p :: p in Blocked(m) && p !in live
  }

  /** The whole of a tree, nothing being ignored: the restore ends at the other tree. */
  lemma GoalOfAWholeTree(m: Manifests)
    requires m.scope.None? && m.sourceIgnored == m.targetIgnored == {}
    ensures Goal(m, m.source) == m.target
  {
    assert Spared(m) == {};
  }

  lemma Listed(paths: seq<Path>, s: set<Path>)
    requires ListsExactly(paths, s)
    ensures forall p :: p in paths ==> p in s
  {
  }

  function Reversed(m: Manifests): Manifests {
    Manifests(m.target, m.source, m.targetIgnored, m.sourceIgnored, m.scope)
  }

  lemma ReversedFits(m: Manifests, source: Tree, target: Tree)
    requires Fits(m, source, target)
    ensures Fits(Reversed(m), target, source)
  {
    assert Spared(Reversed(m)) == Spared(m) && Reach(Reversed(m)) == Reach(m);
    MixedAgrees(source, m.target, Reach(m));
    hide Mixed, AgreeOn, WellFormed, ProtectedBy;
    ThereAndBack(source, m.source, m.target, Reach(m));
    forall p | p in Spared(m) && InScope(m.scope, p)
      ensures AgreeAt(target, if p in m.target then m.target else m.source, p)
    {
      assert p !in Reach(m);
      assert AgreeAt(target, source, p);
      assert AgreeAt(source, if p in m.source then m.source else m.target, p);
      SparedIsInOne(m, p);
    }
  }

  lemma SparedIsInOne(m: Manifests, p: Path)
    requires p in Spared(m)
    ensures p in m.source <==> p !in m.target
  {
  }

  lemma SparedLeafIsIgnored(m: Manifests, p: Path)
    requires p in Spared(m) && p in m.target && m.target[p] != Directory
    ensures p in m.sourceIgnored
  {
  }
}
