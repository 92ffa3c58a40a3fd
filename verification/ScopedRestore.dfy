/** A restore of some paths of a workspace that has changed elsewhere: what an undo does. */
module ScopedRestore {
  import opened Wrappers
  import opened Trees
  import opened RestorePlan

  /** The scope holds the path itself or one of its ancestors. */
  predicate Covered(scope: set<Path>, p: Path) {
    exists s :: s in scope && s <= p
  }

  predicate LeadsTo(scope: set<Path>, p: Path) {
    exists s :: s in scope && p < s
  }

  /** A capture limited to a scope: everything the scope covers, and the directories that lead there. */
  function Captured(live: Tree, scope: set<Path>): Tree {
    map p | p in live && (Covered(scope, p) || (live[p] == Directory && LeadsTo(scope, p))) :: live[p]
  }

  /** In scope what `target` says, elsewhere what the workspace held. */
  function Mixed(live: Tree, target: Tree, scope: set<Path>): Tree {
    (live - scope) + map p | p in target && p in scope :: target[p]
  }

  ghost predicate AgreeAt(a: Tree, b: Tree, p: Path) {
    (p in a <==> p in b) && (p in a ==> a[p] == b[p])
  }

  ghost predicate AgreeOn(a: Tree, b: Tree, scope: set<Path>) {
    forall p :: p in scope ==> AgreeAt(a, b, p)
  }

  lemma CapturedFits(live: Tree, scope: set<Path>)
    requires WellFormed(live)
    ensures WellFormed(Captured(live, scope)) && AgreeOn(Captured(live, scope), live, scope)
  {
    var captured := Captured(live, scope);
    forall p: Path, k: int | p in captured && 0 < k < |p|
      ensures p[..k] in captured && captured[p[..k]] == Directory
    {
      assert p[..k] in live && live[p[..k]] == Directory && p[..k] < p;
      if Covered(scope, p) {
        var s :| s in scope && s <= p;
        assert if |s| <= k then s <= p[..k] else p[..k] < s;
      } else {
        var s :| s in scope && p < s;
        assert p[..k] < s;
      }
    }
    forall p | p in scope
      ensures AgreeAt(captured, live, p)
    {
      assert p <= p;
    }
  }

  /** In scope what `target` says, or a directory that stays although `target` does not list it; elsewhere the
      workspace. */
  ghost predicate Fuses(mix: Tree, live: Tree, target: Tree, scope: set<Path>) {
    && (forall p :: p !in scope ==> AgreeAt(mix, live, p))
    && forall p :: p in scope ==>
         || AgreeAt(mix, target, p)
         || (p !in target && p in live && p in mix && live[p] == mix[p] == Directory)
  }

  lemma MixedFuses(live: Tree, target: Tree, scope: set<Path>)
    ensures Fuses(Mixed(live, target, scope), live, target, scope)
  {
    MixedAgrees(live, target, scope);
    hide Mixed;
  }

  lemma MixedAgrees(live: Tree, target: Tree, scope: set<Path>)
    ensures AgreeOn(Mixed(live, target, scope), target, scope)
    ensures forall p :: p !in scope ==> AgreeAt(Mixed(live, target, scope), live, p)
  {
  }

  // ---- the scoped plan is the plan between the workspace and the mixture ----

  lemma PlansAgree(live: Tree, source: Tree, mix: Tree, target: Tree, p: Path)
    requires AgreeAt(source, live, p) && AgreeAt(mix, target, p)
    ensures PlansDelete(source, target, p) == PlansDelete(live, mix, p)
    ensures PlansWrite(source, target, p) == PlansWrite(live, mix, p)
  {
  }

  lemma NothingPlannedElsewhere(live: Tree, mix: Tree, p: Path)
    requires AgreeAt(mix, live, p)
    ensures !PlansDelete(live, mix, p) && !PlansWrite(live, mix, p)
  {
  }

  lemma ScopedPlanIsPlan(live: Tree, source: Tree, target: Tree, scope: set<Path>, plan: Plan)
    requires AgreeOn(source, live, scope) && IsScopedPlan(plan, source, target, Some(scope))
    ensures IsPlan(plan, live, Mixed(live, target, scope))
  {
    var mix := Mixed(live, target, scope);
    MixedAgrees(live, target, scope);
    hide Mixed;
    forall p
      ensures PlansDelete(live, mix, p) <==> p in scope && PlansDelete(source, target, p)
      ensures PlansWrite(live, mix, p) <==> p in scope && PlansWrite(source, target, p)
    {
      if p in scope {
        assert AgreeAt(source, live, p);
        PlansAgree(live, source, mix, target, p);
      } else {
        NothingPlannedElsewhere(live, mix, p);
      }
    }
    assert DeleteSet(live, mix) == Within(DeleteSet(source, target), Some(scope));
    assert WriteSet(live, mix) == Within(WriteSet(source, target), Some(scope));
    forall p | p in plan.writePaths
      ensures p in mix && p in target && mix[p] == target[p]
    {
      assert p in WriteSet(live, mix) && p in scope && AgreeAt(mix, target, p);
    }
    assert forall i :: 0 <= i < |plan.writePaths| ==> plan.writePaths[i] in plan.writePaths;
  }

  // ---- and so is what its steps do ----

  lemma DeleteStepAgrees(l: Tree, live: Tree, source: Tree, mix: Tree, target: Tree, scope: set<Path>, p: Path)
    requires WellFormed(live) && WellFormed(source) && WellFormed(target) && WellFormed(mix)
             && Fuses(mix, live, target, scope)
    requires AgreeOn(source, live, scope) && Between(l, live, mix) && p in scope && PlansDelete(live, mix, p)
    ensures DeleteStep(l, source, target, p) == DeleteStep(l, live, mix, p)
  {
    ShadowedAgrees(l, live, mix, target, scope, p);
    assert AgreeAt(source, live, p) && AgreeAt(mix, target, p);
    if p in l {
      NotShadowed(l, p, source);
      NotShadowed(l, p, live);
      NotShadowed(l, p, target);
      NotShadowed(l, p, mix);
      PlansAgree(live, source, mix, target, p);
    }
  }

  lemma NotShadowed(l: Tree, p: Path, other: Tree)
    requires WellFormed(l) && WellFormed(other) && p in l
    ensures !Shadowed(l, p, other)
  {
    if Shadowed(l, p, other) { ShadowedPathsAreAbsent(l, p, other); }
  }

  /** Above a path that the workspace holds everything outside the scope is a directory, so no leaf there shadows it. */
  lemma ShadowedAgrees(l: Tree, live: Tree, mix: Tree, target: Tree, scope: set<Path>, p: Path)
    requires WellFormed(live) && WellFormed(target) && WellFormed(mix) && Fuses(mix, live, target, scope)
    requires Between(l, live, mix) && p in live
    ensures Shadowed(l, p, target) == Shadowed(l, p, mix)
  {
    ShadowedMeans(l, p, target);
    ShadowedMeans(l, p, mix);
    forall i | 0 < i < |p|
      ensures Matches(l, p[..i], target) && target[p[..i]] != Directory <==>
              Matches(l, p[..i], mix) && mix[p[..i]] != Directory
    {
      var a := p[..i];
      assert a in live && live[a] == Directory;
      if !(a in scope && AgreeAt(mix, target, a)) {
        assert a !in scope ==> AgreeAt(mix, live, a);
        assert a in mix && mix[a] == Directory;
        assert Matches(l, a, target) ==> l[a] == Directory;
      }
    }
  }

  lemma WriteStepAgrees(l: Tree, live: Tree, source: Tree, mix: Tree, target: Tree, scope: set<Path>, p: Path)
    requires Fuses(mix, live, target, scope) && AgreeOn(source, live, scope) && p in scope && p in target
    ensures p in mix && WriteStep(l, source, target, p) == WriteStep(l, live, mix, p)
  {
    assert AgreeAt(source, live, p) && AgreeAt(mix, target, p);
    PlansAgree(live, source, mix, target, p);
  }

  lemma {:induction false} DeletesAgree(l: Tree, live: Tree, source: Tree, mix: Tree, target: Tree, scope: set<Path>,
                                        paths: seq<Path>, i: nat)
    requires WellFormed(live) && WellFormed(source) && WellFormed(target) && WellFormed(mix)
             && Fuses(mix, live, target, scope)
    requires AgreeOn(source, live, scope) && Between(l, live, mix) && i <= |paths|
    requires ListsExactly(paths, DeleteSet(live, mix)) && DeepestFirst(paths) && forall p :: p in paths ==> p in scope
    ensures RunDeletes(l, source, target, paths[..i]) == RunDeletes(l, live, mix, paths[..i])
  {
    if i > 0 {
      hide Fuses, DeleteStep, AgreeOn, Between, WellFormed;
      DeletesAgree(l, live, source, mix, target, scope, paths, i - 1);
      assert paths[..i][..i - 1] == paths[..i - 1];
      DeletesSettle(l, live, mix, paths, i - 1);
      var next := RunDeletes(l, live, mix, paths[..i - 1]).value;
      assert paths[i - 1] in paths;
      DeleteStepAgrees(next, live, source, mix, target, scope, paths[i - 1]);
    }
  }

  lemma {:induction false} WritesAgree(l: Tree, live: Tree, source: Tree, mix: Tree, target: Tree, scope: set<Path>,
                                       paths: seq<Path>, directories: bool)
    requires Fuses(mix, live, target, scope) && AgreeOn(source, live, scope)
    requires forall p :: p in paths ==> p in scope && p in target
    ensures RunWrites(l, source, target, paths, directories) == RunWrites(l, live, mix, paths, directories)
  {
    if paths != [] {
      var earlier, p := paths[..|paths| - 1], paths[|paths| - 1];
      assert forall q :: q in earlier ==> q in paths;
      WritesAgree(l, live, source, mix, target, scope, earlier, directories);
      assert p in paths;
      var before := RunWrites(l, live, mix, earlier, directories);
      if before.Ok? {
        WriteStepAgrees(before.value, live, source, mix, target, scope, p);
      }
    }
  }

  /** From the workspace, or from wherever an interrupted attempt has left it, the scoped plan ends at the mixture. */
  lemma ScopedPlanConverges(l: Tree, live: Tree, source: Tree, target: Tree, scope: set<Path>, plan: Plan)
    requires WellFormed(live) && WellFormed(source) && WellFormed(target) && AgreeOn(source, live, scope)
    requires IsScopedPlan(plan, source, target, Some(scope))
    requires WellFormed(Mixed(live, target, scope)) && Between(l, live, Mixed(live, target, scope))
    ensures RunPlan(l, source, target, plan) == Ok(Mixed(live, target, scope))
  {
    var mix := Mixed(live, target, scope);
    ScopedPlanIsPlan(live, source, target, scope, plan);
    PlanConverges(l, live, mix, plan);
    MixedFuses(live, target, scope);
    assert (forall p :: p in plan.deletePaths ==> p in scope)
           && (forall p :: p in plan.writePaths ==> p in scope && p in target);
    hide Mixed, Fuses, WellFormed, AgreeOn, Between, DeepestFirst, WriteOrder;
    DeletesAgree(l, live, source, mix, target, scope, plan.deletePaths, |plan.deletePaths|);
    assert plan.deletePaths[..|plan.deletePaths|] == plan.deletePaths;
    var cleared := RunDeletes(l, live, mix, plan.deletePaths);
    WritesAgree(cleared.value, live, source, mix, target, scope, plan.writePaths, true);
    var skeleton := RunWrites(cleared.value, live, mix, plan.writePaths, true);
    WritesAgree(skeleton.value, live, source, mix, target, scope, plan.writePaths, false);
  }

  // ---- cut short, and taken up again or taken back ----

  datatype Pass = Deletes | Directories | Leaves

  /** The first `n` paths of one of the three passes, the passes before it being complete. */
  function PartOf(l: Tree, source: Tree, target: Tree, plan: Plan, pass: Pass, n: nat): Result<Tree>
    requires n <= if pass == Deletes then |plan.deletePaths| else |plan.writePaths|
  {
    if pass == Deletes then RunDeletes(l, source, target, plan.deletePaths[..n])
    else match RunDeletes(l, source, target, plan.deletePaths)
      case Failed => Failed
      case Ok(cleared) =>
        if pass == Directories then RunWrites(cleared, source, target, plan.writePaths[..n], true)
        else match RunWrites(cleared, source, target, plan.writePaths, true)
          case Failed => Failed
          case Ok(skeleton) => RunWrites(skeleton, source, target, plan.writePaths[..n], false)
  }

  lemma PartStaysBetween(l: Tree, source: Tree, target: Tree, plan: Plan, pass: Pass, n: nat)
    requires WellFormed(source) && WellFormed(target) && IsPlan(plan, source, target) && Between(l, source, target)
    requires n <= if pass == Deletes then |plan.deletePaths| else |plan.writePaths|
    ensures var r := PartOf(l, source, target, plan, pass, n); r.Ok? && Between(r.value, source, target)
  {
    hide WellFormed, Between, DeepestFirst, WriteOrder, HasDirectories, RunDeletes, RunWrites;
    assert Within(DeleteSet(source, target), None) == DeleteSet(source, target);
    if pass == Deletes {
      DeletesSettle(l, source, target, plan.deletePaths, n);
    } else {
      DeletesClear(l, source, target, plan.deletePaths);
      var cleared := RunDeletes(l, source, target, plan.deletePaths).value;
      if pass == Directories {
        DirectoriesAppear(cleared, source, target, plan.writePaths, n);
      } else {
        WritesComplete(cleared, source, target, plan.writePaths);
        LeavesAppear(RunWrites(cleared, source, target, plan.writePaths, true).value, source, target, plan.writePaths,
                     n);
      }
    }
  }

  lemma {:induction false} WritesAgreeUpTo(l: Tree, live: Tree, source: Tree, mix: Tree, target: Tree, scope: set<Path>,
                        paths: seq<Path>, n: nat, directories: bool)
    requires mix == Mixed(live, target, scope) && AgreeOn(source, live, scope) && n <= |paths|
    requires forall p :: p in paths ==> p in scope && p in target
    ensures RunWrites(l, source, target, paths[..n], directories) == RunWrites(l, live, mix, paths[..n], directories)
  {
    MixedFuses(live, target, scope);
    hide Mixed, Fuses, RunWrites;
    assert forall p :: p in paths[..n] ==> p in paths;
    WritesAgree(l, live, source, mix, target, scope, paths[..n], directories);
  }

  lemma PartsAgree(l: Tree, live: Tree, source: Tree, mix: Tree, target: Tree, scope: set<Path>, plan: Plan,
                   pass: Pass, n: nat)
    requires WellFormed(live) && WellFormed(source) && WellFormed(target) && WellFormed(mix)
             && mix == Mixed(live, target, scope)
    requires AgreeOn(source, live, scope) && Between(l, live, mix)
    requires IsScopedPlan(plan, source, target, Some(scope)) && IsPlan(plan, live, mix)
    requires n <= if pass == Deletes then |plan.deletePaths| else |plan.writePaths|
    ensures PartOf(l, source, target, plan, pass, n) == PartOf(l, live, mix, plan, pass, n)
  {
    assert (forall p :: p in plan.deletePaths ==> p in scope)
           && (forall p :: p in plan.writePaths ==> p in scope && p in target);
    MixedFuses(live, target, scope);
    hide Mixed, Fuses, WellFormed, AgreeOn, Between, DeepestFirst, WriteOrder, RunDeletes, RunWrites;
    var all := plan.deletePaths;
    assert all[..|all|] == all;
    DeletesAgree(l, live, source, mix, target, scope, all, if pass == Deletes then n else |all|);
    if pass != Deletes && RunDeletes(l, live, mix, all).Ok? {
      var cleared, writes := RunDeletes(l, live, mix, all).value, plan.writePaths;
      hide ListsExactly, IsScopedPlan, DeleteSet, WriteSet;
      WritesAgreeUpTo(cleared, live, source, mix, target, scope, writes,
                      if pass == Directories then n else |writes|, true);
      assert writes[..|writes|] == writes;
      if pass == Leaves && RunWrites(cleared, live, mix, writes, true).Ok? {
        WritesAgreeUpTo(RunWrites(cleared, live, mix, writes, true).value, live, source, mix, target, scope, writes,
                        n, false);
      }
    }
  }

  /** A scoped restore of what fits, cut short after any step: nothing has failed, carrying on ends at the mixture, and
      the plan back, within the same scope, ends at the workspace as it was. */
  lemma InterruptedScopedRestoreSettles(live: Tree, source: Tree, target: Tree, scope: set<Path>, plan: Plan,
                                        back: Plan, pass: Pass, n: nat)
    requires WellFormed(live) && WellFormed(source) && WellFormed(target) && AgreeOn(source, live, scope)
    requires IsScopedPlan(plan, source, target, Some(scope)) && IsScopedPlan(back, target, source, Some(scope))
    requires WellFormed(Mixed(live, target, scope)) && n <= if pass == Deletes then |plan.deletePaths|
             else |plan.writePaths|
    ensures var r := PartOf(live, source, target, plan, pass, n);
            && r.Ok?
            && RunPlan(r.value, source, target, plan) == Ok(Mixed(live, target, scope))
            && RunPlan(r.value, target, source, back) == Ok(live)
  {
    var mix := Mixed(live, target, scope);
    ScopedPlanIsPlan(live, source, target, scope, plan);
    EndpointsAreBetween(live, mix);
    PartsAgree(live, live, source, mix, target, scope, plan, pass, n);
    PartStaysBetween(live, live, mix, plan, pass, n);
    var l := PartOf(live, source, target, plan, pass, n).value;
    BetweenIsSymmetric(l, live, mix);
    ThereAndBack(live, source, target, scope);
    hide Mixed, WellFormed, Between, IsScopedPlan, PartOf, RunPlan;
    ScopedPlanConverges(l, live, source, target, scope, plan);
    ScopedPlanConverges(l, mix, target, source, scope, back);
  }

  lemma ThereAndBack(live: Tree, source: Tree, target: Tree, scope: set<Path>)
    requires AgreeOn(source, live, scope)
    ensures var mix := Mixed(live, target, scope); AgreeOn(target, mix, scope) && Mixed(mix, source, scope) == live
  {
    var mix := Mixed(live, target, scope);
    MixedAgrees(live, target, scope);
    MixedAgrees(mix, source, scope);
    var again := Mixed(mix, source, scope);
    forall p
      ensures AgreeAt(again, live, p)
    {
      if p in scope {
        assert AgreeAt(again, source, p) && AgreeAt(source, live, p);
      } else {
        assert AgreeAt(again, mix, p) && AgreeAt(mix, live, p);
      }
    }
    SameTree(again, live);
    forall p | p in scope
      ensures AgreeAt(target, mix, p)
    {
      assert AgreeAt(mix, target, p);
    }
  }

  // ---- whatever the workspace holds ----

  /** A tree with no other path than `p` changed. */
  ghost predicate OnlyChanges(before: Tree, after: Tree, scope: set<Path>) {
    WellFormed(after) && forall p :: p !in scope ==> AgreeAt(after, before, p)
  }

  lemma DeleteStepOnlyChanges(l: Tree, source: Tree, target: Tree, p: Path)
    requires WellFormed(l)
    ensures DeleteStep(l, source, target, p).Ok? ==> OnlyChanges(l, DeleteStep(l, source, target, p).value, {p})
  {
    if p in l && (l[p] == Directory ==> !HasChild(l, p)) {
      RemoveKeepsWellFormed(l, {p});
    }
  }

  lemma WriteStepOnlyChanges(l: Tree, source: Tree, target: Tree, p: Path)
    requires WellFormed(l) && p in target
    ensures WriteStep(l, source, target, p).Ok? ==> OnlyChanges(l, WriteStep(l, source, target, p).value, {p})
  {
    if p != [] && ParentExists(l, p) && (p in l ==> l[p] != Directory) {
      InsertKeepsWellFormed(l, p, target[p]);
    }
  }

  lemma OnlyChangesChains(a: Tree, b: Tree, c: Tree, p: Path, scope: set<Path>)
    requires OnlyChanges(a, b, scope) && OnlyChanges(b, c, {p}) && p in scope
    ensures OnlyChanges(a, c, scope)
  {
    hide WellFormed;
    forall q | q !in scope
      ensures AgreeAt(c, a, q)
    {
      assert AgreeAt(b, a, q) && AgreeAt(c, b, q);
    }
  }

  lemma {:induction false} DeletesOnlyChange(l: Tree, source: Tree, target: Tree, scope: set<Path>, paths: seq<Path>)
    requires WellFormed(l) && forall p :: p in paths ==> p in scope
    ensures RunDeletes(l, source, target, paths).Ok? ==>
            OnlyChanges(l, RunDeletes(l, source, target, paths).value, scope)
  {
    hide DeleteStep;
    if paths != [] {
      var earlier, p := paths[..|paths| - 1], paths[|paths| - 1];
      assert p in paths && forall q :: q in earlier ==> q in paths;
      DeletesOnlyChange(l, source, target, scope, earlier);
      var before := RunDeletes(l, source, target, earlier);
      if before.Ok? && DeleteStep(before.value, source, target, p).Ok? {
        DeleteStepOnlyChanges(before.value, source, target, p);
        OnlyChangesChains(l, before.value, DeleteStep(before.value, source, target, p).value, p, scope);
      }
    }
  }

  lemma {:induction false} WritesOnlyChange(l: Tree, source: Tree, target: Tree, scope: set<Path>, paths: seq<Path>,
                                            directories: bool)
    requires WellFormed(l) && forall p :: p in paths ==> p in scope
    ensures var r := RunWrites(l, source, target, paths, directories); r.Ok? ==> OnlyChanges(l, r.value, scope)
  {
    hide WriteStep;
    if paths != [] {
      var earlier, p := paths[..|paths| - 1], paths[|paths| - 1];
      assert p in paths && forall q :: q in earlier ==> q in paths;
      WritesOnlyChange(l, source, target, scope, earlier, directories);
      var before := RunWrites(l, source, target, earlier, directories);
      if before.Ok? && p in target && WriteStep(before.value, source, target, p).Ok? {
        WriteStepOnlyChanges(before.value, source, target, p);
        OnlyChangesChains(l, before.value, WriteStep(before.value, source, target, p).value, p, scope);
      }
    }
  }

  lemma OnlyChangesComposes(a: Tree, b: Tree, c: Tree, scope: set<Path>)
    requires OnlyChanges(a, b, scope) && OnlyChanges(b, c, scope)
    ensures OnlyChanges(a, c, scope)
  {
    hide WellFormed;
    forall q | q !in scope
      ensures AgreeAt(c, a, q)
    {
      assert AgreeAt(b, a, q) && AgreeAt(c, b, q);
    }
  }

  /** A restore that goes through leaves everything outside its scope alone, whatever the workspace holds by then. */
  lemma RunOnlyChangesTheScope(live: Tree, source: Tree, target: Tree, scope: set<Path>, plan: Plan)
    requires WellFormed(live) && IsScopedPlan(plan, source, target, Some(scope))
    ensures var r := RunPlan(live, source, target, plan); r.Ok? ==> OnlyChanges(live, r.value, scope)
  {
    assert (forall p :: p in plan.deletePaths ==> p in scope) && (forall p :: p in plan.writePaths ==> p in scope);
    hide OnlyChanges, IsScopedPlan, RunDeletes, RunWrites;
    DeletesOnlyChange(live, source, target, scope, plan.deletePaths);
    var cleared := RunDeletes(live, source, target, plan.deletePaths);
    if cleared.Ok? {
      StaysWellFormed(live, cleared.value, scope);
      WritesOnlyChange(cleared.value, source, target, scope, plan.writePaths, true);
      var skeleton := RunWrites(cleared.value, source, target, plan.writePaths, true);
      if skeleton.Ok? {
        StaysWellFormed(cleared.value, skeleton.value, scope);
        OnlyChangesComposes(live, cleared.value, skeleton.value, scope);
        WritesOnlyChange(skeleton.value, source, target, scope, plan.writePaths, false);
        var done := RunWrites(skeleton.value, source, target, plan.writePaths, false);
        if done.Ok? { OnlyChangesComposes(live, skeleton.value, done.value, scope); }
      }
    }
  }

  lemma StaysWellFormed(before: Tree, after: Tree, scope: set<Path>)
    requires OnlyChanges(before, after, scope)
    ensures WellFormed(after)
  {
  }

  /** The restore of some paths into a workspace that may have changed anywhere else. It ends with the target's entries
      in scope and the workspace's own elsewhere if and only if those fit together in one tree. */
  lemma ScopedRestoreSucceedsIffItFits(live: Tree, source: Tree, target: Tree, scope: set<Path>, plan: Plan)
    requires WellFormed(live) && WellFormed(source) && WellFormed(target) && AgreeOn(source, live, scope)
    requires IsScopedPlan(plan, source, target, Some(scope))
    ensures RunPlan(live, source, target, plan) == Ok(Mixed(live, target, scope)) <==>
            WellFormed(Mixed(live, target, scope))
  {
    var mix := Mixed(live, target, scope);
    RunOnlyChangesTheScope(live, source, target, scope, plan);
    if WellFormed(mix) {
      EndpointsAreBetween(live, mix);
      hide Mixed, WellFormed, RunPlan;
      ScopedPlanConverges(live, live, source, target, scope, plan);
    }
  }

  /** Restored to what it held before in scope, the workspace is exactly as it was, whatever a restore in between made
      of the scope. */
  lemma SafetyBringsBack(live: Tree, there: Tree, safety: Tree, source: Tree, scope: set<Path>, plan: Plan)
    requires WellFormed(live) && OnlyChanges(live, there, scope) && WellFormed(safety) && AgreeOn(safety, live, scope)
    requires WellFormed(source) && AgreeOn(source, there, scope) && IsScopedPlan(plan, source, safety, Some(scope))
    ensures RunPlan(there, source, safety, plan) == Ok(live)
  {
    MixedAgrees(there, safety, scope);
    var mix := Mixed(there, safety, scope);
    forall p
      ensures AgreeAt(mix, live, p)
    {
      if p in scope {
        assert AgreeAt(mix, safety, p) && AgreeAt(safety, live, p);
      } else {
        assert AgreeAt(mix, there, p) && AgreeAt(there, live, p);
      }
    }
    hide Mixed;
    assert mix == live by { SameTree(mix, live); }
    StaysWellFormed(live, there, scope);
    ScopedRestoreSucceedsIffItFits(there, source, safety, scope, plan);
  }

  lemma SameTree(a: Tree, b: Tree)
    requires forall p :: AgreeAt(a, b, p)
    ensures a == b
  {
    forall p
      ensures (p in a <==> p in b) && (p in a ==> a[p] == b[p])
    {
      assert AgreeAt(a, b, p);
    }
  }

  /** Between two trees a scoped plan reaches the target if and only if the scope holds every path at which they
      differ. */
  lemma ScopeReachesTheTargetIffItCoversTheDifference(current: Tree, target: Tree, scope: set<Path>, plan: Plan)
    requires WellFormed(current) && WellFormed(target) && IsScopedPlan(plan, current, target, Some(scope))
    ensures RunPlan(current, current, target, plan) == Ok(target) <==> Differing(current, target) <= scope
  {
    if Differing(current, target) <= scope {
      ScopeSufficesIffItCoversTheDifference(current, target, scope, plan);
      PlanTurnsCurrentIntoTarget(current, target, plan);
    }
    RunOnlyChangesTheScope(current, current, target, scope, plan);
    if OnlyChanges(current, target, scope) {
      forall p | p in Differing(current, target)
        ensures p in scope
      {
        assert p !in scope ==> AgreeAt(target, current, p);
      }
    }
  }

  /** The undo of a checkpoint, in whatever workspace: `changed` are the paths its forward plan recorded, and the
      current manifest is a capture limited to them. It puts the old entries back at those paths and leaves the rest
      alone, if and only if the two fit together; in the workspace the checkpoint left they always do, and it is the old
      tree. */
  lemma ChangedPathsScopeTheirOwnUndo(before: Tree, after: Tree, forward: Plan, live: Tree, undo: Plan)
    requires WellFormed(before) && WellFormed(after) && WellFormed(live) && IsPlan(forward, before, after)
    requires var changed := set p | p in forward.deletePaths + forward.writePaths;
             IsScopedPlan(undo, Captured(live, changed), before, Some(changed))
    ensures var changed := set p | p in forward.deletePaths + forward.writePaths;
            && (RunPlan(live, Captured(live, changed), before, undo) == Ok(Mixed(live, before, changed)) <==>
                WellFormed(Mixed(live, before, changed)))
            && (live == after ==> Mixed(live, before, changed) == before)
  {
    var changed := set p | p in forward.deletePaths + forward.writePaths;
    CapturedFits(live, changed);
    ScopedRestoreSucceedsIffItFits(live, Captured(live, changed), before, changed, undo);
    if live == after {
      PlanPathsAreTheDifference(before, after, forward);
      MixedAgrees(after, before, changed);
      var mix := Mixed(after, before, changed);
      forall p
        ensures AgreeAt(mix, before, p)
      {
        if p !in changed {
          assert AgreeAt(mix, after, p) && p !in Differing(before, after);
        }
      }
      SameTree(mix, before);
    }
  }
}
