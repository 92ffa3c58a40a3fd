/** What a restore that goes through has done, whatever the workspace held. */
module RestoreOutcome {
  import opened Wrappers
  import opened Trees
  import opened RestorePlan
  import opened ScopedRestore

  // ---- on any workspace and any plan ----

  ghost predicate Holds(t: Tree, p: Path, e: Entry) {
    p in t && t[p] == e
  }

  /** Nothing but the listed paths has changed. */
  ghost predicate Elsewhere(before: Tree, after: Tree, paths: seq<Path>) {
    forall p :: p !in paths ==> AgreeAt(after, before, p)
  }

  lemma WriteStepWrites(live: Tree, source: Tree, target: Tree, p: Path)
    requires p in target && WriteStep(live, source, target, p).Ok?
    ensures var next := WriteStep(live, source, target, p).value;
            && Holds(next, p, target[p]) && next.Keys == live.Keys + {p}
            && forall q :: q != p ==> AgreeAt(next, live, q)
  {
  }

  /** A write pass that goes through holds the target's entries at all its paths, and has changed no others. */
  lemma {:induction false} WritesWrite(live: Tree, source: Tree, target: Tree, paths: seq<Path>, directories: bool)
    requires RunWrites(live, source, target, paths, directories).Ok?
    ensures var after := RunWrites(live, source, target, paths, directories).value;
            && live.Keys <= after.Keys
            && (forall p :: p in paths ==>
                p in target && ((target[p] == Directory) == directories ==> Holds(after, p, target[p])))
            && forall p :: !(p in paths && (target[p] == Directory) == directories) ==> AgreeAt(after, live, p)
  {
    if paths != [] {
      var earlier, p := paths[..|paths| - 1], paths[|paths| - 1];
      WritesWrite(live, source, target, earlier, directories);
      var before := RunWrites(live, source, target, earlier, directories).value;
      assert forall q :: q in paths <==> q in earlier || q == p;
      if (target[p] == Directory) == directories {
        WriteStepWrites(before, source, target, p);
        hide WriteStep;
      }
    }
  }

  /** A planned delete has taken its path away, or left a directory that still has something in it. */
  ghost predicate Gone(t: Tree, p: Path) {
    p !in t || (t[p] == Directory && HasChild(t, p))
  }

  lemma DeleteStepDeletes(live: Tree, source: Tree, target: Tree, p: Path)
    requires WellFormed(live) && WellFormed(target) && DeleteStep(live, source, target, p).Ok?
    ensures var next := DeleteStep(live, source, target, p).value;
            next == if p in live && Gone(live, p) then live else live - {p}
    ensures Gone(DeleteStep(live, source, target, p).value, p) && WellFormed(DeleteStep(live, source, target, p).value)
  {
    if Shadowed(live, p, target) { ShadowedPathsAreAbsent(live, p, target); }
    if p !in live { assert live - {p} == live; }
    if p in live && !Gone(live, p) { RemoveKeepsWellFormed(live, {p}); }
  }

  /** Taking a shallower path away takes no child of a path that is deeper, or as deep. */
  lemma GoneStays(t: Tree, p: Path, q: Path)
    requires Gone(t, q) && |q| >= |p|
    ensures Gone(t - {p}, q)
  {
    if q in t - {p} {
      var c :| c in t && q < c;
      assert c in t - {p};
    }
  }

  lemma {:induction false} DeletesDelete(live: Tree, source: Tree, target: Tree, paths: seq<Path>)
    requires WellFormed(live) && WellFormed(target) && DeepestFirst(paths)
    requires RunDeletes(live, source, target, paths).Ok?
    ensures var after := RunDeletes(live, source, target, paths).value;
            && WellFormed(after) && Elsewhere(live, after, paths)
            && (forall p :: p in after ==> Holds(live, p, after[p]))
            && (forall i :: 0 <= i < |paths| ==> Gone(after, paths[i]))
  {
    hide WellFormed, DeleteStep, Gone;
    if paths != [] {
      var n := |paths| - 1;
      var earlier, p := paths[..n], paths[n];
      assert forall i :: 0 <= i < n ==> earlier[i] == paths[i];
      DeletesDelete(live, source, target, earlier);
      var before := RunDeletes(live, source, target, earlier).value;
      DeleteStepDeletes(before, source, target, p);
      forall i | 0 <= i < n
        ensures Gone(before - {p}, paths[i])
      {
        assert Gone(before, earlier[i]) && |paths[i]| >= |p|;
        GoneStays(before, p, paths[i]);
      }
      assert forall q :: q !in paths ==> q !in earlier && q != p;
    }
  }

  /** On any workspace: when a plan goes through, every planned write is there, every planned delete that the target
      does not list is gone but for directories that still have something in them, and no other path has changed. */
  lemma DoneMeansDone(live: Tree, source: Tree, target: Tree, plan: Plan)
    requires WellFormed(live) && WellFormed(target) && DeepestFirst(plan.deletePaths)
    requires RunPlan(live, source, target, plan).Ok?
    ensures var after := RunPlan(live, source, target, plan).value;
            && (forall p :: p in plan.writePaths ==> p in target && Holds(after, p, target[p]))
            && (forall p :: p in plan.deletePaths && p !in plan.writePaths ==> Gone(after, p))
            && Elsewhere(live, after, plan.deletePaths + plan.writePaths)
            && forall p :: p in after && p !in plan.writePaths ==> Holds(live, p, after[p])
  {
    var cleared := RunDeletes(live, source, target, plan.deletePaths).value;
    DeletesDelete(live, source, target, plan.deletePaths);
    var skeleton := RunWrites(cleared, source, target, plan.writePaths, true).value;
    WritesWrite(cleared, source, target, plan.writePaths, true);
    var after := RunWrites(skeleton, source, target, plan.writePaths, false).value;
    WritesWrite(skeleton, source, target, plan.writePaths, false);
    hide RunDeletes, RunWrites, WellFormed;
    forall p | p in plan.deletePaths && p !in plan.writePaths
      ensures Gone(after, p)
    {
      var i :| 0 <= i < |plan.deletePaths| && plan.deletePaths[i] == p;
      assert Gone(cleared, p) && AgreeAt(skeleton, cleared, p) && AgreeAt(after, skeleton, p);
      if p in cleared {
        var c :| c in cleared && p < c;
        assert c in after;
      }
    }
    forall p | p !in plan.deletePaths + plan.writePaths
      ensures AgreeAt(after, live, p)
    {
      assert AgreeAt(cleared, live, p) && AgreeAt(skeleton, cleared, p) && AgreeAt(after, skeleton, p);
    }
    forall p | p in after && p !in plan.writePaths
      ensures Holds(live, p, after[p])
    {
      assert AgreeAt(after, skeleton, p) && AgreeAt(skeleton, cleared, p);
    }
    forall p | p in plan.writePaths
      ensures Holds(after, p, target[p])
    {
      if target[p] == Directory { assert AgreeAt(after, skeleton, p); }
    }
  }

  // ---- on any workspace that the source manifest shows within the scope ----

  /** Directories the target does not list and that are not empty without them. */
  ghost function Staying(live: Tree, target: Tree, scope: set<Path>): set<Path> {
    var mix := Mixed(live, target, scope);
    set p | p in live && p in scope && p !in target && live[p] == Directory && HasChild(mix, p)
  }

  /** Where a scoped restore ends. */
  ghost function Achieved(live: Tree, target: Tree, scope: set<Path>): Tree {
    Mixed(live, target, scope) + map p | p in Staying(live, target, scope) :: Directory
  }

  lemma AchievedFuses(live: Tree, target: Tree, scope: set<Path>)
    ensures Fuses(Achieved(live, target, scope), live, target, scope)
  {
    MixedAgrees(live, target, scope);
    var mix, all := Mixed(live, target, scope), Achieved(live, target, scope);
    hide Mixed;
    forall p
      ensures p !in Staying(live, target, scope) ==> AgreeAt(all, mix, p)
      ensures p in Staying(live, target, scope) ==> Holds(all, p, Directory)
    {
    }
    forall p | p !in scope
      ensures AgreeAt(all, live, p)
    {
      assert AgreeAt(mix, live, p);
    }
    forall p | p in scope
      ensures AgreeAt(all, target, p) || p in Staying(live, target, scope)
    {
      assert AgreeAt(mix, target, p);
    }
  }

  /** Below a directory that stays there is something outside the scope. */
  lemma StaysForAnother(live: Tree, target: Tree, scope: set<Path>, p: Path) returns (c: Path)
    requires WellFormed(live) && WellFormed(target) && p in Staying(live, target, scope)
    ensures c in live && c !in scope && p < c
  {
    var mix := Mixed(live, target, scope);
    MixedAgrees(live, target, scope);
    hide Mixed;
    c :| c in mix && p < c;
    assert c[..|p|] == p && c !in target;
    assert c in scope ==> AgreeAt(mix, target, c);
    assert c !in scope ==> AgreeAt(mix, live, c);
  }

  lemma WhatStaysIsKept(l: Tree, live: Tree, source: Tree, target: Tree, scope: set<Path>, p: Path)
    requires WellFormed(live) && WellFormed(target) && AgreeOn(source, live, scope)
    requires Between(l, live, Achieved(live, target, scope)) && p in Staying(live, target, scope)
    ensures DeleteStep(l, source, target, p) == Ok(l)
  {
    var c := StaysForAnother(live, target, scope, p);
    var all := Achieved(live, target, scope);
    AchievedFuses(live, target, scope);
    assert AgreeAt(all, live, c) && AgreeAt(source, live, p);
    assert Holds(all, p, Directory);
    hide Mixed, Achieved, Fuses;
    assert c in l && p in l && l[p] == Directory && HasChild(l, p);
  }

  /** One planned delete, of a directory that stays or of a path that the lean plan deletes next. */
  lemma DeleteAgrees(next: Tree, live: Tree, source: Tree, target: Tree, scope: set<Path>, p: Path)
    requires WellFormed(live) && WellFormed(source) && WellFormed(target) && WellFormed(Achieved(live, target, scope))
    requires AgreeOn(source, live, scope) && p in scope && Between(next, live, Achieved(live, target, scope))
    requires p !in Staying(live, target, scope) ==> PlansDelete(live, Achieved(live, target, scope), p)
    ensures DeleteStep(next, source, target, p) ==
            if p in Staying(live, target, scope) then Ok(next)
            else DeleteStep(next, live, Achieved(live, target, scope), p)
  {
    AchievedFuses(live, target, scope);
    hide Staying, Achieved, Fuses, DeleteStep, AgreeOn, Between, WellFormed;
    if p in Staying(live, target, scope) {
      WhatStaysIsKept(next, live, source, target, scope, p);
    } else {
      DeleteStepAgrees(next, live, source, Achieved(live, target, scope), target, scope, p);
    }
  }

  /** The deletes of the plan do what those of the plan without the staying directories do. */
  lemma {:induction false} DeletesLeaveWhatStays(live: Tree, source: Tree, target: Tree, scope: set<Path>,
                                                 paths: seq<Path>, i: nat)
    requires WellFormed(live) && WellFormed(source) && WellFormed(target) && WellFormed(Achieved(live, target, scope))
    requires AgreeOn(source, live, scope) && (forall p :: p in paths ==> p in scope) && i <= |paths|
    requires var staying, all := Staying(live, target, scope), Achieved(live, target, scope);
             && ListsExactly(Kept(paths, staying), DeleteSet(live, all)) && DeepestFirst(Kept(paths, staying))
    ensures RunDeletes(live, source, target, paths[..i]) ==
            RunDeletes(live, live, Achieved(live, target, scope), Kept(paths[..i], Staying(live, target, scope)))
  {
    hide Staying, Achieved, DeleteStep, PlansDelete, AgreeOn, Between, WellFormed, ListsExactly, DeepestFirst,
      DeleteSet, RunDeletes, Kept;
    if i == 0 {
      NoDeletes(live, source, target, Achieved(live, target, scope), Staying(live, target, scope), paths);
    } else {
      var staying, all := Staying(live, target, scope), Achieved(live, target, scope);
      DeletesLeaveWhatStays(live, source, target, scope, paths, i - 1);
      var next := LeanDeletes(live, all, paths, staying, i - 1);
      assert paths[i - 1] in paths;
      DeleteAgrees(next, live, source, target, scope, paths[i - 1]);
      OneMoreDeleted(live, source, target, paths, i - 1);
    }
  }

  lemma {:induction false} NoDeletes(live: Tree, source: Tree, target: Tree, all: Tree, staying: set<Path>, paths: seq<Path>)
    ensures RunDeletes(live, source, target, paths[..0]) == RunDeletes(live, live, all, Kept(paths[..0], staying))
  {
  }

  lemma {:induction false} OneMoreDeleted(live: Tree, source: Tree, target: Tree, paths: seq<Path>, i: nat)
    requires i < |paths| && RunDeletes(live, source, target, paths[..i]).Ok?
    ensures RunDeletes(live, source, target, paths[..i + 1]) ==
            DeleteStep(RunDeletes(live, source, target, paths[..i]).value, source, target, paths[i])
  {
    hide DeleteStep;
    assert paths[..i + 1][..i] == paths[..i];
  }

  /** How far the deletes have come that leave the staying directories out, and what the next path adds to them. */
  lemma LeanDeletes(live: Tree, all: Tree, paths: seq<Path>, staying: set<Path>, i: nat) returns (next: Tree)
    requires WellFormed(live) && WellFormed(all) && i < |paths|
    requires ListsExactly(Kept(paths, staying), DeleteSet(live, all)) && DeepestFirst(Kept(paths, staying))
    ensures RunDeletes(live, live, all, Kept(paths[..i], staying)) == Ok(next) && Between(next, live, all)
    ensures RunDeletes(live, live, all, Kept(paths[..i + 1], staying)) ==
            if paths[i] in staying then Ok(next) else DeleteStep(next, live, all, paths[i])
    ensures paths[i] !in staying ==> PlansDelete(live, all, paths[i])
  {
    hide DeleteStep, PlansDelete, Between, WellFormed, ListsExactly, DeepestFirst, DeleteSet, RunDeletes, Kept;
    EndpointsAreBetween(live, all);
    KeptOneMore(paths, staying, i);
    var kept, j := Kept(paths, staying), |Kept(paths[..i], staying)|;
    DeletesSettle(live, live, all, kept, j);
    next := RunDeletes(live, live, all, kept[..j]).value;
    if paths[i] !in staying {
      OneMoreDeleted(live, live, all, kept, j);
      KeptIsPlanned(kept, j, live, all);
    }
  }

  lemma KeptIsPlanned(paths: seq<Path>, j: nat, source: Tree, target: Tree)
    requires j < |paths| && ListsExactly(paths, DeleteSet(source, target))
    ensures PlansDelete(source, target, paths[j])
  {
    assert paths[j] in paths;
  }

  /** Without the staying directories the scoped plan is the plan from the workspace to where it ends. */
  lemma PlanWithoutWhatStays(live: Tree, source: Tree, target: Tree, scope: set<Path>, plan: Plan)
    requires AgreeOn(source, live, scope) && IsScopedPlan(plan, source, target, Some(scope))
    ensures var staying := Staying(live, target, scope);
            IsPlan(Plan(Kept(plan.deletePaths, staying), plan.writePaths), live, Achieved(live, target, scope))
  {
    var staying, all := Staying(live, target, scope), Achieved(live, target, scope);
    AchievedFuses(live, target, scope);
    forall p
      ensures p in DeleteSet(live, all) <==> p in Within(DeleteSet(source, target), Some(scope)) - staying
      ensures p in WriteSet(live, all) <==> p in Within(WriteSet(source, target), Some(scope))
    {
      if p !in scope {
        assert AgreeAt(all, live, p);
      } else {
        assert AgreeAt(source, live, p);
        if p in staying {
          assert Holds(all, p, Directory);
        } else {
          assert AgreeAt(all, target, p) by { assert p in scope; NotStaying(live, target, scope, p); }
        }
      }
    }
    hide Achieved, Staying, Fuses, AgreeOn;
    KeptListsTheRest(plan.deletePaths, staying, Within(DeleteSet(source, target), Some(scope)));
    KeptKeepsDeepestFirst(plan.deletePaths, staying);
    assert DeleteSet(live, all) == Within(DeleteSet(source, target), Some(scope)) - staying;
    assert WriteSet(live, all) == Within(WriteSet(source, target), Some(scope));
    WriteOrderAgrees(plan.writePaths, live, all, source, target, scope);
  }

  lemma NotStaying(live: Tree, target: Tree, scope: set<Path>, p: Path)
    requires p in scope && p !in Staying(live, target, scope)
    ensures AgreeAt(Achieved(live, target, scope), target, p)
  {
    MixedAgrees(live, target, scope);
    assert AgreeAt(Mixed(live, target, scope), target, p);
    hide Mixed;
  }

  lemma WriteOrderAgrees(paths: seq<Path>, live: Tree, all: Tree, source: Tree, target: Tree, scope: set<Path>)
    requires Fuses(all, live, target, scope) && WriteOrder(paths, target)
    requires ListsExactly(paths, Within(WriteSet(source, target), Some(scope)))
    ensures WriteOrder(paths, all)
  {
    forall p | p in paths
      ensures p in all && p in target && all[p] == target[p]
    {
      assert p in scope && p in target;
      assert AgreeAt(all, target, p);
    }
    assert forall i :: 0 <= i < |paths| ==> paths[i] in paths;
  }

  lemma {:induction false} DeletesGetThere(live: Tree, source: Tree, target: Tree, scope: set<Path>, plan: Plan)
    requires WellFormed(live) && WellFormed(source) && WellFormed(target) && AgreeOn(source, live, scope)
    requires IsScopedPlan(plan, source, target, Some(scope)) && WellFormed(Achieved(live, target, scope))
    ensures RunDeletes(live, source, target, plan.deletePaths) ==
            RunDeletes(live, live, Achieved(live, target, scope), Kept(plan.deletePaths, Staying(live, target, scope)))
  {
    var staying, all := Staying(live, target, scope), Achieved(live, target, scope);
    PlanWithoutWhatStays(live, source, target, scope, plan);
    assert Within(DeleteSet(live, all), None) == DeleteSet(live, all);
    assert forall p :: p in plan.deletePaths ==> p in scope;
    hide Achieved, Staying, WellFormed, AgreeOn, DeepestFirst, WriteOrder, ListsExactly, DeleteSet, RunDeletes;
    DeletesLeaveWhatStays(live, source, target, scope, plan.deletePaths, |plan.deletePaths|);
    assert plan.deletePaths[..|plan.deletePaths|] == plan.deletePaths;
  }

  /** If where it ends is a tree, the restore goes through and ends there. */
  lemma RestoreGetsThere(live: Tree, source: Tree, target: Tree, scope: set<Path>, plan: Plan)
    requires WellFormed(live) && WellFormed(source) && WellFormed(target) && AgreeOn(source, live, scope)
    requires IsScopedPlan(plan, source, target, Some(scope)) && WellFormed(Achieved(live, target, scope))
    ensures RunPlan(live, source, target, plan) == Ok(Achieved(live, target, scope))
  {
    var all := Achieved(live, target, scope);
    var lean := Plan(Kept(plan.deletePaths, Staying(live, target, scope)), plan.writePaths);
    PlanWithoutWhatStays(live, source, target, scope, plan);
    EndpointsAreBetween(live, all);
    PlanConverges(live, live, all, lean);
    AchievedFuses(live, target, scope);
    DeletesGetThere(live, source, target, scope, plan);
    assert forall p :: p in plan.writePaths ==> p in scope && p in target;
    hide Achieved, Staying, Kept, Fuses, WellFormed, AgreeOn, IsScopedPlan, RunDeletes, RunWrites;
    var cleared := RunDeletes(live, live, all, lean.deletePaths);
    WritesAgree(cleared.value, live, source, all, target, scope, plan.writePaths, true);
    var skeleton := RunWrites(cleared.value, live, all, plan.writePaths, true);
    WritesAgree(skeleton.value, live, source, all, target, scope, plan.writePaths, false);
  }

  ghost function Below(t: Tree, p: Path): set<Path> {
    set q | q in t && p < q
  }

  lemma LessBelow(t: Tree, p: Path, c: Path)
    requires c in t && p < c
    ensures Below(t, c) < Below(t, p)
  {
    forall q | q in Below(t, c)
      ensures q in Below(t, p)
    {
      assert q[..|p|] == c[..|p|] == p;
    }
    assert c in Below(t, p) && c !in Below(t, c);
  }

  /** What a restore has left and the mixture does not hold was to be deleted. */
  lemma LeftWasPlanned(after: Tree, live: Tree, source: Tree, target: Tree, scope: set<Path>, plan: Plan, c: Path)
    requires IsScopedPlan(plan, source, target, Some(scope)) && AgreeOn(source, live, scope)
    requires Elsewhere(live, after, plan.deletePaths + plan.writePaths)
    requires c in after && c !in Mixed(live, target, scope)
    ensures c in plan.deletePaths && c !in target
  {
    MixedAgrees(live, target, scope);
    var mix := Mixed(live, target, scope);
    hide Mixed;
    assert c in scope ==> AgreeAt(mix, target, c) && AgreeAt(source, live, c);
    assert c !in scope ==> AgreeAt(mix, live, c);
    assert c !in plan.deletePaths + plan.writePaths ==> AgreeAt(after, live, c);
    assert c in live && c in scope ==> PlansDelete(source, target, c);
  }

  /** A directory that a restore has left has, at some depth, something in it that the restore was to leave. */
  lemma {:induction false} LeftForAReason(after: Tree, live: Tree, source: Tree, target: Tree, scope: set<Path>,
                                          plan: Plan, p: Path)
    requires IsScopedPlan(plan, source, target, Some(scope)) && AgreeOn(source, live, scope)
    requires Elsewhere(live, after, plan.deletePaths + plan.writePaths)
    requires forall q :: q in plan.deletePaths && q !in target ==> Gone(after, q)
    requires HasChild(after, p)
    ensures HasChild(Mixed(live, target, scope), p)
    decreases Below(after, p)
  {
    var mix := Mixed(live, target, scope);
    hide Mixed;
    var c :| c in after && p < c;
    if c !in mix {
      LeftWasPlanned(after, live, source, target, scope, plan, c);
      assert Gone(after, c);
      LessBelow(after, p, c);
      LeftForAReason(after, live, source, target, scope, plan, c);
      var d :| d in mix && c < d;
      assert p < d;
    }
  }

  /** If a restore goes through, it has ended there. */
  lemma RestoreEndsThere(live: Tree, source: Tree, target: Tree, scope: set<Path>, plan: Plan)
    requires WellFormed(live) && WellFormed(source) && WellFormed(target) && AgreeOn(source, live, scope)
    requires IsScopedPlan(plan, source, target, Some(scope)) && RunPlan(live, source, target, plan).Ok?
    ensures RunPlan(live, source, target, plan).value == Achieved(live, target, scope)
    ensures WellFormed(RunPlan(live, source, target, plan).value)
  {
    var after, all := RunPlan(live, source, target, plan).value, Achieved(live, target, scope);
    RunOnlyChangesTheScope(live, source, target, scope, plan);
    DoneMeansDone(live, source, target, plan);
    AchievedFuses(live, target, scope);
    hide RunPlan;
    forall p
      ensures AgreeAt(after, all, p)
    {
      if p !in scope {
        assert AgreeAt(after, live, p) && AgreeAt(all, live, p);
      } else if p in target {
        assert AgreeAt(all, target, p) && AgreeAt(source, live, p);
        if p !in plan.writePaths {
          assert p in source && source[p] == target[p] && !PlansDelete(source, target, p);
          assert p !in plan.deletePaths + plan.writePaths && AgreeAt(after, live, p);
        }
      } else {
        UnlistedPath(after, live, source, target, scope, plan, p);
      }
    }
    SameTree(after, all);
  }

  lemma UnlistedPath(after: Tree, live: Tree, source: Tree, target: Tree, scope: set<Path>, plan: Plan, p: Path)
    requires WellFormed(live) && WellFormed(after) && WellFormed(target) && AgreeOn(source, live, scope)
    requires p in scope && p !in target && (p in after ==> Holds(live, p, after[p]))
    requires IsScopedPlan(plan, source, target, Some(scope))
             && Elsewhere(live, after, plan.deletePaths + plan.writePaths)
    requires forall q :: q in plan.deletePaths && q !in target ==> Gone(after, q)
    requires forall q :: q !in scope ==> AgreeAt(after, live, q)
    ensures AgreeAt(after, Achieved(live, target, scope), p)
  {
    assert AgreeAt(source, live, p) && p !in plan.writePaths;
    if p in live {
      assert PlansDelete(source, target, p) && Gone(after, p);
    } else {
      assert AgreeAt(after, live, p);
    }
    if p in Staying(live, target, scope) {
      var c := StaysForAnother(live, target, scope, p);
      assert AgreeAt(after, live, c) && c[..|p|] == p;
      assert Holds(after, p, Directory);
    } else {
      NotStaying(live, target, scope, p);
      if p in after {
        LeftForAReason(after, live, source, target, scope, plan, p);
      }
    }
  }

  /** On any workspace that the source manifest shows within the scope: a restore goes through if and only if the
      target's entries in scope, what the workspace holds elsewhere, and the directories that are not empty without
      them make up one tree; and that tree is where it ends. */
  lemma GoesThroughIffATree(live: Tree, source: Tree, target: Tree, scope: set<Path>, plan: Plan)
    requires WellFormed(live) && WellFormed(source) && WellFormed(target) && AgreeOn(source, live, scope)
    requires IsScopedPlan(plan, source, target, Some(scope))
    ensures RunPlan(live, source, target, plan).Ok? <==> WellFormed(Achieved(live, target, scope))
    ensures RunPlan(live, source, target, plan).Ok? ==>
            RunPlan(live, source, target, plan).value == Achieved(live, target, scope)
  {
    if RunPlan(live, source, target, plan).Ok? {
      RestoreEndsThere(live, source, target, scope, plan);
    }
    if WellFormed(Achieved(live, target, scope)) {
      hide WellFormed, Achieved, RunPlan;
      RestoreGetsThere(live, source, target, scope, plan);
    }
  }
}
