/** What `RestoreEngine.plan` computes from two manifests, and the meaning of each planned step. */
module RestorePlan {
  import opened Wrappers
  import opened Trees

  datatype Plan = Plan(deletePaths: seq<Path>, writePaths: seq<Path>)

  // ---- the diff ----

  predicate PlansDelete(current: Tree, target: Tree, p: Path) {
    p in current &&
    (p in target ==> current[p] != target[p] && (!SameKind(current[p], target[p]) || target[p].Symlink?))
  }

  predicate PlansWrite(current: Tree, target: Tree, p: Path) {
    p in target && (p in current ==> current[p] != target[p])
  }

  /** The paths at which two trees disagree. */
  function Differing(a: Tree, b: Tree): set<Path> {
    set p | p in a.Keys + b.Keys && (p in a && p in b ==> a[p] != b[p])
  }

  ghost predicate ListsExactly(paths: seq<Path>, s: set<Path>) {
    && (forall i, j :: 0 <= i < j < |paths| ==> paths[i] != paths[j])
    && (forall p :: p in paths <==> p in s)
  }

  ghost predicate DeepestFirst(paths: seq<Path>) {
    forall i, j :: 0 <= i < j < |paths| ==> |paths[i]| >= |paths[j]|
  }

  /** Directories come first and before anything inside them; leaves may come in any order. */
  ghost predicate WriteOrder(paths: seq<Path>, target: Tree) {
    forall i, j :: 0 <= i < j < |paths| && paths[i] in target && paths[j] in target && target[paths[j]] == Directory ==>
      target[paths[i]] == Directory && |paths[i]| <= |paths[j]|
  }

  ghost function DeleteSet(current: Tree, target: Tree): set<Path> {
    set p | p in current && PlansDelete(current, target, p)
  }

  ghost function WriteSet(current: Tree, target: Tree): set<Path> {
    set p | p in target && PlansWrite(current, target, p)
  }

  ghost function Within(s: set<Path>, scope: Option<set<Path>>): set<Path> {
    if scope.None? then s else s * scope.value
  }

  /** The plan of two trees, restricted to the paths of `scope` if there is one. */
  ghost predicate IsScopedPlan(plan: Plan, current: Tree, target: Tree, scope: Option<set<Path>>) {
    && ListsExactly(plan.deletePaths, Within(DeleteSet(current, target), scope))
    && ListsExactly(plan.writePaths, Within(WriteSet(current, target), scope))
    && DeepestFirst(plan.deletePaths)
    && WriteOrder(plan.writePaths, target)
  }

  ghost predicate IsPlan(plan: Plan, current: Tree, target: Tree) {
    IsScopedPlan(plan, current, target, None)
  }

  // ---- the meaning of one step, with every check the engine makes ----

  datatype Lookup = Missing | Found(entry: Entry) | BeyondSymlink

  predicate UnderSymlink(live: Tree, p: Path) {
    exists k :: 0 < k < |p| && p[..k] in live && live[p[..k]].Symlink?
  }

  function Lstat(live: Tree, p: Path): Lookup {
    if p in live then Found(live[p])
    else if UnderSymlink(live, p) then BeyondSymlink
    else Missing
  }

  predicate Matches(live: Tree, p: Path, known: Tree) {
    p in known && p in live && live[p] == known[p]
  }

  /** The nearest of the first `k` ancestors that `other` holds as a leaf is present with that very content. */
  predicate ShadowedFrom(live: Tree, p: Path, other: Tree, k: nat)
    requires k <= |p|
    decreases k
  {
    if k == 0 then false
    else if p[..k] in other && other[p[..k]] != Directory then Matches(live, p[..k], other)
    else ShadowedFrom(live, p, other, k - 1)
  }

  predicate Shadowed(live: Tree, p: Path, other: Tree) {
    p != [] && ShadowedFrom(live, p, other, |p| - 1)
  }

  datatype MutationKind = DeleteMutation | WriteMutation

  /** `assertMutationState`: the path must still hold one of the two known entries, or be absent where absence is
      known. */
  predicate KnownState(live: Tree, source: Tree, target: Tree, kind: MutationKind, p: Path) {
    || (kind == DeleteMutation && (Shadowed(live, p, target) || Shadowed(live, p, source)))
    || Matches(live, p, source)
    || Matches(live, p, target)
    || (Lstat(live, p) == Missing && (kind == DeleteMutation || p !in source || PlansDelete(source, target, p)))
  }

  /** `expectedMutationFingerprint`: the leaf the quarantine will insist on finding. */
  predicate KnownLeaf(live: Tree, source: Tree, target: Tree, p: Path) {
    || (Matches(live, p, source) && source[p] != Directory)
    || (Matches(live, p, target) && target[p] != Directory)
    || Lstat(live, p) == Missing
  }

  function DeleteStep(live: Tree, source: Tree, target: Tree, p: Path): Result<Tree> {
    if Shadowed(live, p, target) then Ok(live)
    else match Lstat(live, p)
      case BeyondSymlink => Failed
      case Missing => Ok(live)
      case Found(e) =>
        if !KnownState(live, source, target, DeleteMutation, p) then Failed
        else if e == Directory then Ok(if HasChild(live, p) then live else live - {p})
        else if KnownLeaf(live, source, target, p) then Ok(live - {p})
        else Failed
  }

  function WriteStep(live: Tree, source: Tree, target: Tree, p: Path): Result<Tree>
    requires p in target
  {
    if p == [] || Lstat(live, p) == BeyondSymlink || !ParentExists(live, p) then Failed
    else if target[p] == Directory && p in live then
      if live[p] == Directory then Ok(live) else Failed
    else if target[p].Symlink? && p in live then
      if live[p] == target[p] then Ok(live) else Failed
    else if !KnownState(live, source, target, WriteMutation, p) then Failed
    else if target[p] != Directory && !KnownLeaf(live, source, target, p) then Failed
    else Ok(live[p := target[p]])
  }

  function RunDeletes(live: Tree, source: Tree, target: Tree, paths: seq<Path>): Result<Tree> {
    if paths == [] then Ok(live)
    else match RunDeletes(live, source, target, paths[..|paths| - 1])
      case Failed => Failed
      case Ok(next) => DeleteStep(next, source, target, paths[|paths| - 1])
  }

  /** One of the two passes of `writePlannedPaths`: directories first, leaves second. */
  function RunWrites(live: Tree, source: Tree, target: Tree, paths: seq<Path>, directories: bool): Result<Tree> {
    if paths == [] then Ok(live)
    else match RunWrites(live, source, target, paths[..|paths| - 1], directories)
      case Failed => Failed
      case Ok(next) =>
        var p := paths[|paths| - 1];
        if p !in target then Failed
        else if (target[p] == Directory) != directories then Ok(next)
        else WriteStep(next, source, target, p)
  }

  function RunPlan(live: Tree, source: Tree, target: Tree, plan: Plan): Result<Tree> {
    match RunDeletes(live, source, target, plan.deletePaths)
    case Failed => Failed
    case Ok(cleared) =>
      match RunWrites(cleared, source, target, plan.writePaths, true)
      case Failed => Failed
      case Ok(skeleton) => RunWrites(skeleton, source, target, plan.writePaths, false)
  }

  // ---- states between two trees ----

  /** Every state an interrupted restore between `a` and `b` can leave behind; symmetric in `a` and `b`. */
  ghost predicate Between(live: Tree, a: Tree, b: Tree) {
    && WellFormed(live)
    && (forall p :: p in live ==> Matches(live, p, a) || Matches(live, p, b))
    && (forall p :: p in a && p in b && (a[p] == b[p] || (a[p].File? && b[p].File?)) ==> p in live)
  }

  /** After the deletes: nothing but target entries and files the target replaces in place. */
  ghost predicate Cleared(live: Tree, source: Tree, target: Tree) {
    && Between(live, source, target)
    && forall p :: p in live ==> p in target && (live[p] == target[p] || (live[p].File? && target[p].File?))
  }

  lemma BetweenIsSymmetric(live: Tree, a: Tree, b: Tree)
    ensures Between(live, a, b) <==> Between(live, b, a)
  {
  }

  lemma EndpointsAreBetween(a: Tree, b: Tree)
    requires WellFormed(a) && WellFormed(b)
    ensures Between(a, a, b) && Between(b, a, b)
  {
  }

  // ---- shadowing ----

  lemma {:induction false} ShadowedFromMeans(live: Tree, p: Path, other: Tree, k: nat)
    requires WellFormed(other) && k <= |p|
    ensures ShadowedFrom(live, p, other, k) <==>
            exists i :: 0 < i <= k && p[..i] in other && other[p[..i]] != Directory && Matches(live, p[..i], other)
  {
    if k > 0 {
      ShadowedFromMeans(live, p, other, k - 1);
      if p[..k] in other && other[p[..k]] != Directory {
        forall i | 0 < i < k && p[..i] in other
          ensures other[p[..i]] == Directory
        {
          assert p[..k][..i] == p[..i];
        }
      }
    }
  }

  lemma ShadowedMeans(live: Tree, p: Path, other: Tree)
    requires WellFormed(other)
    ensures Shadowed(live, p, other) <==>
            exists i :: 0 < i < |p| && p[..i] in other && other[p[..i]] != Directory && Matches(live, p[..i], other)
  {
    if p != [] {
      ShadowedFromMeans(live, p, other, |p| - 1);
    }
  }

  lemma ShadowedPathsAreAbsent(live: Tree, p: Path, other: Tree)
    requires WellFormed(live) && WellFormed(other) && Shadowed(live, p, other)
    ensures p !in live && p !in other
  {
    ShadowedMeans(live, p, other);
  }

  // ---- one delete step ----

  lemma DeleteStepSucceeds(live: Tree, source: Tree, target: Tree, p: Path)
    requires WellFormed(source) && WellFormed(target) && Between(live, source, target)
    requires PlansDelete(source, target, p)
    ensures DeleteStep(live, source, target, p) ==
            Ok(if p in live && (live[p] == Directory ==> !HasChild(live, p)) then live - {p} else live)
  {
    if Shadowed(live, p, target) {
      ShadowedPathsAreAbsent(live, p, target);
    } else {
      BeyondSymlinkIsShadowed(live, source, target, p);
    }
  }

  /** No delete ever follows a symlink: the only symlink above a source path is the target's own. */
  lemma BeyondSymlinkIsShadowed(live: Tree, source: Tree, target: Tree, p: Path)
    requires WellFormed(source) && WellFormed(target) && Between(live, source, target)
    requires p in source
    ensures UnderSymlink(live, p) ==> Shadowed(live, p, target)
  {
    ShadowedMeans(live, p, target);
    if UnderSymlink(live, p) {
      var k :| 0 < k < |p| && p[..k] in live && live[p[..k]].Symlink?;
      assert source[p[..k]] == Directory;
      assert Matches(live, p[..k], target);
    }
  }

  lemma DeleteStepKeepsBetween(live: Tree, source: Tree, target: Tree, p: Path)
    requires WellFormed(source) && WellFormed(target) && Between(live, source, target)
    requires PlansDelete(source, target, p)
    requires p in live && (live[p] == Directory ==> !HasChild(live, p))
    ensures Between(live - {p}, source, target)
  {
    RemoveKeepsWellFormed(live, {p});
  }

  ghost predicate Settled(live: Tree, target: Tree, p: Path) {
    p !in live || Matches(live, p, target)
  }

  /** A directory that could not be removed still has a child, and the deeper deletes are done: the target keeps it. */
  lemma KeptDirectoryIsTargets(live: Tree, source: Tree, target: Tree, paths: seq<Path>, i: nat)
    requires WellFormed(source) && WellFormed(target) && Between(live, source, target)
    requires ListsExactly(paths, DeleteSet(source, target)) && DeepestFirst(paths)
    requires i < |paths|
    requires forall j :: 0 <= j < i ==> Settled(live, target, paths[j])
    requires paths[i] in live && live[paths[i]] == Directory && HasChild(live, paths[i])
    ensures Matches(live, paths[i], target)
  {
    var p := paths[i];
    var c :| c in live && p < c;
    assert c[..|p|] == p;
    assert PlansDelete(source, target, c) ==> c in paths;
    assert forall j :: 0 <= j < |paths| && |paths[j]| > |p| ==> j < i;
  }

  lemma {:induction false} DeletesSettle(live: Tree, source: Tree, target: Tree, paths: seq<Path>, i: nat)
    requires WellFormed(source) && WellFormed(target) && Between(live, source, target)
    requires ListsExactly(paths, DeleteSet(source, target)) && DeepestFirst(paths)
    requires i <= |paths|
    ensures var r := RunDeletes(live, source, target, paths[..i]);
            && r.Ok?
            && Between(r.value, source, target)
            && forall j :: 0 <= j < i ==> Settled(r.value, target, paths[j])
  {
    if i > 0 {
      DeletesSettle(live, source, target, paths, i - 1);
      assert paths[..i][..i - 1] == paths[..i - 1];
      var before := RunDeletes(live, source, target, paths[..i - 1]).value;
      var p := paths[i - 1];
      assert p in paths;
      DeleteStepSucceeds(before, source, target, p);
      if p in before {
        if before[p] == Directory && HasChild(before, p) {
          KeptDirectoryIsTargets(before, source, target, paths, i - 1);
        } else {
          DeleteStepKeepsBetween(before, source, target, p);
        }
      }
    }
  }

  /** From any state between the two trees the deletes run through and leave only what the writes can build on. */
  lemma {:induction false} DeletesClear(live: Tree, source: Tree, target: Tree, paths: seq<Path>)
    requires WellFormed(source) && WellFormed(target) && Between(live, source, target)
    requires ListsExactly(paths, DeleteSet(source, target)) && DeepestFirst(paths)
    ensures RunDeletes(live, source, target, paths).Ok?
    ensures Cleared(RunDeletes(live, source, target, paths).value, source, target)
  {
    DeletesSettle(live, source, target, paths, |paths|);
    assert paths[..|paths|] == paths;
    var cleared := RunDeletes(live, source, target, paths).value;
    forall p | p in cleared && !Matches(cleared, p, target)
      ensures p in target && cleared[p].File? && target[p].File?
    {
      assert PlansDelete(source, target, p) ==> p in paths;
    }
  }

  // ---- one write step ----

  lemma WriteStepSucceeds(live: Tree, source: Tree, target: Tree, p: Path)
    requires WellFormed(source) && WellFormed(target) && Cleared(live, source, target)
    requires PlansWrite(source, target, p) && ParentExists(live, p)
    ensures WriteStep(live, source, target, p) == Ok(live[p := target[p]])
    ensures Cleared(live[p := target[p]], source, target)
  {
    if p in live && live[p] == Directory {
      assert live[p := target[p]] == live;
    } else {
      InsertKeepsWellFormed(live, p, target[p]);
      if p !in live {
        assert p in source ==> PlansDelete(source, target, p);
      } else {
        assert live[p := target[p]].Keys == live.Keys;
        assert live[p] == target[p] ==> live[p := target[p]] == live;
      }
    }
  }

  // ---- the two write passes ----

  ghost predicate HasDirectories(live: Tree, target: Tree) {
    forall q :: q in target && target[q] == Directory ==> q in live
  }

  lemma UnplannedDirectoryIsPresent(live: Tree, source: Tree, target: Tree, q: Path)
    requires Between(live, source, target)
    requires q in target && !PlansWrite(source, target, q)
    ensures q in live && live[q] == target[q]
  {
  }

  lemma DirectoryParentIsReady(live: Tree, source: Tree, target: Tree, paths: seq<Path>, i: nat)
    requires WellFormed(source) && WellFormed(target) && Cleared(live, source, target)
    requires ListsExactly(paths, WriteSet(source, target)) && WriteOrder(paths, target)
    requires forall j :: 0 <= j < |paths| ==> paths[j] in target
    requires i < |paths| && target[paths[i]] == Directory
    requires forall j :: 0 <= j < i && target[paths[j]] == Directory ==> paths[j] in live
    ensures paths[i] != [] && ParentExists(live, paths[i])
  {
    var p := paths[i];
    assert p in paths;
    assert forall j :: i < j < |paths| && target[paths[j]] == Directory ==> |p| <= |paths[j]|;
    if |p| > 1 {
      var q := p[..|p| - 1];
      assert q in target && target[q] == Directory;
      if PlansWrite(source, target, q) {
        assert q in paths;
        var j :| 0 <= j < |paths| && paths[j] == q;
        assert j < i;
      } else {
        UnplannedDirectoryIsPresent(live, source, target, q);
      }
    }
  }

  lemma {:induction false} DirectoriesAppear(live: Tree, source: Tree, target: Tree, paths: seq<Path>, i: nat)
    requires WellFormed(source) && WellFormed(target) && Cleared(live, source, target)
    requires ListsExactly(paths, WriteSet(source, target)) && WriteOrder(paths, target)
    requires i <= |paths|
    ensures forall j :: 0 <= j < |paths| ==> paths[j] in target
    ensures var r := RunWrites(live, source, target, paths[..i], true);
            && r.Ok?
            && Cleared(r.value, source, target)
            && forall j :: 0 <= j < i && target[paths[j]] == Directory ==> paths[j] in r.value
  {
    hide WriteStep, WellFormed, WriteOrder;
    assert forall j :: 0 <= j < |paths| ==> paths[j] in paths;
    if i > 0 {
      DirectoriesAppear(live, source, target, paths, i - 1);
      assert paths[..i][..i - 1] == paths[..i - 1];
      var before := RunWrites(live, source, target, paths[..i - 1], true).value;
      if target[paths[i - 1]] == Directory {
        DirectoryParentIsReady(before, source, target, paths, i - 1);
        WriteStepSucceeds(before, source, target, paths[i - 1]);
      }
    }
  }

  lemma LeafParentIsReady(live: Tree, target: Tree, p: Path)
    requires WellFormed(target) && p in target
    requires HasDirectories(live, target) && forall q :: q in live && q in target && target[q] == Directory ==>
             live[q] == Directory
    ensures p != [] && ParentExists(live, p)
  {
    if |p| > 1 {
      assert p[..|p| - 1] in target;
    }
  }

  lemma {:induction false} LeavesAppear(live: Tree, source: Tree, target: Tree, paths: seq<Path>, i: nat)
    requires WellFormed(source) && WellFormed(target) && Cleared(live, source, target) && HasDirectories(live, target)
    requires ListsExactly(paths, WriteSet(source, target))
    requires i <= |paths|
    ensures forall j :: 0 <= j < |paths| ==> paths[j] in target
    ensures var r := RunWrites(live, source, target, paths[..i], false);
            && r.Ok?
            && Cleared(r.value, source, target)
            && HasDirectories(r.value, target)
            && forall j :: 0 <= j < i ==> Matches(r.value, paths[j], target)
  {
    hide WriteStep, WellFormed;
    assert forall j :: 0 <= j < |paths| ==> paths[j] in paths;
    if i > 0 {
      LeavesAppear(live, source, target, paths, i - 1);
      assert paths[..i][..i - 1] == paths[..i - 1];
      var before := RunWrites(live, source, target, paths[..i - 1], false).value;
      var p := paths[i - 1];
      if target[p] != Directory {
        LeafParentIsReady(before, target, p);
        WriteStepSucceeds(before, source, target, p);
      }
    }
  }

  lemma {:induction false} WritesComplete(live: Tree, source: Tree, target: Tree, paths: seq<Path>)
    requires WellFormed(source) && WellFormed(target) && Cleared(live, source, target)
    requires ListsExactly(paths, WriteSet(source, target)) && WriteOrder(paths, target)
    ensures var skeleton := RunWrites(live, source, target, paths, true);
            && skeleton.Ok?
            && Cleared(skeleton.value, source, target)
            && HasDirectories(skeleton.value, target)
            && RunWrites(skeleton.value, source, target, paths, false) == Ok(target)
  {
    assert paths[..|paths|] == paths;
    DirectoriesAppear(live, source, target, paths, |paths|);
    var skeleton := RunWrites(live, source, target, paths, true).value;
    forall q | q in target && target[q] == Directory
      ensures q in skeleton
    {
      if PlansWrite(source, target, q) {
        assert q in paths;
      } else {
        UnplannedDirectoryIsPresent(skeleton, source, target, q);
      }
    }
    LeavesAppear(skeleton, source, target, paths, |paths|);
    var finished := RunWrites(skeleton, source, target, paths, false).value;
    forall q | q in target
      ensures Matches(finished, q, target)
    {
      if PlansWrite(source, target, q) {
        assert q in paths;
      } else {
        UnplannedDirectoryIsPresent(finished, source, target, q);
      }
    }
    assert finished == target;
  }

  // ---- main results ----

  /** From every state between two trees, the plan of those trees meets all its preconditions and ends at the target. */
  lemma PlanConverges(live: Tree, source: Tree, target: Tree, plan: Plan)
    requires WellFormed(source) && WellFormed(target) && IsPlan(plan, source, target)
    requires Between(live, source, target)
    ensures RunPlan(live, source, target, plan) == Ok(target)
  {
    DeletesClear(live, source, target, plan.deletePaths);
    WritesComplete(RunDeletes(live, source, target, plan.deletePaths).value, source, target, plan.writePaths);
  }

  lemma PlanTurnsCurrentIntoTarget(current: Tree, target: Tree, plan: Plan)
    requires WellFormed(current) && WellFormed(target) && IsPlan(plan, current, target)
    ensures RunPlan(current, current, target, plan) == Ok(target)
  {
    EndpointsAreBetween(current, target);
    PlanConverges(current, current, target, plan);
  }

  /** The rollback plan, target to current, returns from wherever the forward restore was interrupted. */
  lemma RollbackPlanReturns(live: Tree, current: Tree, target: Tree, rollbackPlan: Plan)
    requires WellFormed(current) && WellFormed(target) && IsPlan(rollbackPlan, target, current)
    requires Between(live, current, target)
    ensures RunPlan(live, target, current, rollbackPlan) == Ok(current)
  {
    BetweenIsSymmetric(live, current, target);
    PlanConverges(live, target, current, rollbackPlan);
  }

  /** A plan names exactly the paths at which its two trees differ ... */
  lemma PlanPathsAreTheDifference(current: Tree, target: Tree, plan: Plan)
    requires IsPlan(plan, current, target)
    ensures (set p | p in plan.deletePaths + plan.writePaths) == Differing(current, target)
  {
    forall p | p in Differing(current, target)
      ensures p in plan.deletePaths || p in plan.writePaths
    {
      if p in target {
        assert PlansWrite(current, target, p);
      } else {
        assert PlansDelete(current, target, p);
      }
    }
  }

  /** ... so a plan and its reverse name the same paths. */
  lemma PlanPathsAreSymmetric(a: Tree, b: Tree, forward: Plan, backward: Plan)
    requires IsPlan(forward, a, b) && IsPlan(backward, b, a)
    ensures (set p | p in forward.deletePaths + forward.writePaths) ==
            (set p | p in backward.deletePaths + backward.writePaths)
  {
    PlanPathsAreTheDifference(a, b, forward);
    PlanPathsAreTheDifference(b, a, backward);
    assert Differing(a, b) == Differing(b, a);
  }

  /** Fail-closed on any workspace whatsoever: a step changes no other path, and its own only from known content. */
  lemma StepsTouchOnlyKnownContent(live: Tree, source: Tree, target: Tree, p: Path)
    requires WellFormed(source) && WellFormed(live) && WellFormed(target)
    ensures p in source && DeleteStep(live, source, target, p).Ok? ==>
      var next := DeleteStep(live, source, target, p).value;
      next == live || (next == live - {p} && (Matches(live, p, source) || Matches(live, p, target)))
    ensures p in target && WriteStep(live, source, target, p).Ok? ==>
      var next := WriteStep(live, source, target, p).value;
      next == live || (next == live[p := target[p]]
                       && (p !in live || Matches(live, p, source) || Matches(live, p, target)))
  {
    if p in source && Shadowed(live, p, source) {
      ShadowedPathsAreAbsent(live, p, source);
    }
  }

  /** And it is refused exactly over unknown content: a delete also behind a symlink that is not the target's own, a
      write also without its directory, or where a file of the source has vanished. */
  lemma StepsRefuseTheUnknown(live: Tree, source: Tree, target: Tree, p: Path)
    requires WellFormed(source) && WellFormed(live) && WellFormed(target)
    ensures PlansDelete(source, target, p) ==>
            (DeleteStep(live, source, target, p).Failed? <==>
             if p in live then !Matches(live, p, source) && !Matches(live, p, target)
             else UnderSymlink(live, p) && !Shadowed(live, p, target))
    ensures PlansWrite(source, target, p) ==>
            (WriteStep(live, source, target, p).Ok? <==>
             && ParentExists(live, p)
             && if p in live then Matches(live, p, target)
                || (target[p].File? && Matches(live, p, source) && live[p] != Directory)
                else p !in source || PlansDelete(source, target, p))
  {
    if p in live {
      if Shadowed(live, p, source) { ShadowedPathsAreAbsent(live, p, source); }
      if Shadowed(live, p, target) { ShadowedPathsAreAbsent(live, p, target); }
    }
    if p != [] && ParentExists(live, p) { NoSymlinkAboveAParent(live, p); }
  }

  lemma NoSymlinkAboveAParent(live: Tree, p: Path)
    requires WellFormed(live) && p != [] && ParentExists(live, p)
    ensures !UnderSymlink(live, p)
  {
    forall k | 0 < k < |p|
      ensures p[..k] in live && live[p[..k]] == Directory
    {
      if k < |p| - 1 { assert p[..|p| - 1][..k] == p[..k]; }
    }
  }

  // ---- a list of paths without some of them ----

  function Kept(paths: seq<Path>, spared: set<Path>): (kept: seq<Path>)
    ensures |kept| <= |paths|
  {
    if paths == [] then []
    else
      var last := paths[|paths| - 1];
      Kept(paths[..|paths| - 1], spared) + if last in spared then [] else [last]
  }

  lemma {:induction false} KeptUpTo(paths: seq<Path>, spared: set<Path>, i: nat)
    requires i <= |paths|
    ensures Kept(paths[..i], spared) <= Kept(paths, spared)
  {
    if i < |paths| {
      KeptUpTo(paths[..|paths| - 1], spared, i);
      assert paths[..|paths| - 1][..i] == paths[..i];
    } else {
      assert paths[..i] == paths;
    }
  }

  lemma {:induction false} KeptOneMore(paths: seq<Path>, spared: set<Path>, i: nat)
    requires i < |paths|
    ensures var kept, j := Kept(paths, spared), |Kept(paths[..i], spared)|;
            && j <= |kept| && kept[..j] == Kept(paths[..i], spared)
            && if paths[i] in spared then Kept(paths[..i + 1], spared) == kept[..j]
               else j < |kept| && kept[j] == paths[i] && Kept(paths[..i + 1], spared) == kept[..j + 1]
  {
    KeptUpTo(paths, spared, i);
    KeptUpTo(paths, spared, i + 1);
    assert paths[..i + 1][..i] == paths[..i];
  }

  lemma {:induction false} KeptInOrder(paths: seq<Path>, spared: set<Path>, a: nat, b: nat) returns (i: nat, j: nat)
    requires a < b < |Kept(paths, spared)|
    ensures i < j < |paths| && paths[i] == Kept(paths, spared)[a] && paths[j] == Kept(paths, spared)[b]
  {
    var earlier := paths[..|paths| - 1];
    if b < |Kept(earlier, spared)| {
      i, j := KeptInOrder(earlier, spared, a, b);
    } else {
      i := KeptIsListed(earlier, spared, a);
      j := |paths| - 1;
    }
  }

  lemma {:induction false} KeptIsListed(paths: seq<Path>, spared: set<Path>, a: nat) returns (i: nat)
    requires a < |Kept(paths, spared)|
    ensures i < |paths| && paths[i] == Kept(paths, spared)[a] && paths[i] !in spared
  {
    var earlier := paths[..|paths| - 1];
    if a < |Kept(earlier, spared)| {
      i := KeptIsListed(earlier, spared, a);
    } else {
      i := |paths| - 1;
    }
  }

  lemma {:induction false} ListedIsKept(paths: seq<Path>, spared: set<Path>, i: nat)
    requires i < |paths| && paths[i] !in spared
    ensures paths[i] in Kept(paths, spared)
  {
    KeptOneMore(paths, spared, i);
  }

  lemma {:induction false} KeptListsTheRest(paths: seq<Path>, spared: set<Path>, s: set<Path>)
    requires ListsExactly(paths, s)
    ensures ListsExactly(Kept(paths, spared), s - spared)
  {
    var kept := Kept(paths, spared);
    forall a, b | 0 <= a < b < |kept|
      ensures kept[a] != kept[b]
    {
      var i, j := KeptInOrder(paths, spared, a, b);
    }
    forall p
      ensures p in kept <==> p in s - spared
    {
      if p in kept {
        var a :| 0 <= a < |kept| && kept[a] == p;
        var i := KeptIsListed(paths, spared, a);
        assert paths[i] in paths;
      } else if p in s - spared {
        assert p in paths;
        var i :| 0 <= i < |paths| && paths[i] == p;
        ListedIsKept(paths, spared, i);
      }
    }
  }

  lemma {:induction false} KeptKeepsDeepestFirst(paths: seq<Path>, spared: set<Path>)
    requires DeepestFirst(paths)
    ensures DeepestFirst(Kept(paths, spared))
  {
    var kept := Kept(paths, spared);
    forall a, b | 0 <= a < b < |kept|
      ensures |kept[a]| >= |kept[b]|
    {
      var i, j := KeptInOrder(paths, spared, a, b);
    }
  }

  lemma {:induction false} KeptKeepsWriteOrder(paths: seq<Path>, spared: set<Path>, target: Tree)
    requires WriteOrder(paths, target)
    ensures WriteOrder(Kept(paths, spared), target)
  {
    var kept := Kept(paths, spared);
    forall a, b | 0 <= a < b < |kept| && kept[a] in target && kept[b] in target && target[kept[b]] == Directory
      ensures target[kept[a]] == Directory && |kept[a]| <= |kept[b]|
    {
      var i, j := KeptInOrder(paths, spared, a, b);
      assert paths[i] in target && paths[j] in target;
    }
  }

  // ---- scope ----

  /** Restricting a plan costs nothing exactly when the scope holds every path at which the trees differ. */
  lemma ScopeSufficesIffItCoversTheDifference(current: Tree, target: Tree, scope: set<Path>, plan: Plan)
    requires WellFormed(current) && WellFormed(target) && IsScopedPlan(plan, current, target, Some(scope))
    ensures IsPlan(plan, current, target) <==> Differing(current, target) <= scope
  {
    if Differing(current, target) <= scope {
      assert DeleteSet(current, target) * scope == DeleteSet(current, target);
      assert WriteSet(current, target) * scope == WriteSet(current, target);
    }
    if IsPlan(plan, current, target) {
      PlanPathsAreTheDifference(current, target, plan);
      forall p | p in Differing(current, target)
        ensures p in scope
      {
        assert p in plan.deletePaths || p in plan.writePaths;
      }
    }
  }
}
