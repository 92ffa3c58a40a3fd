/** The restore engine over a mutable workspace: it plans, batches file mutations, and may be cut short at any of
    them. */
module RestoreEngine {
  import opened Wrappers
  import opened Trees
  import opened RestorePlan
  import opened ScopedRestore
  import opened RestoreOutcome
  import opened RestoreManifests

  datatype Outcome = Completed | Interrupted | Threw

  const MAX_BATCH_ENTRIES := 1024
  const MAX_BATCH_BYTES := 64 * 1024 * 1024

  // ---- a run, one path at a time ----

  /** A path whose file was ignored must already be what the target says. */
  function CompareOrWrite(live: Tree, m: Manifests, p: Path): Result<Tree>
    requires p in m.target
  {
    if p in m.sourceIgnored then (if Matches(live, p, m.target) then Ok(live) else Failed)
    else WriteStep(live, m.source, m.target, p)
  }

  function Writes(live: Tree, m: Manifests, paths: seq<Path>, directories: bool): Result<Tree> {
    if paths == [] then Ok(live)
    else match Writes(live, m, paths[..|paths| - 1], directories)
      case Failed => Failed
      case Ok(next) =>
        var p := paths[|paths| - 1];
        if p !in m.target then Failed
        else if (m.target[p] == Directory) != directories then Ok(next)
        else CompareOrWrite(next, m, p)
  }

  function Run(live: Tree, m: Manifests, plan: Plan): Result<Tree> {
    match RunDeletes(live, m.source, m.target, plan.deletePaths)
    case Failed => Failed
    case Ok(cleared) =>
      match Writes(cleared, m, plan.writePaths, true)
      case Failed => Failed
      case Ok(skeleton) => Writes(skeleton, m, plan.writePaths, false)
  }

  lemma {:induction false} DeletesFail(live: Tree, m: Manifests, paths: seq<Path>, i: nat)
    requires i <= |paths| && RunDeletes(live, m.source, m.target, paths[..i]).Failed?
    ensures RunDeletes(live, m.source, m.target, paths).Failed?
  {
    if i == |paths| {
      assert paths[..i] == paths;
    } else {
      assert paths[..|paths| - 1][..i] == paths[..i];
      DeletesFail(live, m, paths[..|paths| - 1], i);
    }
  }

  lemma {:induction false} WritesFail(live: Tree, m: Manifests, paths: seq<Path>, directories: bool, i: nat)
    requires i <= |paths| && Writes(live, m, paths[..i], directories).Failed?
    ensures Writes(live, m, paths, directories).Failed?
  {
    if i == |paths| {
      assert paths[..i] == paths;
    } else {
      assert paths[..|paths| - 1][..i] == paths[..i];
      WritesFail(live, m, paths[..|paths| - 1], directories, i);
    }
  }

  /** What a run may have done by any moment: paths to delete are gone, paths to write hold the target's entry, and a
      path that has changed held what one of the manifests says, or nothing. */
  ghost predicate Touches(m: Manifests, before: Tree, after: Tree, deletes: seq<Path>, writes: seq<Path>) {
    && WellFormed(after)
    && forall p :: AgreeAt(after, before, p) || Touched(m, before, after, deletes, writes, p)
  }

  ghost predicate Touched(m: Manifests, before: Tree, after: Tree, deletes: seq<Path>, writes: seq<Path>, p: Path) {
    && (if p in after then p in writes && Matches(after, p, m.target) else p in deletes)
    && (p in before ==> Matches(before, p, m.source) || Matches(before, p, m.target))
  }

  lemma TouchesChain(m: Manifests, a: Tree, b: Tree, c: Tree, deletes: seq<Path>, writes: seq<Path>)
    requires Touches(m, a, b, deletes, writes) && Touches(m, b, c, deletes, writes)
    ensures Touches(m, a, c, deletes, writes)
  {
    hide WellFormed;
    forall p
      ensures AgreeAt(c, a, p) || Touched(m, a, c, deletes, writes, p)
    {
      assert AgreeAt(b, a, p) || Touched(m, a, b, deletes, writes, p);
      assert AgreeAt(c, b, p) || Touched(m, b, c, deletes, writes, p);
    }
  }

  lemma TouchesMore(m: Manifests, before: Tree, after: Tree, deletes: seq<Path>, writes: seq<Path>, plan: Plan)
    requires Touches(m, before, after, deletes, writes)
    requires (deletes == [] || deletes == plan.deletePaths) && (writes == [] || writes == plan.writePaths)
    ensures Touches(m, before, after, plan.deletePaths, plan.writePaths)
  {
    hide WellFormed;
    forall p
      ensures AgreeAt(after, before, p) || Touched(m, before, after, plan.deletePaths, plan.writePaths, p)
    {
      assert AgreeAt(after, before, p) || Touched(m, before, after, deletes, writes, p);
    }
  }

  // ---- the passes ----

  function Members(paths: seq<Path>): set<Path> {
    set p | p in paths
  }

  /** The leaves of `batch` replaced by what the target holds there. */
  function Overlay(live: Tree, target: Tree, batch: set<Path>): Tree {
    live + map p | p in batch && p in target :: target[p]
  }

  ghost predicate Sound(m: Manifests) {
    WellFormed(m.source) && WellFormed(m.target)
  }

  /** Files waiting to be deleted in one quarantine batch. */
  ghost predicate DeleteBatch(live: Tree, m: Manifests, batch: seq<Path>) {
    forall p :: p in batch ==>
      && p in live && live[p].File? && p in m.source && m.source[p].File? && !(p in m.target && m.target[p].File?)
  }

  predicate Known(m: Manifests, live: Tree, p: Path) {
    KnownState(live, m.source, m.target, DeleteMutation, p) && KnownLeaf(live, m.source, m.target, p)
  }

  ghost predicate AllKnown(m: Manifests, live: Tree, batch: seq<Path>) {
    forall p :: p in batch ==> Known(m, live, p)
  }

  lemma RemovingTouches(m: Manifests, entry: Tree, live: Tree, gone: set<Path>, paths: seq<Path>)
    requires Sound(m) && Touches(m, entry, live, paths, [])
    requires forall p :: p in gone ==> p in paths && p in live && live[p] != Directory && Known(m, live, p)
    ensures Touches(m, entry, live - gone, paths, [])
  {
    RemoveKeepsWellFormed(live, gone);
    forall p
      ensures AgreeAt(live - gone, live, p) || Touched(m, live, live - gone, paths, [], p)
    {
      if p in gone {
        assert Known(m, live, p);
        NotShadowed(live, p, m.source);
        NotShadowed(live, p, m.target);
      }
    }
    hide WellFormed, Known, KnownState, KnownLeaf;
    TouchesChain(m, entry, live, live - gone, paths, []);
  }

  /** A path is seen the same whether or not the batch has gone already. */
  lemma BatchIsNotSeen(m: Manifests, live: Tree, batch: seq<Path>, p: Path)
    requires Sound(m) && WellFormed(live) && DeleteBatch(live, m, batch) && p !in batch
    ensures WellFormed(live - Members(batch))
    ensures var v := live - Members(batch);
            && AgreeAt(v, live, p) && Lstat(v, p) == Lstat(live, p)
            && Shadowed(v, p, m.target) == Shadowed(live, p, m.target)
            && (p in live ==> Known(m, v, p) == Known(m, live, p) && !Shadowed(live, p, m.target))
  {
    var v := live - Members(batch);
    RemoveKeepsWellFormed(live, Members(batch));
    ShadowedMeans(v, p, m.target);
    ShadowedMeans(live, p, m.target);
    forall k | 0 < k < |p|
      ensures p[..k] in v && v[p[..k]].Symlink? <==> p[..k] in live && live[p[..k]].Symlink?
      ensures p[..k] in m.target && m.target[p[..k]] != Directory ==>
              (Matches(v, p[..k], m.target) <==> Matches(live, p[..k], m.target))
    {
    }
    if p in live {
      NotShadowed(live, p, m.source);
      NotShadowed(live, p, m.target);
      NotShadowed(v, p, m.source);
      NotShadowed(v, p, m.target);
    }
  }

  /** The batched deletes stand for the sequential run over the first `i` paths, if their checks are going to pass. */
  ghost predicate DeletesSoFar(entry: Tree, live: Tree, m: Manifests, paths: seq<Path>, i: nat, batch: seq<Path>) {
    && i <= |paths| && |batch| <= i && DeleteBatch(live, m, batch) && (forall q :: q in batch ==> q in paths[..i])
    && Touches(m, entry, live, paths, [])
    && RunDeletes(entry, m.source, m.target, paths[..i]) ==
       if AllKnown(m, live, batch) then Ok(live - Members(batch)) else Failed
  }

  lemma NoDeletesSoFar(live: Tree, m: Manifests, paths: seq<Path>)
    requires WellFormed(live)
    ensures DeletesSoFar(live, live, m, paths, 0, [])
  {
    assert live - Members([]) == live && paths[..0] == [];
    assert forall p :: AgreeAt(live, live, p);
  }

  /** The sequential run's next step, seen from the batched one. */
  lemma {:induction false} NextDelete(entry: Tree, live: Tree, m: Manifests, paths: seq<Path>, i: nat, batch: seq<Path>)
    requires Sound(m) && NoDuplicates(paths) && i < |paths| && DeletesSoFar(entry, live, m, paths, i, batch)
    ensures var p := paths[i];
            && p !in batch && p in paths && WellFormed(live) && WellFormed(live - Members(batch))
            && RunDeletes(entry, m.source, m.target, paths[..i + 1]) ==
               (if AllKnown(m, live, batch) then DeleteStep(live - Members(batch), m.source, m.target, p) else Failed)
            && (Shadowed(live, p, m.target) || Lstat(live, p) == Missing ==>
                  DeletesSoFar(entry, live, m, paths, i + 1, batch))
            && (!Shadowed(live, p, m.target) && Lstat(live, p) == BeyondSymlink ==>
                  RunDeletes(entry, m.source, m.target, paths[..i + 1]).Failed?)
            && (p in live ==> !Shadowed(live, p, m.target) && Lstat(live, p).Found?)
  {
    var p := paths[i];
    NotYetListed(paths, i);
    assert paths[..i + 1][..i] == paths[..i];
    BatchIsNotSeen(m, live, batch, p);
  }

  /** A file joins the batch. */
  lemma OneMoreDelete(entry: Tree, live: Tree, m: Manifests, paths: seq<Path>, i: nat, batch: seq<Path>)
    requires Sound(m) && NoDuplicates(paths) && i < |paths| && DeletesSoFar(entry, live, m, paths, i, batch)
    requires DeleteBatch(live, m, [paths[i]])
    ensures DeletesSoFar(entry, live, m, paths, i + 1, batch + [paths[i]])
  {
    var p := paths[i];
    NextDelete(entry, live, m, paths, i, batch);
    BatchIsNotSeen(m, live, batch, p);
    assert p in [p];
    assert paths[..i + 1] == paths[..i] + [p];
    assert live - Members(batch) - {p} == live - Members(batch + [p]);
    assert AllKnown(m, live, batch + [p]) <==> AllKnown(m, live, batch) && Known(m, live, p);
  }

  /** Nothing waits any more. */
  lemma DeletesFlushed(entry: Tree, live: Tree, next: Tree, m: Manifests, paths: seq<Path>, i: nat, batch: seq<Path>,
                       gone: set<Path>)
    requires Sound(m) && DeletesSoFar(entry, live, m, paths, i, batch) && AllKnown(m, live, batch)
    requires gone <= Members(batch) && next == live - gone
    ensures Touches(m, entry, next, paths, [])
    ensures gone == Members(batch) ==> DeletesSoFar(entry, next, m, paths, i, [])
  {
    RemovingTouches(m, entry, live, gone, paths);
    assert next - Members([]) == next;
  }

  /** A path deleted on its own, nothing waiting. */
  lemma DeletedAlone(entry: Tree, live: Tree, next: Tree, m: Manifests, paths: seq<Path>, i: nat)
    requires Sound(m) && NoDuplicates(paths) && i < |paths| && DeletesSoFar(entry, live, m, paths, i, [])
    requires paths[i] in live && DeleteStep(live, m.source, m.target, paths[i]) == Ok(next)
    ensures DeletesSoFar(entry, next, m, paths, i + 1, [])
  {
    var p := paths[i];
    NextDelete(entry, live, m, paths, i, []);
    assert live - Members([]) == live && next - Members([]) == next;
    NotShadowed(live, p, m.source);
    NotShadowed(live, p, m.target);
    if next != live {
      assert next == live - {p};
      RemoveKeepsWellFormed(live, {p});
      forall q
        ensures AgreeAt(next, live, q) || Touched(m, live, next, paths, [], q)
      {
      }
      TouchesChain(m, entry, live, next, paths, []);
    }
  }

  predicate Ready(m: Manifests, live: Tree, p: Path) {
    && p != [] && Lstat(live, p) != BeyondSymlink && ParentExists(live, p)
    && KnownState(live, m.source, m.target, WriteMutation, p) && KnownLeaf(live, m.source, m.target, p)
  }

  ghost predicate AllReady(m: Manifests, live: Tree, batch: seq<Path>) {
    forall p :: p in batch ==> Ready(m, live, p)
  }

  /** Files waiting to be replaced in one quarantine batch. */
  ghost predicate WriteBatch(m: Manifests, batch: seq<Path>) {
    forall p :: p in batch ==> p in m.target && m.target[p].File? && p !in m.sourceIgnored
  }

  lemma OverlayKeepsWellFormed(m: Manifests, live: Tree, batch: set<Path>)
    requires Sound(m) && WellFormed(live)
    requires forall p :: p in batch ==> p in m.target && m.target[p].File? && Ready(m, live, p)
    ensures WellFormed(Overlay(live, m.target, batch))
  {
    var next := Overlay(live, m.target, batch);
    forall p: Path, k: int | p in next && 0 < k < |p|
      ensures p[..k] in next && next[p[..k]] == Directory
    {
      var parent := p[..|p| - 1];
      assert p in batch ==> Ready(m, live, p) && (k < |p| - 1 ==> parent[..k] == p[..k]);
      assert p[..k] in live && live[p[..k]] == Directory;
      assert p[..k] in batch ==> Ready(m, live, p[..k]);
    }
  }

  lemma OverlayTouches(m: Manifests, entry: Tree, live: Tree, batch: set<Path>, paths: seq<Path>)
    requires Sound(m) && Touches(m, entry, live, [], paths)
    requires forall p :: p in batch ==> p in paths && p in m.target && m.target[p].File? && Ready(m, live, p)
    ensures Touches(m, entry, Overlay(live, m.target, batch), [], paths)
  {
    OverlayKeepsWellFormed(m, live, batch);
    var next := Overlay(live, m.target, batch);
    forall p
      ensures AgreeAt(next, live, p) || Touched(m, live, next, [], paths, p)
    {
      assert p in batch ==> Ready(m, live, p);
    }
    hide WellFormed, Ready;
    TouchesChain(m, entry, live, next, [], paths);
  }

  lemma OverlayOneMore(live: Tree, target: Tree, batch: seq<Path>, p: Path)
    requires p in target
    ensures Overlay(live, target, Members(batch + [p])) == Overlay(live, target, Members(batch))[p := target[p]]
  {
  }

  lemma EmptyOverlay(live: Tree, target: Tree)
    ensures Overlay(live, target, Members([])) == live
  {
  }

  /** A path is as ready before a batch of files as after it. */
  lemma BatchIsNotInTheWay(m: Manifests, live: Tree, batch: seq<Path>, p: Path)
    requires Sound(m) && WriteBatch(m, batch) && p in m.target && p !in batch
    ensures Ready(m, Overlay(live, m.target, Members(batch)), p) == Ready(m, live, p)
  {
    var next := Overlay(live, m.target, Members(batch));
    forall k | 0 < k < |p|
      ensures AgreeAt(next, live, p[..k])
    {
      assert m.target[p[..k]] == Directory;
    }
    assert AgreeAt(next, live, p);
    if p != [] && |p| > 1 { assert AgreeAt(next, live, p[..|p| - 1]); }
  }

  /** The batched writes stand for the sequential run over the first `i` paths, if their checks are going to pass. */
  ghost predicate WritesSoFar(entry: Tree, live: Tree, m: Manifests, paths: seq<Path>, i: nat, directories: bool,
                              batch: seq<Path>) {
    && i <= |paths| && WriteBatch(m, batch) && (forall q :: q in batch ==> q in paths[..i])
    && Touches(m, entry, live, [], paths)
    && Writes(entry, m, paths[..i], directories) ==
       if AllReady(m, live, batch) then Ok(Overlay(live, m.target, Members(batch))) else Failed
  }

  lemma NoWritesSoFar(live: Tree, m: Manifests, paths: seq<Path>, directories: bool)
    requires WellFormed(live)
    ensures WritesSoFar(live, live, m, paths, 0, directories, [])
  {
    EmptyOverlay(live, m.target);
    assert paths[..0] == [];
    assert forall p :: AgreeAt(live, live, p);
  }

  /** The sequential run's next step, seen from the batched one. */
  lemma {:induction false} NextWrite(entry: Tree, live: Tree, m: Manifests, paths: seq<Path>, i: nat,
                                     directories: bool, batch: seq<Path>)
    requires NoDuplicates(paths) && i < |paths| && WritesSoFar(entry, live, m, paths, i, directories, batch)
    requires paths[i] in m.target
    ensures var p := paths[i];
            && p !in batch && p in paths && WellFormed(live)
            && Writes(entry, m, paths[..i + 1], directories) ==
               (if !AllReady(m, live, batch) then Failed
                else if (m.target[p] == Directory) != directories then Ok(Overlay(live, m.target, Members(batch)))
                else CompareOrWrite(Overlay(live, m.target, Members(batch)), m, p))
            && ((m.target[p] == Directory) != directories ==>
                  WritesSoFar(entry, live, m, paths, i + 1, directories, batch))
  {
    NotYetListed(paths, i);
    assert paths[..i + 1][..i] == paths[..i];
  }

  lemma AllReadyWithOneMore(m: Manifests, live: Tree, batch: seq<Path>, p: Path)
    ensures AllReady(m, live, batch + [p]) <==> AllReady(m, live, batch) && Ready(m, live, p)
  {
    hide Ready;
    assert p in [p];
  }

  lemma ReadyMeansWritable(m: Manifests, live: Tree, p: Path)
    requires p in m.target && m.target[p].File? && p !in m.sourceIgnored
    ensures CompareOrWrite(live, m, p) == if Ready(m, live, p) then Ok(live[p := m.target[p]]) else Failed
  {
  }

  /** A file joins the batch. */
  lemma OneMoreWrite(entry: Tree, live: Tree, m: Manifests, paths: seq<Path>, i: nat, directories: bool,
                     batch: seq<Path>)
    requires Sound(m) && NoDuplicates(paths) && i < |paths| && WritesSoFar(entry, live, m, paths, i, directories, batch)
    requires !directories && WriteBatch(m, [paths[i]])
    ensures WritesSoFar(entry, live, m, paths, i + 1, directories, batch + [paths[i]])
  {
    hide Ready, CompareOrWrite, Overlay, Touches, AllReady, NoDuplicates, Writes;
    var p := paths[i];
    assert p in [p];
    NextWrite(entry, live, m, paths, i, directories, batch);
    BatchIsNotInTheWay(m, live, batch, p);
    ReadyMeansWritable(m, Overlay(live, m.target, Members(batch)), p);
    OverlayOneMore(live, m.target, batch, p);
    AllReadyWithOneMore(m, live, batch, p);
    NotYetListed(paths, i);
  }

  lemma WritesFlushed(entry: Tree, live: Tree, next: Tree, m: Manifests, paths: seq<Path>, i: nat, directories: bool,
                      batch: seq<Path>, done: set<Path>)
    requires Sound(m) && WritesSoFar(entry, live, m, paths, i, directories, batch) && AllReady(m, live, batch)
    requires done <= Members(batch) && next == Overlay(live, m.target, done)
    ensures Touches(m, entry, next, [], paths)
    ensures done == Members(batch) ==> WritesSoFar(entry, next, m, paths, i, directories, [])
  {
    OverlayTouches(m, entry, live, done, paths);
    EmptyOverlay(next, m.target);
  }

  lemma WrittenAlone(entry: Tree, live: Tree, next: Tree, m: Manifests, paths: seq<Path>, i: nat, directories: bool)
    requires Sound(m) && NoDuplicates(paths) && i < |paths| && WritesSoFar(entry, live, m, paths, i, directories, [])
    requires paths[i] in m.target && (m.target[paths[i]] == Directory) == directories
    requires CompareOrWrite(live, m, paths[i]) == Ok(next)
    ensures WritesSoFar(entry, next, m, paths, i + 1, directories, [])
  {
    var p := paths[i];
    NextWrite(entry, live, m, paths, i, directories, []);
    EmptyOverlay(live, m.target);
    EmptyOverlay(next, m.target);
    if next != live {
      assert next == live[p := m.target[p]] && (p in live ==> live[p] != Directory);
      InsertKeepsWellFormed(live, p, m.target[p]);
      forall q
        ensures AgreeAt(next, live, q) || Touched(m, live, next, [], paths, q)
      {
      }
      TouchesChain(m, entry, live, next, [], paths);
    }
  }

  lemma NotYetListed(paths: seq<Path>, i: nat)
    requires NoDuplicates(paths) && i < |paths|
    ensures paths[i] !in paths[..i] && paths[i] in paths && paths[..i + 1] == paths[..i] + [paths[i]]
  {
  }

  function Count(paths: seq<Path>, target: Tree, directories: bool): nat {
    if paths == [] then 0
    else
      var p := paths[|paths| - 1];
      Count(paths[..|paths| - 1], target, directories)
        + (if p in target && (target[p] == Directory) == directories then 1 else 0)
  }

  lemma {:induction false} CountGrows(paths: seq<Path>, target: Tree, directories: bool, i: nat)
    requires i < |paths|
    ensures Count(paths[..i + 1], target, directories) ==
            Count(paths[..i], target, directories) +
            (if paths[i] in target && (target[paths[i]] == Directory) == directories then 1 else 0)
  {
    assert paths[..i + 1][..i] == paths[..i];
  }

  lemma {:induction false} CountOfPrefix(paths: seq<Path>, target: Tree, directories: bool, i: nat)
    requires i <= |paths|
    ensures Count(paths[..i], target, directories) <= Count(paths, target, directories)
  {
    if i == |paths| {
      assert paths[..i] == paths;
    } else {
      CountOfPrefix(paths[..|paths| - 1], target, directories, i);
      assert paths[..|paths| - 1][..i] == paths[..i];
    }
  }

  lemma {:induction false} PassesShareTheWrites(paths: seq<Path>, target: Tree)
    requires forall p :: p in paths ==> p in target
    ensures Count(paths, target, true) + Count(paths, target, false) == |paths|
  {
    if paths != [] {
      PassesShareTheWrites(paths[..|paths| - 1], target);
      assert paths[|paths| - 1] in paths;
    }
  }

  lemma {:induction false} NothingCounted(paths: seq<Path>, target: Tree, directories: bool)
    ensures Count(paths[..0], target, directories) == 0
  {
  }

  // ---- what the methods of the run need of the lemmas above, with their definitions hidden ----

  lemma StillTouching(m: Manifests, entry: Tree, live: Tree, paths: seq<Path>, i: nat, batch: seq<Path>)
    requires DeletesSoFar(entry, live, m, paths, i, batch)
    ensures Touches(m, entry, live, paths, []) && WellFormed(live) && |batch| <= i
  {
  }

  lemma StillWriting(m: Manifests, entry: Tree, live: Tree, paths: seq<Path>, i: nat, directories: bool,
                     batch: seq<Path>)
    requires WritesSoFar(entry, live, m, paths, i, directories, batch)
    ensures Touches(m, entry, live, [], paths) && WellFormed(live)
  {
  }

  lemma NothingWaits(m: Manifests, live: Tree)
    ensures AllKnown(m, live, []) && live - Members([]) == live
    ensures AllReady(m, live, []) && Overlay(live, m.target, Members([])) == live
  {
  }

  lemma FoundIsThere(live: Tree, p: Path)
    requires Lstat(live, p).Found?
    ensures p in live
  {
  }

  lemma {:induction false} LastDeletes(m: Manifests, entry: Tree, live: Tree, paths: seq<Path>, batch: seq<Path>)
    requires DeletesSoFar(entry, live, m, paths, |paths|, batch)
    ensures RunDeletes(entry, m.source, m.target, paths) ==
            if AllKnown(m, live, batch) then Ok(live - Members(batch)) else Failed
  {
    assert paths[..|paths|] == paths;
  }

  lemma {:induction false} LastWrites(m: Manifests, entry: Tree, live: Tree, paths: seq<Path>, directories: bool,
                                      batch: seq<Path>)
    requires WritesSoFar(entry, live, m, paths, |paths|, directories, batch)
    ensures Writes(entry, m, paths, directories) ==
            if AllReady(m, live, batch) then Ok(Overlay(live, m.target, Members(batch))) else Failed
  {
    assert paths[..|paths|] == paths;
  }

  lemma PlanLists(m: Manifests, plan: Plan)
    requires IsSparingPlan(plan, m.source, m.target, m.scope, m.targetIgnored)
    ensures NoDuplicates(plan.deletePaths) && NoDuplicates(plan.writePaths)
    ensures forall p :: p in plan.deletePaths ==> PlansDelete(m.source, m.target, p) && p !in Spared(m)
    ensures forall p :: p in plan.writePaths <==> PlansWrite(m.source, m.target, p) && InScope(m.scope, p)
  {
    forall p | p in plan.deletePaths
      ensures p !in Spared(m)
    {
    }
  }

  lemma TouchesATree(m: Manifests, before: Tree, after: Tree, plan: Plan)
    requires Touches(m, before, after, plan.deletePaths, plan.writePaths)
    ensures WellFormed(after)
  {
  }

  // ---- a run without what is spared is the run of a scoped plan ----

  /** The plan of two manifests, without the paths their ignored files spare, is their plan within reach. */
  lemma PlanWithinReach(m: Manifests, plan: Plan)
    requires IsSparingPlan(plan, m.source, m.target, m.scope, m.targetIgnored)
    ensures IsScopedPlan(Plan(plan.deletePaths, Kept(plan.writePaths, Spared(m))), m.source, m.target, Some(Reach(m)))
  {
    hide DeepestFirst, IsProtected;
    var writes := Within(WriteSet(m.source, m.target), m.scope);
    KeptListsTheRest(plan.writePaths, Spared(m), writes);
    KeptKeepsWriteOrder(plan.writePaths, Spared(m), m.target);
    hide WriteOrder, ListsExactly;
    assert writes - Spared(m) == Within(WriteSet(m.source, m.target), Some(Reach(m)));
    assert Within(DeleteSet(m.source, m.target), m.scope) - ProtectedBy(m.source, m.target, m.targetIgnored)
        == Within(DeleteSet(m.source, m.target), Some(Reach(m)));
  }

  lemma {:induction false} WritesElsewhere(live: Tree, m: Manifests, paths: seq<Path>, directories: bool)
    requires Writes(live, m, paths, directories).Ok?
    ensures Elsewhere(live, Writes(live, m, paths, directories).value, paths)
  {
    if paths != [] {
      var earlier, p := paths[..|paths| - 1], paths[|paths| - 1];
      WritesElsewhere(live, m, earlier, directories);
      assert forall q :: q !in paths ==> q !in earlier && q != p;
      var before := Writes(live, m, earlier, directories).value;
      if p !in m.sourceIgnored && (m.target[p] == Directory) == directories {
        WriteStepWrites(before, m.source, m.target, p);
      }
      hide WriteStep;
    }
  }

  /** A directory that is missing and taken for an ignored file stops the run. */
  lemma {:induction false} StuckFails(live: Tree, m: Manifests, paths: seq<Path>, p: Path)
    requires NoDuplicates(paths) && p in paths && p in m.target && m.target[p] == Directory && p in m.sourceIgnored
    requires p !in live
    ensures Writes(live, m, paths, true).Failed?
  {
    var i :| 0 <= i < |paths| && paths[i] == p;
    NotYetListed(paths, i);
    assert paths[..i + 1][..i] == paths[..i];
    if Writes(live, m, paths[..i], true).Ok? {
      WritesElsewhere(live, m, paths[..i], true);
      assert AgreeAt(Writes(live, m, paths[..i], true).value, live, p);
    }
    WritesFail(live, m, paths, true, i + 1);
  }

  /** The target's spared entries and the directories that would be blocked are there. */
  ghost predicate InPlace(m: Manifests, live: Tree) {
    && (forall p :: p in Spared(m) && p in m.target && InScope(m.scope, p) ==> Matches(live, p, m.target))
    && forall p :: p in Blocked(m) ==> p in live
  }

  lemma InPlaceStays(m: Manifests, before: Tree, after: Tree, paths: seq<Path>)
    requires InPlace(m, before) && before.Keys <= after.Keys
    requires forall p :: p in Spared(m) ==> AgreeAt(after, before, p)
    ensures InPlace(m, after)
  {
    hide Spared, Blocked;
  }

  lemma BlockedIsADirectory(m: Manifests, p: Path)
    requires p in Blocked(m) && m.sourceIgnored !! m.source.Keys
    ensures p in m.target && p !in m.source && m.target[p] == Directory && p in Reach(m)
            && PlansWrite(m.source, m.target, p)
  {
    assert p !in ProtectedBy(m.target, m.source, m.sourceIgnored);
  }

  /** One path of the run, spared or not. */
  lemma CompareOrWriteKept(live: Tree, m: Manifests, p: Path)
    requires WellFormed(live) && m.sourceIgnored !! m.source.Keys && InPlace(m, live)
    requires p in m.target && InScope(m.scope, p) && p != []
    ensures CompareOrWrite(live, m, p) ==
            if p in Spared(m) then Ok(live) else WriteStep(live, m.source, m.target, p)
  {
    if p in Spared(m) {
      if m.target[p] != Directory { SparedLeafIsIgnored(m, p); }
      assert |p| > 1 ==> p[..|p| - 1] in live;
    } else if p in m.sourceIgnored {
      assert p in Blocked(m);
      BlockedIsADirectory(m, p);
      assert |p| > 1 ==> p[..|p| - 1] in live;
    }
  }

  /** What the earlier writes have left for the next path. */
  lemma {:induction false} KeptInPlace(live: Tree, m: Manifests, paths: seq<Path>, directories: bool)
    requires WellFormed(live) && InPlace(m, live)
    requires RunWrites(live, m.source, m.target, Kept(paths, Spared(m)), directories).Ok?
    ensures var next := RunWrites(live, m.source, m.target, Kept(paths, Spared(m)), directories).value;
            WellFormed(next) && InPlace(m, next)
  {
    hide Spared, Blocked, InPlace, RunWrites;
    var kept := Kept(paths, Spared(m));
    KeptAreNotSpared(paths, Spared(m));
    WritesWrite(live, m.source, m.target, kept, directories);
    WritesOnlyChange(live, m.source, m.target, Members(kept), kept, directories);
    InPlaceStays(m, live, RunWrites(live, m.source, m.target, kept, directories).value, kept);
  }

  lemma {:induction false} OneMoreKept(live: Tree, m: Manifests, paths: seq<Path>, p: Path, directories: bool)
    requires p in m.target
    ensures RunWrites(live, m.source, m.target, Kept(paths + [p], Spared(m)), directories) ==
            var before := RunWrites(live, m.source, m.target, Kept(paths, Spared(m)), directories);
            if before.Failed? || p in Spared(m) || (m.target[p] == Directory) != directories then before
            else WriteStep(before.value, m.source, m.target, p)
  {
    hide Spared, WriteStep;
    var kept := Kept(paths, Spared(m));
    assert (paths + [p])[..|paths|] == paths && (kept + [p])[..|kept|] == kept && kept + [] == kept;
  }

  lemma {:induction false} WritesKept(live: Tree, m: Manifests, paths: seq<Path>, directories: bool)
    requires WellFormed(live) && Sound(m) && m.sourceIgnored !! m.source.Keys && InPlace(m, live)
    requires forall p :: p in paths ==> p in m.target && InScope(m.scope, p)
    ensures Writes(live, m, paths, directories) ==
            RunWrites(live, m.source, m.target, Kept(paths, Spared(m)), directories)
  {
    assert forall p :: p in paths ==> p != [];
    hide Spared, InPlace, WriteStep, CompareOrWrite, WellFormed, RunWrites;
    if paths == [] {
      assert Writes(live, m, paths, directories) ==
             Ok(live) == RunWrites(live, m.source, m.target, [], directories) by {
        NothingToWrite(live, m, directories);
      }
    } else {
      hide Kept;
      var earlier, p := paths[..|paths| - 1], paths[|paths| - 1];
      assert earlier + [p] == paths && p in paths && forall q :: q in earlier ==> q in paths;
      WritesKept(live, m, earlier, directories);
      OneMoreKept(live, m, earlier, p, directories);
      if Writes(live, m, earlier, directories).Ok? {
        KeptInPlace(live, m, earlier, directories);
        CompareOrWriteKept(Writes(live, m, earlier, directories).value, m, p);
      }
    }
  }

  lemma {:induction false} NothingToWrite(live: Tree, m: Manifests, directories: bool)
    ensures RunWrites(live, m.source, m.target, [], directories) == Ok(live)
  {
  }

  lemma {:induction false} KeptAreNotSpared(paths: seq<Path>, spared: set<Path>)
    ensures forall p :: p in Kept(paths, spared) ==> p !in spared
  {
    var kept := Kept(paths, spared);
    forall p | p in kept
      ensures p !in spared
    {
      var a :| 0 <= a < |kept| && kept[a] == p;
      var i := KeptIsListed(paths, spared, a);
    }
  }

  /** A run is stopped by a missing directory that is taken for an ignored file; without one it is the run of the plan
      within reach. */
  lemma RunIsPlanned(live: Tree, m: Manifests, plan: Plan)
    requires WellFormed(live) && Sound(m) && m.sourceIgnored !! m.source.Keys && HoldsTheSpared(m, live)
    requires IsSparingPlan(plan, m.source, m.target, m.scope, m.targetIgnored)
    ensures Run(live, m, plan) ==
            if Stuck(m, live) then Failed
            else RunPlan(live, m.source, m.target, Plan(plan.deletePaths, Kept(plan.writePaths, Spared(m))))
  {
    PlanLists(m, plan);
    assert DeepestFirst(plan.deletePaths);
    hide IsSparingPlan, DeepestFirst, WriteStep, DeleteStep;
    var deletes := RunDeletes(live, m.source, m.target, plan.deletePaths);
    if deletes.Ok? {
      DeletesDelete(live, m.source, m.target, plan.deletePaths);
      var cleared := deletes.value;
      DeletesMissThese(m, live, cleared, plan);
      hide RunDeletes;
      if Stuck(m, live) {
        var p :| p in Blocked(m) && p !in live;
        BlockedIsADirectory(m, p);
        StuckFails(cleared, m, plan.writePaths, p);
      } else {
        PassesKept(cleared, m, plan.writePaths);
      }
    }
  }

  lemma {:induction false} PassesKept(cleared: Tree, m: Manifests, paths: seq<Path>)
    requires WellFormed(cleared) && Sound(m) && m.sourceIgnored !! m.source.Keys && InPlace(m, cleared)
    requires forall p :: p in paths ==> p in m.target && InScope(m.scope, p)
    ensures var kept := Kept(paths, Spared(m));
            var skeleton := RunWrites(cleared, m.source, m.target, kept, true);
            && Writes(cleared, m, paths, true) == skeleton
            && (skeleton.Ok? ==>
                  Writes(skeleton.value, m, paths, false) == RunWrites(skeleton.value, m.source, m.target, kept, false))
  {
    hide Spared, Blocked;
    var kept := Kept(paths, Spared(m));
    WritesKept(cleared, m, paths, true);
    var skeleton := RunWrites(cleared, m.source, m.target, kept, true);
    if skeleton.Ok? {
      KeptInPlace(cleared, m, paths, true);
      WritesKept(skeleton.value, m, paths, false);
    }
  }

  /** The deletes take nothing away that is spared or to be made. */
  lemma DeletesMissThese(m: Manifests, live: Tree, cleared: Tree, plan: Plan)
    requires m.sourceIgnored !! m.source.Keys && HoldsTheSpared(m, live) && Elsewhere(live, cleared, plan.deletePaths)
    requires forall p :: p in plan.deletePaths ==> PlansDelete(m.source, m.target, p) && p !in Spared(m)
    ensures forall p :: p in Blocked(m) ==> (p in live <==> p in cleared)
    ensures !Stuck(m, live) ==> InPlace(m, cleared)
  {
    forall p | p in Blocked(m)
      ensures p in live <==> p in cleared
    {
      BlockedIsADirectory(m, p);
      assert AgreeAt(cleared, live, p);
    }
    hide Blocked;
    forall p | p in Spared(m) && p in m.target && InScope(m.scope, p)
      ensures Matches(cleared, p, m.target)
    {
      SparedIsInOne(m, p);
      assert AgreeAt(cleared, live, p) && AgreeAt(live, m.target, p);
    }
  }

  /** On any workspace that the source manifest shows within reach: a run goes through if and only if its end is a tree
      and no missing directory is taken for an ignored file; and that tree is where it ends. */
  lemma RunGoesThroughIffATree(live: Tree, m: Manifests, plan: Plan)
    requires WellFormed(live) && Sound(m) && m.sourceIgnored !! m.source.Keys && HoldsTheSpared(m, live)
    requires AgreeOn(m.source, live, Reach(m)) && IsSparingPlan(plan, m.source, m.target, m.scope, m.targetIgnored)
    ensures Run(live, m, plan).Ok? <==> !Stuck(m, live) && WellFormed(Achieved(live, m.target, Reach(m)))
    ensures Run(live, m, plan).Ok? ==> Run(live, m, plan).value == Achieved(live, m.target, Reach(m))
  {
    RunIsPlanned(live, m, plan);
    PlanWithinReach(m, plan);
    hide Reach, HoldsTheSpared, IsSparingPlan, IsScopedPlan, Run, RunPlan, Achieved, AgreeOn, WellFormed, Stuck, Spared;
    GoesThroughIffATree(live, m.source, m.target, Reach(m), Plan(plan.deletePaths, Kept(plan.writePaths, Spared(m))));
  }

  // ---- runs of what fits ----

  /** What is spared stays, from wherever interrupted runs have left the rest. */
  lemma SparedStays(m: Manifests, live: Tree, source: Tree, target: Tree)
    requires Fits(m, source, target) && Between(live, source, target)
    ensures HoldsTheSpared(m, live)
  {
    MixedAgrees(source, m.target, Reach(m));
    hide Mixed, AgreeOn, WellFormed;
    forall p | p in Spared(m) && InScope(m.scope, p)
      ensures AgreeAt(live, if p in m.source then m.source else m.target, p)
    {
      SparedIsInOne(m, p);
      assert p !in Reach(m) && AgreeAt(target, source, p);
      assert AgreeAt(source, if p in m.source then m.source else m.target, p);
    }
  }

  lemma PlannedAgrees(m: Manifests, source: Tree, target: Tree, p: Path)
    requires Fits(m, source, target) && p in Reach(m)
    ensures AgreeAt(m.source, source, p) && AgreeAt(m.target, target, p)
    ensures PlansDelete(m.source, m.target, p) == PlansDelete(source, target, p)
  {
    MixedAgrees(source, m.target, Reach(m));
    assert AgreeAt(target, m.target, p) && AgreeAt(m.source, source, p);
  }

  /** Cut short anywhere, a run that fits leaves the workspace between the two trees. */
  lemma TouchesStaysBetween(m: Manifests, source: Tree, target: Tree, before: Tree, after: Tree, plan: Plan)
    requires Fits(m, source, target) && Between(before, source, target)
    requires IsSparingPlan(plan, m.source, m.target, m.scope, m.targetIgnored)
    requires Touches(m, before, after, plan.deletePaths, plan.writePaths)
    ensures Between(after, source, target)
  {
    PlanLists(m, plan);
    SparedStays(m, before, source, target);
    hide IsSparingPlan, Mixed, AgreeOn, WellFormed;
    forall p | p in plan.deletePaths
      ensures PlansDelete(source, target, p)
    {
      DeletesAreWithinReach(m, p);
      PlannedAgrees(m, source, target, p);
    }
    forall p | p in plan.writePaths
      ensures p in m.target && p in target && target[p] == m.target[p]
    {
      if p in Spared(m) {
        SparedIsInOne(m, p);
        MixedAgrees(source, m.target, Reach(m));
        assert AgreeAt(target, source, p) && AgreeAt(source, m.target, p);
      } else {
        PlannedAgrees(m, source, target, p);
      }
    }
    hide Fits;
    forall p | p in after
      ensures Matches(after, p, source) || Matches(after, p, target)
    {
      assert AgreeAt(after, before, p) || Touched(m, before, after, plan.deletePaths, plan.writePaths, p);
    }
    forall p | p in source && p in target && (source[p] == target[p] || (source[p].File? && target[p].File?))
      ensures p in after
    {
      assert AgreeAt(after, before, p) || Touched(m, before, after, plan.deletePaths, plan.writePaths, p);
      assert p !in plan.deletePaths;
    }
  }

  lemma DeletesAreWithinReach(m: Manifests, p: Path)
    requires PlansDelete(m.source, m.target, p) && p !in Spared(m) && InScope(m.scope, p)
    ensures p in Reach(m)
  {
  }

  /** A run that fits ends at its goal from wherever interrupted runs have left the workspace, unless a missing
      directory is taken for an ignored file. */
  lemma RunReachesTheGoal(m: Manifests, live: Tree, source: Tree, target: Tree, plan: Plan)
    requires Fits(m, source, target) && Between(live, source, target)
    requires IsSparingPlan(plan, m.source, m.target, m.scope, m.targetIgnored)
    ensures Run(live, m, plan) == if Stuck(m, live) then Failed else Ok(target)
  {
    SparedStays(m, live, source, target);
    RunIsPlanned(live, m, plan);
    PlanWithinReach(m, plan);
    hide Reach, HoldsTheSpared, IsSparingPlan, IsScopedPlan, Run, RunPlan, AgreeOn, WellFormed, Stuck, Spared, Mixed;
    ScopedPlanConverges(live, source, m.source, m.target, Reach(m),
                        Plan(plan.deletePaths, Kept(plan.writePaths, Spared(m))));
  }

  lemma FitsIsSound(m: Manifests, source: Tree, target: Tree)
    requires Fits(m, source, target)
    ensures Sound(m) && Sound(Reversed(m)) && WellFormed(source) && WellFormed(target)
    ensures forall live :: Between(live, source, target) ==> WellFormed(live)
  {
  }

  lemma BlockedAreGone(m: Manifests, source: Tree, target: Tree)
    requires Fits(m, source, target)
    ensures Stuck(m, source) <==> Blocked(m) != {}
  {
    forall p | p in Blocked(m)
      ensures p !in source
    {
      BlockedIsADirectory(m, p);
      assert AgreeAt(m.source, source, p);
    }
    hide Blocked;
    if p :| p in Blocked(m) {
      assert p !in source;
    }
  }

  /** One run of the engine: its direction, how many mutations it completes, and what a cut batch still achieves. */
  datatype Attempt = Attempt(forward: bool, budget: nat, landed: set<Path>)

  class RestoreRun {
    var live: Tree
    /** Mutations the process survives to complete. */
    var budget: nat
    /** Of a batch cut short, the members that nevertheless took effect. */
    var landed: set<Path>
    const rootOf: Path -> string
    const sizeOf: Path -> nat

    constructor (live: Tree, rootOf: Path -> string, sizeOf: Path -> nat)
      ensures this.live == live
    {
      this.live, this.budget, this.landed, this.rootOf, this.sizeOf := live, 0, {}, rootOf, sizeOf;
    }

    /** `flushFiles` of the delete pass: re-check every member, then hand the batch to the quarantine. */
    method FlushDeletes(m: Manifests, batch: seq<Path>) returns (o: Outcome)
      modifies this`live, this`budget
      ensures o == Threw <==> !AllKnown(m, old(live), batch)
      ensures o == Threw ==> live == old(live)
      ensures o == Completed ==> live == old(live) - Members(batch) && old(budget) == budget + |batch|
      ensures o == Interrupted ==> live == old(live) - Members(batch) * landed && old(budget) < |batch|
    {
      for i := 0 to |batch|
        invariant live == old(live) && budget == old(budget) && forall k :: 0 <= k < i ==> Known(m, live, batch[k])
      {
        if !Known(m, live, batch[i]) {
          assert batch[i] in batch;
          return Threw;
        }
      }
      if budget < |batch| {
        live, budget := live - Members(batch) * landed, 0;
        return Interrupted;
      }
      live, budget := live - Members(batch), budget - |batch|;
      return Completed;
    }

    /** `deletePath`: a directory, a symlink, or a path whose kind changed. */
    method DeletePath(m: Manifests, p: Path) returns (o: Outcome)
      requires Sound(m) && WellFormed(live) && p in live
      modifies this`live, this`budget
      ensures o == Threw <==> DeleteStep(old(live), m.source, m.target, p).Failed?
      ensures o != Completed ==> live == old(live)
      ensures o == Completed ==> DeleteStep(old(live), m.source, m.target, p) == Ok(live) && old(budget) == budget + 1
      ensures o == Interrupted ==> old(budget) < 1
    {
      NotShadowed(live, p, m.target);
      if !KnownState(live, m.source, m.target, DeleteMutation, p) {
        return Threw;
      }
      if live[p] != Directory && !KnownLeaf(live, m.source, m.target, p) {
        return Threw;
      }
      if budget == 0 {
        return Interrupted;
      }
      budget := budget - 1;
      if live[p] != Directory || !HasChild(live, p) {
        live := live - {p};
      }
      return Completed;
    }

    /** What waits is deleted first. */
    method FlushThenDelete(m: Manifests, ghost entry: Tree, ghost paths: seq<Path>, ghost i: nat, batch: seq<Path>,
                           p: Path)
      returns (o: Outcome)
      requires Sound(m) && NoDuplicates(paths) && i < |paths| && paths[i] == p
      requires DeletesSoFar(entry, live, m, paths, i, batch) && p in live
      modifies this`live, this`budget
      ensures Touches(m, entry, live, paths, [])
      ensures o == Completed ==> DeletesSoFar(entry, live, m, paths, i + 1, []) && old(budget) == budget + |batch| + 1
      ensures o == Threw ==> RunDeletes(entry, m.source, m.target, paths[..i + 1]).Failed?
      ensures o == Interrupted ==> old(budget) < |batch| + 1
    {
      hide DeletesSoFar, DeleteStep, RunDeletes, Sound, NoDuplicates, Touches, AllKnown, Known;
      NextDelete(entry, live, m, paths, i, batch);
      StillTouching(m, entry, live, paths, i, batch);
      o := FlushDeletes(m, batch);
      if o != Threw {
        DeletesFlushed(entry, old(live), live, m, paths, i, batch,
                       if o == Completed then Members(batch) else Members(batch) * landed);
      }
      if o != Completed { return; }
      ghost var before := live;
      StillTouching(m, entry, live, paths, i, []);
      NextDelete(entry, live, m, paths, i, []);
      NothingWaits(m, live);
      o := DeletePath(m, p);
      if o == Completed {
        DeletedAlone(entry, before, live, m, paths, i);
        StillTouching(m, entry, live, paths, i + 1, []);
      }
    }

    /** A file joins the batch, which is flushed first when it is full or belongs to another root. */
    method EnqueueDelete(m: Manifests, ghost entry: Tree, ghost paths: seq<Path>, ghost i: nat, batch: seq<Path>,
                         batchRoot: string, p: Path)
      returns (o: Outcome, next: seq<Path>)
      requires Sound(m) && NoDuplicates(paths) && i < |paths| && paths[i] == p
      requires DeletesSoFar(entry, live, m, paths, i, batch) && DeleteBatch(live, m, [p])
      modifies this`live, this`budget
      ensures Touches(m, entry, live, paths, [])
      ensures o == Completed ==>
              DeletesSoFar(entry, live, m, paths, i + 1, next) && old(budget) + |next| == budget + |batch| + 1
      ensures o == Threw ==> RunDeletes(entry, m.source, m.target, paths[..i + 1]).Failed?
      ensures o == Interrupted ==> old(budget) < |batch| + 1
    {
      hide DeletesSoFar, DeleteStep, RunDeletes, Sound, NoDuplicates, Touches, AllKnown, Known;
      NextDelete(entry, live, m, paths, i, batch);
      StillTouching(m, entry, live, paths, i, batch);
      next := batch;
      o := Completed;
      if batch != [] && (batchRoot != rootOf(p) || |batch| >= MAX_BATCH_ENTRIES) {
        o := FlushDeletes(m, batch);
        if o != Threw {
          DeletesFlushed(entry, old(live), live, m, paths, i, batch,
                         if o == Completed then Members(batch) else Members(batch) * landed);
        }
        if o != Completed { return; }
        assert p in [p];
        next := [];
      }
      OneMoreDelete(entry, live, m, paths, i, next);
      next := next + [p];
      StillTouching(m, entry, live, paths, i + 1, next);
    }

    /** One turn of the loop of `deletePlannedPaths`. */
    method DeleteNext(m: Manifests, ghost entry: Tree, ghost paths: seq<Path>, ghost i: nat, p: Path, before: seq<Path>,
                      root: string)
      returns (o: Outcome, batch: seq<Path>, batchRoot: string)
      requires Sound(m) && NoDuplicates(paths) && i < |paths| && paths[i] == p && PlansDelete(m.source, m.target, p)
      requires DeletesSoFar(entry, live, m, paths, i, before)
      modifies this`live, this`budget
      ensures Touches(m, entry, live, paths, [])
      ensures o == Completed ==>
              DeletesSoFar(entry, live, m, paths, i + 1, batch) && old(budget) + |batch| <= budget + |before| + 1
      ensures o == Threw ==> RunDeletes(entry, m.source, m.target, paths[..i + 1]).Failed?
      ensures o == Interrupted ==> old(budget) < |before| + 1
    {
      batch, batchRoot, o := before, root, Completed;
      NextDelete(entry, live, m, paths, i, before);
      StillTouching(m, entry, live, paths, i, before);
      hide DeletesSoFar, RunDeletes, Sound, NoDuplicates, Touches, Shadowed, Lstat, DeleteStep;
      if Shadowed(live, p, m.target) || Lstat(live, p) == Missing { return; }
      if Lstat(live, p) == BeyondSymlink { return Threw, batch, batchRoot; }
      FoundIsThere(live, p);
      if !m.source[p].File? || !live[p].File? {
        o := FlushThenDelete(m, entry, paths, i, before, p);
        batch := [];
      } else {
        o, batch := EnqueueDelete(m, entry, paths, i, before, root, p);
        batchRoot := rootOf(p);
      }
    }

    /** `deletePlannedPaths`: checks run ahead of the batched effects, yet on any workspace the result is that of one
        path after another. */
    method DeletePlannedPaths(m: Manifests, paths: seq<Path>) returns (o: Outcome)
      requires Sound(m) && WellFormed(live) && NoDuplicates(paths)
      requires forall p :: p in paths ==> PlansDelete(m.source, m.target, p)
      modifies this`live, this`budget
      ensures Touches(m, old(live), live, paths, [])
      ensures o == Completed ==>
              RunDeletes(old(live), m.source, m.target, paths) == Ok(live) && old(budget) <= budget + |paths|
      ensures o == Threw ==> RunDeletes(old(live), m.source, m.target, paths).Failed?
      ensures o == Interrupted ==> old(budget) < |paths|
    {
      hide DeletesSoFar, RunDeletes, PlansDelete, Sound, Touches, AllKnown, Known;
      NoDeletesSoFar(live, m, paths);
      var batch: seq<Path> := [];
      var batchRoot := "";
      for i := 0 to |paths|
        invariant DeletesSoFar(old(live), live, m, paths, i, batch) && |batch| <= i
        invariant old(budget) <= budget + i - |batch|
      {
        assert paths[i] in paths;
        o, batch, batchRoot := DeleteNext(m, old(live), paths, i, paths[i], batch, batchRoot);
        if o == Threw { DeletesFail(old(live), m, paths, i + 1); }
        if o != Completed { return; }
        StillTouching(m, old(live), live, paths, i + 1, batch);
      }
      ghost var before := live;
      LastDeletes(m, old(live), live, paths, batch);
      StillTouching(m, old(live), live, paths, |paths|, batch);
      o := FlushDeletes(m, batch);
      if o != Threw {
        DeletesFlushed(old(live), before, live, m, paths, |paths|, batch,
                       if o == Completed then Members(batch) else Members(batch) * landed);
      }
    }

    /** `flushFiles` of the write pass: `replaceFiles` swaps each member in whole, or not at all. */
    method FlushWrites(m: Manifests, batch: seq<Path>) returns (o: Outcome)
      modifies this`live, this`budget
      ensures o == Threw <==> !AllReady(m, old(live), batch)
      ensures o == Threw ==> live == old(live)
      ensures o == Completed ==> live == Overlay(old(live), m.target, Members(batch)) && old(budget) == budget + |batch|
      ensures o == Interrupted ==>
              live == Overlay(old(live), m.target, Members(batch) * landed) && old(budget) < |batch|
    {
      for i := 0 to |batch|
        invariant live == old(live) && budget == old(budget) && forall k :: 0 <= k < i ==> Ready(m, live, batch[k])
      {
        if !Ready(m, live, batch[i]) {
          assert batch[i] in batch;
          return Threw;
        }
      }
      if budget < |batch| {
        live, budget := Overlay(live, m.target, Members(batch) * landed), 0;
        return Interrupted;
      }
      live, budget := Overlay(live, m.target, Members(batch)), budget - |batch|;
      return Completed;
    }

    /** `writePath` for a directory or a symlink. */
    method WritePath(m: Manifests, p: Path) returns (o: Outcome)
      requires Sound(m) && WellFormed(live) && p in m.target && !m.target[p].File?
      modifies this`live, this`budget
      ensures o == Threw <==> WriteStep(old(live), m.source, m.target, p).Failed?
      ensures o != Completed ==> live == old(live)
      ensures o == Completed ==> WriteStep(old(live), m.source, m.target, p) == Ok(live) && old(budget) <= budget + 1
      ensures o == Interrupted ==> old(budget) < 1
    {
      if p in live {
        assert |p| > 1 ==> p[..|p| - 1] in live;
        return if live[p] == m.target[p] then Completed else Threw;
      }
      if Lstat(live, p) == BeyondSymlink || !ParentExists(live, p)
         || !KnownState(live, m.source, m.target, WriteMutation, p)
         || (m.target[p] != Directory && !KnownLeaf(live, m.source, m.target, p)) {
        return Threw;
      }
      if budget == 0 {
        return Interrupted;
      }
      budget := budget - 1;
      live := live[p := m.target[p]];
      return Completed;
    }

    /** What waits is written first; then a path of an ignored file is compared, a directory or a symlink is made. */
    method FlushThenWrite(m: Manifests, ghost entry: Tree, ghost paths: seq<Path>, ghost i: nat,
                          ghost directories: bool, batch: seq<Path>, p: Path)
      returns (o: Outcome)
      requires Sound(m) && NoDuplicates(paths) && i < |paths| && paths[i] == p
      requires WritesSoFar(entry, live, m, paths, i, directories, batch)
      requires p in m.target && (m.target[p] == Directory) == directories
               && (p in m.sourceIgnored || !m.target[p].File?)
      modifies this`live, this`budget
      ensures Touches(m, entry, live, [], paths)
      ensures o == Completed ==>
              WritesSoFar(entry, live, m, paths, i + 1, directories, []) && old(budget) <= budget + |batch| + 1
      ensures o == Threw ==> Writes(entry, m, paths[..i + 1], directories).Failed?
      ensures o == Interrupted ==> old(budget) < |batch| + 1
    {
      hide WritesSoFar, WriteStep, Writes, Sound, NoDuplicates, Touches, AllReady, Ready, Overlay;
      NextWrite(entry, live, m, paths, i, directories, batch);
      StillWriting(m, entry, live, paths, i, directories, batch);
      o := FlushWrites(m, batch);
      if o != Threw {
        WritesFlushed(entry, old(live), live, m, paths, i, directories, batch,
                      if o == Completed then Members(batch) else Members(batch) * landed);
      }
      if o != Completed { return; }
      ghost var before := live;
      NextWrite(entry, live, m, paths, i, directories, []);
      StillWriting(m, entry, live, paths, i, directories, []);
      NothingWaits(m, live);
      if p in m.sourceIgnored {
        o := if Matches(live, p, m.target) then Completed else Threw;
      } else {
        o := WritePath(m, p);
      }
      if o == Completed {
        WrittenAlone(entry, before, live, m, paths, i, directories);
        StillWriting(m, entry, live, paths, i + 1, directories, []);
      }
    }

    /** A file joins the batch, which is flushed first when it is full or belongs to another root. */
    method Enqueue(m: Manifests, ghost entry: Tree, ghost paths: seq<Path>, ghost i: nat, batch: seq<Path>,
                   batchRoot: string, batchBytes: nat, p: Path)
      returns (o: Outcome, next: seq<Path>, nextBytes: nat)
      requires Sound(m) && NoDuplicates(paths) && i < |paths| && paths[i] == p
      requires WritesSoFar(entry, live, m, paths, i, false, batch) && WriteBatch(m, [p])
      modifies this`live, this`budget
      ensures Touches(m, entry, live, [], paths)
      ensures o == Completed ==>
              WritesSoFar(entry, live, m, paths, i + 1, false, next) && old(budget) + |next| == budget + |batch| + 1
      ensures o == Completed ==> |next| <= |batch| + 1
      ensures o == Threw ==> Writes(entry, m, paths[..i + 1], false).Failed?
      ensures o == Interrupted ==> old(budget) < |batch| + 1
    {
      hide WritesSoFar, WriteStep, Writes, Sound, NoDuplicates, Touches, AllReady, Ready, Overlay;
      assert p in [p];
      NextWrite(entry, live, m, paths, i, false, batch);
      StillWriting(m, entry, live, paths, i, false, batch);
      next, nextBytes := batch, batchBytes;
      o := Completed;
      if batch != [] && (batchRoot != rootOf(p) || |batch| >= MAX_BATCH_ENTRIES
                         || batchBytes + sizeOf(p) > MAX_BATCH_BYTES) {
        o := FlushWrites(m, batch);
        if o != Threw {
          WritesFlushed(entry, old(live), live, m, paths, i, false, batch,
                        if o == Completed then Members(batch) else Members(batch) * landed);
        }
        if o != Completed { return; }
        next, nextBytes := [], 0;
        StillWriting(m, entry, live, paths, i, false, []);
      }
      OneMoreWrite(entry, live, m, paths, i, false, next);
      next := next + [p];
      StillWriting(m, entry, live, paths, i + 1, false, next);
      nextBytes := nextBytes + sizeOf(p);
    }

    /** One turn of the loop of `writePlannedPaths`. */
    method WriteNext(m: Manifests, ghost entry: Tree, ghost paths: seq<Path>, ghost i: nat, p: Path, directories: bool,
                     before: seq<Path>, root: string, bytes: nat)
      returns (o: Outcome, batch: seq<Path>, batchRoot: string, batchBytes: nat)
      requires Sound(m) && NoDuplicates(paths) && i < |paths| && paths[i] == p && p in m.target
      requires WritesSoFar(entry, live, m, paths, i, directories, before)
      modifies this`live, this`budget
      ensures Touches(m, entry, live, [], paths)
      ensures o == Completed ==> WritesSoFar(entry, live, m, paths, i + 1, directories, batch)
      ensures o == Completed ==>
              && old(budget) + |batch| <= budget + |before|
                 + (if (m.target[p] == Directory) == directories then 1 else 0)
              && |batch| <= |before| + (if (m.target[p] == Directory) == directories then 1 else 0)
      ensures o == Threw ==> Writes(entry, m, paths[..i + 1], directories).Failed?
      ensures o == Interrupted ==> old(budget) < |before| + 1 && (m.target[p] == Directory) == directories
    {
      hide WritesSoFar, Writes, Sound, NoDuplicates, Touches;
      batch, batchRoot, batchBytes, o := before, root, bytes, Completed;
      NextWrite(entry, live, m, paths, i, directories, before);
      StillWriting(m, entry, live, paths, i, directories, before);
      if (m.target[p] == Directory) != directories { return; }
      if p in m.sourceIgnored || !m.target[p].File? {
        o := FlushThenWrite(m, entry, paths, i, directories, before, p);
        batch, batchBytes := [], 0;
      } else {
        o, batch, batchBytes := Enqueue(m, entry, paths, i, before, root, bytes, p);
        batchRoot := rootOf(p);
      }
    }

    /** One pass of `writePlannedPaths`, over the directories or over the leaves. */
    method WritePass(m: Manifests, paths: seq<Path>, directories: bool) returns (o: Outcome)
      requires Sound(m) && WellFormed(live) && NoDuplicates(paths) && forall p :: p in paths ==> p in m.target
      modifies this`live, this`budget
      ensures Touches(m, old(live), live, [], paths)
      ensures o == Completed ==> Writes(old(live), m, paths, directories) == Ok(live)
      ensures o == Completed ==> old(budget) <= budget + Count(paths, m.target, directories)
      ensures o == Threw ==> Writes(old(live), m, paths, directories).Failed?
      ensures o == Interrupted ==> old(budget) < Count(paths, m.target, directories)
    {
      hide WritesSoFar, Writes, Sound, Touches, AllReady, Ready, Overlay, Count, NoDuplicates;
      NoWritesSoFar(live, m, paths, directories);
      NothingCounted(paths, m.target, directories);
      var batch: seq<Path> := [];
      var batchBytes, batchRoot := 0, "";
      for i := 0 to |paths|
        invariant WritesSoFar(old(live), live, m, paths, i, directories, batch)
        invariant |batch| <= Count(paths[..i], m.target, directories)
        invariant old(budget) <= budget + Count(paths[..i], m.target, directories) - |batch|
      {
        assert paths[i] in paths;
        CountGrows(paths, m.target, directories, i);
        CountOfPrefix(paths, m.target, directories, i + 1);
        o, batch, batchRoot, batchBytes := WriteNext(m, old(live), paths, i, paths[i], directories,
                                                     batch, batchRoot, batchBytes);
        if o == Threw { WritesFail(old(live), m, paths, directories, i + 1); }
        if o != Completed { return; }
      }
      assert paths[..|paths|] == paths;
      ghost var before := live;
      LastWrites(m, old(live), live, paths, directories, batch);
      StillWriting(m, old(live), live, paths, |paths|, directories, batch);
      o := FlushWrites(m, batch);
      if o != Threw {
        WritesFlushed(old(live), before, live, m, paths, |paths|, directories, batch,
                      if o == Completed then Members(batch) else Members(batch) * landed);
      }
    }

    /** Deletes, then directories, then leaves: the mutation part of `applyPinned` and of `rollback`. On any workspace
        the attempt does what the plan does one path after another, unless it is cut short. */
    method ApplyPlan(m: Manifests, plan: Plan) returns (o: Outcome)
      requires Sound(m) && WellFormed(live) && IsSparingPlan(plan, m.source, m.target, m.scope, m.targetIgnored)
      modifies this`live, this`budget
      ensures Touches(m, old(live), live, plan.deletePaths, plan.writePaths)
      ensures o == Completed ==> Run(old(live), m, plan) == Ok(live)
      ensures o == Threw ==> Run(old(live), m, plan).Failed?
      ensures o == Interrupted ==> old(budget) < |plan.deletePaths| + |plan.writePaths|
    {
      PlanLists(m, plan);
      PassesShareTheWrites(plan.writePaths, m.target);
      hide Sound, Touches, RunDeletes, Writes, IsSparingPlan, NoDuplicates, Count;
      o := DeletePlannedPaths(m, plan.deletePaths);
      TouchesMore(m, old(live), live, plan.deletePaths, [], plan);
      TouchesATree(m, old(live), live, plan);
      if o != Completed { return; }
      ghost var cleared := live;
      o := WritePass(m, plan.writePaths, true);
      TouchesMore(m, cleared, live, [], plan.writePaths, plan);
      TouchesChain(m, old(live), cleared, live, plan.deletePaths, plan.writePaths);
      TouchesATree(m, old(live), live, plan);
      if o != Completed { return; }
      ghost var skeleton := live;
      o := WritePass(m, plan.writePaths, false);
      TouchesMore(m, skeleton, live, [], plan.writePaths, plan);
      TouchesChain(m, old(live), skeleton, live, plan.deletePaths, plan.writePaths);
    }

    /**
     * A restore is started, cut short, rolled back, cut short again, and so on, in any order and at any mutation.
     * A last attempt that is left alone ends at exactly the tree it heads for: the target, within the scope if there is
     * one, or the workspace as it was. It fails only over a directory that it takes for an ignored file.
     */
    method SettleAfterInterruptions(m: Manifests, attempts: seq<Attempt>, forward: bool) returns (o: Outcome)
      requires Fits(m, live, Goal(m, live))
      modifies this
      ensures o == Completed ==> live == if forward then Goal(m, old(live)) else old(live)
      ensures o != Interrupted && (o == Threw ==> Blocked(if forward then m else Reversed(m)) != {})
    {
      ghost var current, target := live, Goal(m, live);
      EndpointsAreBetween(current, target);
      ReversedFits(m, current, target);
      var back := Reversed(m);
      var plan := ComputePlan(m.source, m.target, m.scope, m.targetIgnored);
      var rollbackPlan := ComputePlan(m.target, m.source, m.scope, m.sourceIgnored);
      FitsIsSound(m, current, target);
      hide Fits, Goal, IsSparingPlan, Blocked, Sound, Touches, Run;
      for i := 0 to |attempts|
        invariant Between(live, current, target)
      {
        budget, landed := attempts[i].budget, attempts[i].landed;
        BetweenIsSymmetric(live, current, target);
        ghost var before := live;
        if attempts[i].forward {
          var _ := ApplyPlan(m, plan);
          TouchesStaysBetween(m, current, target, before, live, plan);
        } else {
          var _ := ApplyPlan(back, rollbackPlan);
          TouchesStaysBetween(back, target, current, before, live, rollbackPlan);
          BetweenIsSymmetric(live, target, current);
        }
      }
      BetweenIsSymmetric(live, current, target);
      if forward {
        budget := |plan.deletePaths| + |plan.writePaths|;
        RunReachesTheGoal(m, live, current, target, plan);
        o := ApplyPlan(m, plan);
      } else {
        budget := |rollbackPlan.deletePaths| + |rollbackPlan.writePaths|;
        RunReachesTheGoal(back, live, target, current, rollbackPlan);
        o := ApplyPlan(back, rollbackPlan);
      }
    }

    /** A whole restore that goes through can be rolled back if and only if no directory it removed lies where the
        target lists an ignored file: the rollback takes that directory for the file. */
    method RollBackACompleteRestore(m: Manifests) returns (there: Outcome, back: Outcome)
      requires Fits(m, live, Goal(m, live)) && Blocked(m) == {}
      modifies this
      ensures there == Completed
      ensures back == Completed ==> live == old(live)
      ensures back == if Blocked(Reversed(m)) == {} then Completed else Threw
    {
      ghost var current, target := live, Goal(m, live);
      EndpointsAreBetween(current, target);
      ReversedFits(m, current, target);
      var plan := ComputePlan(m.source, m.target, m.scope, m.targetIgnored);
      var rollbackPlan := ComputePlan(m.target, m.source, m.scope, m.sourceIgnored);
      BlockedAreGone(Reversed(m), target, current);
      RunReachesTheGoal(m, current, current, target, plan);
      BetweenIsSymmetric(target, current, target);
      RunReachesTheGoal(Reversed(m), target, target, current, rollbackPlan);
      FitsIsSound(m, current, target);
      hide Fits, Goal, IsSparingPlan, Blocked, Sound, Touches, Run;
      budget := |plan.deletePaths| + |plan.writePaths|;
      there := ApplyPlan(m, plan);
      budget := |rollbackPlan.deletePaths| + |rollbackPlan.writePaths|;
      back := ApplyPlan(Reversed(m), rollbackPlan);
    }
  }

  // ---- the rollback that fails ----

  /** Where the target had the ignored file `b`, the workspace now has a directory of that name. */
  function IgnoredFileReplaced(): Manifests {
    Manifests(map[["b"] := Directory, ["b", "f"] := File("text", false)], map[], {}, {["b"]}, None)
  }

  lemma RollbackCanFail()
    ensures var m := IgnoredFileReplaced();
            Fits(m, m.source, Goal(m, m.source)) && Blocked(m) == {} && Blocked(Reversed(m)) == {["b"]}
  {
    var m := IgnoredFileReplaced();
    assert Spared(m) == {} && Spared(Reversed(m)) == {};
    assert Goal(m, m.source) == m.target;
    assert m.source.Keys == {["b"], ["b", "f"]};
    assert ["b", "f"][..1] == ["b"];
  }
}
