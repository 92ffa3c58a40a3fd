/** The native batch: many files replaced or deleted in phases by parallel workers, one system call at a time. */
module NativeBatch {
  import opened Wrappers
  import opened Mutations
  import opened FileSystem
  import opened Quarantine
  import opened QuarantineBatch

  /** What the batch accepts: a file or nothing becomes a file, or a file is deleted; artifacts are named like a
      pack's. */
  predicate NativeEntry(m: Mutation) {
    && m.Named(PACK_PREFIX) && (m.Source().File? || m.Source() == Absent)
    && match m.intent.kind
       case WriteFile => m.Target().File?
       case DeleteLeaf => m.Source().File? && m.Target() == Absent
       case WriteSymlink => false
  }

  /** Each phase takes every entry of its batch from one of these marks to the next: create the target artifact (two
      calls), capture the source (two), install the target (one), verify (one). */
  const PHASES := [2, 4, 5, 6]
  const FINISHED := 6

  /** What an entry's names hold after its first `calls` system calls. */
  ghost predicate AtStage(fs: Files, m: Mutation, calls: nat)
    requires WellFormed(fs)
  {
    match calls
    case 0 => Untouched(fs, m)
    case 1 =>
      && At(fs, m.Path()) == m.Source() && At(fs, m.SourceName()) == Absent
      && (if m.intent.kind == WriteFile then TargetArtifact(fs, m).File?
          && Unshared(fs, m.intent.targetArtifact.value) else true)
    case 2 => Prepared(fs, m)
    case 3 =>
      if m.intent.kind == DeleteLeaf then
        At(fs, m.Path()) == At(fs, m.SourceName()) == m.Source() && SameInode(fs, m.Path(), m.SourceName())
      else Prepared(fs, m)
    case 4 => Quarantined(fs, m)
    case 5 => Installed(fs, m)
    case 6 => Installed(fs, m)
    case _ => false
  }

  /** A call on one entry leaves every entry without a name in common with it at its stage. */
  lemma StageFrame(before: Files, after: Files, touched: set<string>, m: Mutation, calls: nat)
    requires WellFormed(before) && WellFormed(after) && m.Names() !! touched
    requires SameElsewhere(before, after, touched) && KeepsPrivate(before, after, touched)
    requires AtStage(before, m, calls)
    ensures AtStage(after, m, calls)
  {
    assert m.intent.targetArtifact.Some? ==> m.intent.targetArtifact.value in m.Names();
    UntouchedNamesFrame(before, after, touched, m, INTENT);
  }

  /** An entry whose names do not all hold what the plan says: its path and source artifact stay as they were, and it
      gets no further than its own target artifact, if that name was free. */
  ghost predicate Halted(before: Files, fs: Files, m: Mutation, calls: nat)
    requires WellFormed(before) && WellFormed(fs)
  {
    && At(fs, m.Path()) == At(before, m.Path()) && At(fs, m.SourceName()) == At(before, m.SourceName()) && calls <= 2
    && (m.intent.kind == WriteFile ==>
          match calls
          case 0 => TargetArtifact(fs, m) == TargetArtifact(before, m)
          case 1 => TargetArtifact(before, m) == Absent && TargetArtifact(fs, m).File?
                    && Unshared(fs, m.intent.targetArtifact.value)
          case _ => TargetArtifact(before, m) == Absent && TargetArtifact(fs, m) == m.Target())
  }

  /** Where an entry is after its first `calls` system calls, whatever its names held before. */
  ghost predicate OnCourse(before: Files, fs: Files, m: Mutation, calls: nat)
    requires WellFormed(before) && WellFormed(fs)
  {
    if Untouched(before, m) then AtStage(fs, m, calls) else Halted(before, fs, m, calls)
  }

  lemma CourseFrame(start: Files, before: Files, after: Files, touched: set<string>, m: Mutation, calls: nat)
    requires WellFormed(start) && WellFormed(before) && WellFormed(after) && m.Names() !! touched
    requires SameElsewhere(before, after, touched) && KeepsPrivate(before, after, touched)
    requires OnCourse(start, before, m, calls)
    ensures OnCourse(start, after, m, calls)
  {
    if Untouched(start, m) {
      StageFrame(before, after, touched, m, calls);
    } else {
      assert m.Path() in m.Names() && m.SourceName() in m.Names();
      assert m.intent.targetArtifact.Some? ==> m.intent.targetArtifact.value in m.Names();
    }
  }

  /** The entry's next system call, with the checks made before it. An entry that does not hold what the plan says is
      refused at its third call at the latest, and nothing of it is moved. */
  method NextCall(w: Workspace, m: Mutation, calls: nat, partial: Leaf, ghost start: Files) returns (ok: bool)
    requires w.Valid() && NativeEntry(m) && calls < FINISHED && partial.File? && WellFormed(start)
    modifies w`fs
    ensures w.Valid()
    ensures OnCourse(start, old(w.fs), m, calls) ==>
            && SameElsewhere(old(w.fs), w.fs, m.Names()) && KeepsPrivate(old(w.fs), w.fs, m.Names())
            && OnCourse(start, w.fs, m, if ok then calls + 1 else calls) && (Untouched(start, m) ==> ok)
  {
    match calls
    case 0 => ok := CreateTarget(w, m, partial);
    case 1 => ok := WriteTarget(w, m);
    case 2 => ok := CaptureSource(w, m);
    case 3 => ok := RemoveSource(w, m);
    case 4 => ok := InstallTarget(w, m);
    case _ => ok := VerifyInstalled(w, m);
  }

  /** `create_target` up to its first bytes: an exclusive create; `partial` is what the file holds before the last
      write. */
  method CreateTarget(w: Workspace, m: Mutation, partial: Leaf) returns (ok: bool)
    requires w.Valid() && NativeEntry(m) && partial.File?
    modifies w`fs
    ensures w.Valid()
    ensures AtStage(old(w.fs), m, 0) ==>
            && ok && AtStage(w.fs, m, 1)
            && SameElsewhere(old(w.fs), w.fs, m.Names()) && KeepsPrivate(old(w.fs), w.fs, m.Names())
    ensures forall start :: WellFormed(start) && Halted(start, old(w.fs), m, 0) ==>
            && SameElsewhere(old(w.fs), w.fs, m.Names()) && KeepsPrivate(old(w.fs), w.fs, m.Names())
            && Halted(start, w.fs, m, if ok then 1 else 0)
  {
    if m.intent.kind == DeleteLeaf { return true; }
    var r := CreateCall(w.fs, m.intent.targetArtifact.value, partial);
    if r.Failed? { return false; }
    w.fs := r.value;
    return true;
  }

  method WriteTarget(w: Workspace, m: Mutation) returns (ok: bool)
    requires w.Valid() && NativeEntry(m)
    modifies w`fs
    ensures w.Valid()
    ensures AtStage(old(w.fs), m, 1) ==>
            && ok && AtStage(w.fs, m, 2)
            && SameElsewhere(old(w.fs), w.fs, m.Names()) && KeepsPrivate(old(w.fs), w.fs, m.Names())
    ensures forall start :: WellFormed(start) && Halted(start, old(w.fs), m, 1) ==>
            && SameElsewhere(old(w.fs), w.fs, m.Names()) && KeepsPrivate(old(w.fs), w.fs, m.Names())
            && Halted(start, w.fs, m, if ok then 2 else 1)
  {
    if m.intent.kind == DeleteLeaf { return true; }
    if m.intent.targetArtifact.value !in w.fs.names { return false; }
    w.fs := WriteCall(w.fs, m.intent.targetArtifact.value, m.Target());
    return true;
  }

  /** `capture_source` up to its first change: the checks, and for a delete the second name. */
  method CaptureSource(w: Workspace, m: Mutation) returns (ok: bool)
    requires w.Valid() && NativeEntry(m)
    modifies w`fs
    ensures w.Valid()
    ensures AtStage(old(w.fs), m, 2) ==>
            && ok && AtStage(w.fs, m, 3)
            && SameElsewhere(old(w.fs), w.fs, m.Names()) && KeepsPrivate(old(w.fs), w.fs, m.Names())
    ensures forall start :: WellFormed(start) && !Untouched(start, m) && Halted(start, old(w.fs), m, 2) ==>
            !ok && w.fs == old(w.fs)
  {
    if m.SourceName() in w.fs.names || At(w.fs, m.Path()) != m.Source() { return false; }
    if m.intent.kind == DeleteLeaf {
      var r := LinkCall(w.fs, m.Path(), m.SourceName());
      if r.Failed? { return false; }
      w.fs := r.value;
    }
    return true;
  }

  /** The change that frees the path: the unlink of a delete, or the rename of a replacement. */
  method RemoveSource(w: Workspace, m: Mutation) returns (ok: bool)
    requires w.Valid() && NativeEntry(m)
    modifies w`fs
    ensures w.Valid()
    ensures AtStage(old(w.fs), m, 3) ==>
            && ok && AtStage(w.fs, m, 4)
            && SameElsewhere(old(w.fs), w.fs, m.Names()) && KeepsPrivate(old(w.fs), w.fs, m.Names())
  {
    if m.Source() == Absent { return true; }
    if m.intent.kind == DeleteLeaf {
      if !SameInode(w.fs, m.Path(), m.SourceName()) { return false; }
      var r := UnlinkCall(w.fs, m.Path());
      w.fs := r.value;
    } else {
      var r := RenameCall(w.fs, m.Path(), m.SourceName());
      if r.Failed? { return false; }
      w.fs := r.value;
    }
    return At(w.fs, m.SourceName()) == m.Source();
  }

  /** `install_target`. */
  method InstallTarget(w: Workspace, m: Mutation) returns (ok: bool)
    requires w.Valid() && NativeEntry(m)
    modifies w`fs
    ensures w.Valid()
    ensures AtStage(old(w.fs), m, 4) ==>
            && ok && AtStage(w.fs, m, 5)
            && SameElsewhere(old(w.fs), w.fs, m.Names()) && KeepsPrivate(old(w.fs), w.fs, m.Names())
  {
    if m.intent.kind == DeleteLeaf { return true; }
    var r := LinkCall(w.fs, m.intent.targetArtifact.value, m.Path());
    if r.Failed? { return false; }
    w.fs := r.value;
    return true;
  }

  /** `verify_installed` changes nothing. */
  method VerifyInstalled(w: Workspace, m: Mutation) returns (ok: bool)
    requires w.Valid() && NativeEntry(m)
    ensures AtStage(w.fs, m, 5) ==> ok && AtStage(w.fs, m, 6)
  {
    if m.intent.kind == DeleteLeaf {
      if m.Path() in w.fs.names { return false; }
    } else if At(w.fs, m.Path()) != m.Target() || !OwnsPath(w.fs, m) {
      return false;
    }
    return At(w.fs, m.SourceName()) == m.Source();
  }

  // ---- the schedule ----

  ghost predicate AllAt(fs: Files, ms: seq<Mutation>, calls: seq<nat>)
    requires WellFormed(fs) && |calls| == |ms|
  {
    forall i :: 0 <= i < |ms| ==> AtStage(fs, ms[i], calls[i])
  }

  ghost predicate AllOnCourse(start: Files, fs: Files, ms: seq<Mutation>, calls: seq<nat>)
    requires WellFormed(start) && WellFormed(fs) && |calls| == |ms|
  {
    forall i :: 0 <= i < |ms| ==> OnCourse(start, fs, ms[i], calls[i])
  }

  ghost predicate AllUntouched(fs: Files, ms: seq<Mutation>)
    requires WellFormed(fs)
  {
    forall i :: 0 <= i < |ms| ==> Untouched(fs, ms[i])
  }

  lemma OthersKeepTheirCourse(start: Files, before: Files, after: Files, ms: seq<Mutation>, calls: seq<nat>, k: nat,
                              next: nat)
    requires WellFormed(start) && WellFormed(before) && WellFormed(after)
    requires Apart(ms) && k < |ms| == |calls| && AllOnCourse(start, before, ms, calls)
    requires SameElsewhere(before, after, ms[k].Names()) && KeepsPrivate(before, after, ms[k].Names())
    requires OnCourse(start, after, ms[k], next)
    ensures AllOnCourse(start, after, ms, calls[k := next])
  {
    hide OnCourse, Mutation.Names;
    forall i | 0 <= i < |ms| && i != k
      ensures OnCourse(start, after, ms[i], calls[i])
    {
      assert ms[k].Names() !! ms[i].Names();
      CourseFrame(start, before, after, ms[k].Names(), ms[i], calls[i]);
    }
  }

  /** System calls still to be made before every entry of the range has reached the mark. */
  ghost function Left(calls: seq<nat>, lo: nat, hi: nat, mark: nat): nat
    requires lo <= hi <= |calls|
    decreases hi - lo
  {
    if lo == hi then 0 else (if calls[lo] < mark then mark - calls[lo] else 0) + Left(calls, lo + 1, hi, mark)
  }

  lemma {:induction false} OneCallLess(calls: seq<nat>, lo: nat, hi: nat, mark: nat, k: nat)
    requires lo <= k < hi <= |calls| && calls[k] < mark
    ensures Left(calls[k := calls[k] + 1], lo, hi, mark) < Left(calls, lo, hi, mark)
    decreases hi - lo
  {
    if lo == k {
      SameLeft(calls, calls[k := calls[k] + 1], lo + 1, hi, mark);
    } else {
      OneCallLess(calls, lo + 1, hi, mark, k);
    }
  }

  lemma {:induction false} SameLeft(calls: seq<nat>, more: seq<nat>, lo: nat, hi: nat, mark: nat)
    requires lo <= hi <= |calls| == |more| && calls[lo..hi] == more[lo..hi]
    ensures Left(calls, lo, hi, mark) == Left(more, lo, hi, mark)
    decreases hi - lo
  {
    if lo < hi {
      assert calls[lo..hi][0] == more[lo..hi][0];
      assert calls[lo..hi][1..] == calls[lo + 1..hi] && more[lo..hi][1..] == more[lo + 1..hi];
      SameLeft(calls, more, lo + 1, hi, mark);
    }
  }

  predicate Unfinished(calls: seq<nat>, k: nat, mark: nat) {
    k < |calls| && calls[k] < mark
  }

  ghost predicate WithinPlan(ms: seq<Mutation>, calls: seq<nat>, partials: seq<Leaf>) {
    && Apart(ms) && |calls| == |partials| == |ms|
    && (forall i :: 0 <= i < |ms| ==> NativeEntry(ms[i]) && calls[i] <= FINISHED && partials[i].File?)
  }

  /** One worker makes the next system call of entry `k`. */
  method WorkerCall(w: Workspace, ms: seq<Mutation>, calls: seq<nat>, k: nat, partials: seq<Leaf>, ghost start: Files)
    returns (ok: bool)
    requires w.Valid() && WithinPlan(ms, calls, partials) && k < |ms| && calls[k] < FINISHED && WellFormed(start)
    modifies w`fs
    ensures w.Valid()
    ensures AllOnCourse(start, old(w.fs), ms, calls) ==>
            && AllOnCourse(start, w.fs, ms, if ok then calls[k := calls[k] + 1] else calls)
            && (Untouched(start, ms[k]) ==> ok)
  {
    hide OnCourse;
    ok := NextCall(w, ms[k], calls[k], partials[k], start);
    if AllOnCourse(start, old(w.fs), ms, calls) {
      OthersKeepTheirCourse(start, old(w.fs), w.fs, ms, calls, k, if ok then calls[k] + 1 else calls[k]);
      assert calls[k := calls[k]] == calls;
    }
  }

  /** What a phase can be sure of: an entry that has got beyond its target artifact was as planned. */
  lemma BeyondTheArtifact(start: Files, fs: Files, ms: seq<Mutation>, calls: seq<nat>, lo: nat, hi: nat, mark: nat)
    requires WellFormed(start) && WellFormed(fs) && |calls| == |ms| && lo <= hi <= |ms| && mark > 2
    requires AllOnCourse(start, fs, ms, calls) && forall i :: lo <= i < hi ==> calls[i] >= mark
    ensures forall i :: lo <= i < hi ==> Untouched(start, ms[i])
  {
    assert forall i :: lo <= i < hi ==> OnCourse(start, fs, ms[i], calls[i]);
  }

  /** A phase has taken some entries of its range on, none beyond the mark. */
  ghost predicate Advanced(from: seq<nat>, calls: seq<nat>, lo: nat, hi: nat, mark: nat) {
    && lo <= hi <= |from| == |calls|
    && (forall i :: 0 <= i < |from| && !(lo <= i < hi) ==> calls[i] == from[i])
    && forall i :: lo <= i < hi ==> calls[i] >= from[i] && (from[i] <= mark ==> calls[i] <= mark)
  }

  lemma OneFurther(ms: seq<Mutation>, from: seq<nat>, calls: seq<nat>, lo: nat, hi: nat, mark: nat, k: nat,
                   partials: seq<Leaf>)
    requires Advanced(from, calls, lo, hi, mark) && lo <= k < hi && calls[k] < mark <= FINISHED
    requires WithinPlan(ms, calls, partials)
    ensures Advanced(from, calls[k := calls[k] + 1], lo, hi, mark) && WithinPlan(ms, calls[k := calls[k] + 1], partials)
  {
    hide Apart, NativeEntry;
  }

  /** `parallel`: workers take the entries of the batch to the mark, in any interleaving of their system calls. The
      first refusal ends the phase, and there is one only if an entry does not hold what the plan says. */
  method RunPhase(w: Workspace, ms: seq<Mutation>, from: seq<nat>, lo: nat, hi: nat, mark: nat, partials: seq<Leaf>,
                  ghost start: Files)
    returns (o: Outcome, calls: seq<nat>)
    requires w.Valid() && WithinPlan(ms, from, partials) && lo <= hi <= |ms| && mark <= FINISHED && WellFormed(start)
    modifies w`fs, w`script
    ensures w.Valid() && WithinPlan(ms, calls, partials)
    ensures forall i :: 0 <= i < |ms| && !(lo <= i < hi) ==> calls[i] == from[i]
    ensures forall i :: lo <= i < hi ==>
            calls[i] >= from[i] && (from[i] <= mark ==> calls[i] <= mark) && (o == Done ==> calls[i] >= mark)
    ensures NoOutsiders(old(w.script)) && AllOnCourse(start, old(w.fs), ms, from) ==>
            && NoOutsiders(w.script) && AllOnCourse(start, w.fs, ms, calls)
            && (o == Refused ==> exists i :: lo <= i < hi && !Untouched(start, ms[i]))
            && (o == Done && mark > 2 ==> forall i :: lo <= i < hi ==> Untouched(start, ms[i]))
    ensures Stops(w.script) + Spent(o) == Stops(old(w.script))
  {
    hide Left, AllOnCourse, Stops, Quarantine.Untouched, WithinPlan, Advanced;
    calls := from;
    NothingAdvanced(ms, from, lo, hi, mark, partials);
    while exists k :: lo <= k < hi && Unfinished(calls, k, mark)
      invariant w.Valid() && WithinPlan(ms, calls, partials) && Advanced(from, calls, lo, hi, mark)
      invariant |calls| == |ms| && Stops(w.script) == Stops(old(w.script))
      invariant NoOutsiders(old(w.script)) && AllOnCourse(start, old(w.fs), ms, from) ==>
                NoOutsiders(w.script) && AllOnCourse(start, w.fs, ms, calls)
      decreases Left(calls, lo, hi, mark)
    {
      AsAdvanced(from, calls, lo, hi, mark);
      var e := w.Tick();
      if e.Stop? { return Stopped, calls; }
      var k :| lo <= k < hi && Unfinished(calls, k, mark);
      var ok := WorkerCall(w, ms, calls, k, partials, start);
      if !ok { return Refused, calls; }
      OneCallLess(calls, lo, hi, mark, k);
      OneFurther(ms, from, calls, lo, hi, mark, k, partials);
      calls := calls[k := calls[k] + 1];
    }
    AsAdvanced(from, calls, lo, hi, mark);
    forall i | lo <= i < hi
      ensures calls[i] >= mark
    {
      assert !Unfinished(calls, i, mark);
    }
    o := Done;
    if mark > 2 && AllOnCourse(start, w.fs, ms, calls) { BeyondTheArtifact(start, w.fs, ms, calls, lo, hi, mark); }
  }

  lemma NothingAdvanced(ms: seq<Mutation>, from: seq<nat>, lo: nat, hi: nat, mark: nat, partials: seq<Leaf>)
    requires WithinPlan(ms, from, partials) && lo <= hi <= |ms|
    ensures |from| == |ms| && Advanced(from, from, lo, hi, mark)
  {
  }

  lemma AsAdvanced(from: seq<nat>, calls: seq<nat>, lo: nat, hi: nat, mark: nat)
    requires Advanced(from, calls, lo, hi, mark)
    ensures forall i :: 0 <= i < |from| && !(lo <= i < hi) ==> calls[i] == from[i]
    ensures forall i :: lo <= i < hi ==> calls[i] >= from[i] && (from[i] <= mark ==> calls[i] <= mark)
  {
  }

  // ---- the directories above the entries ----

  const MAX_PARENTS := 128

  predicate Below(a: string, b: string) {
    a + "/" <= b
  }

  /** `parent_paths`. */
  function ParentPaths(path: string): set<string> {
    set i | 0 <= i < |path| && path[i] == '/' :: path[..i]
  }

  /** These are the directories above the path. */
  lemma ParentsAreAbove(path: string, a: string)
    ensures a in ParentPaths(path) <==> Below(a, path)
  {
    if Below(a, path) {
      assert path[|a|] == '/' && path[..|a|] == a;
    }
  }

  /** The directories held open for the entries from `lo` up to `hi`. */
  function Handles(ms: seq<Mutation>, lo: nat, hi: nat): set<string>
    requires lo <= hi <= |ms|
    decreases hi - lo
  {
    if lo == hi then {} else Handles(ms, lo, hi - 1) + ParentPaths(ms[hi - 1].Path())
  }

  lemma {:induction false} HandlesAreAbove(ms: seq<Mutation>, lo: nat, hi: nat, a: string)
    requires lo <= hi <= |ms|
    ensures a in Handles(ms, lo, hi) <==> exists i :: lo <= i < hi && Below(a, ms[i].Path())
    decreases hi - lo
  {
    if lo < hi {
      HandlesAreAbove(ms, lo, hi - 1, a);
      ParentsAreAbove(ms[hi - 1].Path(), a);
      hide ParentPaths, Below;
    }
  }

  lemma {:induction false} HandlesGrow(ms: seq<Mutation>, lo: nat, mid: nat, hi: nat)
    requires lo <= mid <= hi <= |ms|
    ensures Handles(ms, lo, mid) <= Handles(ms, lo, hi)
    decreases hi - mid
  {
    hide ParentPaths;
    if mid < hi { HandlesGrow(ms, lo, mid, hi - 1); }
  }

  lemma SmallerSet(a: set<string>, b: set<string>)
    requires a <= b
    ensures |a| <= |b|
  {
    assert b == a + (b - a);
  }

  /** `open_parent` for one entry: one handle for each directory that has none, and never more than the limit. */
  method OpenAll(parents: set<string>, above: set<string>) returns (ok: bool, held: set<string>)
    requires |parents| <= MAX_PARENTS
    ensures ok <==> |parents + above| <= MAX_PARENTS
    ensures ok ==> held == parents + above
  {
    held := parents;
    var missing := above - parents;
    while missing != {}
      invariant parents <= held && held + missing == parents + above && held !! missing && |held| <= MAX_PARENTS
      decreases |missing|
    {
      var parent :| parent in missing;
      if |held| >= MAX_PARENTS {
        SmallerSet(held + {parent}, parents + above);
        return false, held;
      }
      held, missing := held + {parent}, missing - {parent};
    }
    return true, held;
  }

  /** The handles of a batch. */
  method OpenParents(ms: seq<Mutation>, lo: nat, hi: nat) returns (ok: bool)
    requires lo <= hi <= |ms|
    ensures ok <==> |Handles(ms, lo, hi)| <= MAX_PARENTS
  {
    hide ParentPaths;
    var parents: set<string> := {};
    for i := lo to hi
      invariant parents == Handles(ms, lo, i) && |parents| <= MAX_PARENTS
    {
      ok, parents := OpenAll(parents, ParentPaths(ms[i].Path()));
      if !ok {
        HandlesGrow(ms, lo, i + 1, hi);
        SmallerSet(Handles(ms, lo, i + 1), Handles(ms, lo, hi));
        return;
      }
    }
    return true;
  }

  /** The batches of `run_restore`: batch `b` holds the entries from `cuts[b]` up to `cuts[b + 1]`. */
  ghost predicate Cuts(cuts: seq<nat>, n: nat) {
    && |cuts| > 0 && cuts[0] == 0 && cuts[|cuts| - 1] == n
    && (forall c :: c in cuts ==> c <= n)
    && forall a, b :: 0 <= a < b < |cuts| ==> cuts[a] <= cuts[b]
  }

  /** Every batch gets by with the handles there are. */
  ghost predicate Fitting(ms: seq<Mutation>, cuts: seq<nat>)
    requires Cuts(cuts, |ms|)
  {
    forall b :: 0 <= b < |cuts| - 1 ==> cuts[b] < cuts[b + 1] && |Handles(ms, cuts[b], cuts[b + 1])| <= MAX_PARENTS
  }

  /** No batch could have taken the first entry of the next. */
  ghost predicate Greedy(ms: seq<Mutation>, cuts: seq<nat>)
    requires Cuts(cuts, |ms|)
  {
    forall b :: 0 < b < |cuts| - 1 ==> cuts[b] < |ms| && |Handles(ms, cuts[b - 1], cuts[b] + 1)| > MAX_PARENTS
  }

  ghost predicate ShallowEnough(ms: seq<Mutation>, n: nat)
    requires n <= |ms|
  {
    forall i :: 0 <= i < n ==> |ParentPaths(ms[i].Path())| <= MAX_PARENTS
  }

  /** The entries before the batch are finished, those after it untouched. */
  ghost predicate InBatch(calls: seq<nat>, lo: nat, hi: nat)
    requires lo <= hi <= |calls|
  {
    (forall i :: 0 <= i < lo ==> calls[i] == FINISHED) && (forall i :: hi <= i < |calls| ==> calls[i] == 0)
  }

  /** The phases of one batch. */
  method RunBatch(w: Workspace, ms: seq<Mutation>, from: seq<nat>, lo: nat, hi: nat, partials: seq<Leaf>,
                  ghost start: Files)
    returns (o: Outcome, calls: seq<nat>)
    requires w.Valid() && WithinPlan(ms, from, partials) && lo <= hi <= |ms| && InBatch(from, lo, hi)
             && WellFormed(start)
    requires forall i :: lo <= i < hi ==> from[i] == 0
    modifies w`fs, w`script
    ensures w.Valid() && WithinPlan(ms, calls, partials) && InBatch(calls, lo, hi)
    ensures o == Done ==> forall i :: lo <= i < hi ==> calls[i] == FINISHED
    ensures NoOutsiders(old(w.script)) && AllOnCourse(start, old(w.fs), ms, from) ==>
            && NoOutsiders(w.script) && AllOnCourse(start, w.fs, ms, calls)
            && (o == Refused ==> exists i :: lo <= i < hi && !Untouched(start, ms[i]))
            && (o == Done ==> forall i :: lo <= i < hi ==> Untouched(start, ms[i]))
    ensures Stops(w.script) + Spent(o) == Stops(old(w.script))
  {
    hide AllOnCourse, WithinPlan, NoOutsiders, Stops, Quarantine.Untouched;
    calls := from;
    assert |calls| == |ms| by { PlanLength(ms, calls, partials); }
    for p := 0 to |PHASES|
      invariant w.Valid() && WithinPlan(ms, calls, partials) && |calls| == |ms| && InBatch(calls, lo, hi)
      invariant Stops(w.script) == Stops(old(w.script))
      invariant NoOutsiders(old(w.script)) && AllOnCourse(start, old(w.fs), ms, from) ==>
                && NoOutsiders(w.script) && AllOnCourse(start, w.fs, ms, calls)
                && (p > 1 ==> forall i :: lo <= i < hi ==> Untouched(start, ms[i]))
      invariant forall i :: lo <= i < hi ==> calls[i] == if p == 0 then 0 else PHASES[p - 1]
    {
      o, calls := RunPhase(w, ms, calls, lo, hi, PHASES[p], partials, start);
      PlanLength(ms, calls, partials);
      if o != Done { return; }
    }
    o := Done;
  }

  lemma PlanLength(ms: seq<Mutation>, calls: seq<nat>, partials: seq<Leaf>)
    requires WithinPlan(ms, calls, partials)
    ensures |calls| == |ms|
  {
  }

  lemma EverythingBegins(fs: Files, ms: seq<Mutation>)
    requires WellFormed(fs)
    ensures AllOnCourse(fs, fs, ms, seq(|ms|, _ => 0))
  {
  }

  /** With every entry as planned, each is at a stage. */
  lemma UntouchedAreAtStages(start: Files, fs: Files, ms: seq<Mutation>, calls: seq<nat>)
    requires WellFormed(start) && WellFormed(fs) && |calls| == |ms|
    requires AllUntouched(start, ms) && AllOnCourse(start, fs, ms, calls)
    ensures AllAt(fs, ms, calls)
  {
    hide AtStage, Quarantine.Untouched, Halted;
    forall i | 0 <= i < |ms|
      ensures AtStage(fs, ms[i], calls[i])
    {
      assert OnCourse(start, fs, ms[i], calls[i]);
    }
  }

  /** `run_restore`: batch after batch, phase after phase. Stopped anywhere, every entry is at a stage of its own, the
      batches before the current one are finished and those after it untouched. Whatever the names held, it is refused
      only over an entry that does not hold what the plan says, and it is done only if all of them do. */
  method RunRestore(w: Workspace, ms: seq<Mutation>, cuts: seq<nat>, partials: seq<Leaf>)
    returns (o: Outcome, calls: seq<nat>, batch: nat)
    requires w.Valid() && Cuts(cuts, |ms|) && WithinPlan(ms, seq(|ms|, _ => 0), partials)
    modifies w`fs, w`script
    ensures w.Valid() && WithinPlan(ms, calls, partials)
    ensures o == Done ==> forall i :: 0 <= i < |ms| ==> calls[i] == FINISHED
    ensures o != Done ==>
            batch + 1 < |cuts| && cuts[batch] <= cuts[batch + 1] <= |calls|
              && InBatch(calls, cuts[batch], cuts[batch + 1])
    ensures NoOutsiders(old(w.script)) ==>
            && NoOutsiders(w.script) && AllOnCourse(old(w.fs), w.fs, ms, calls)
            && (o == Done ==> AllUntouched(old(w.fs), ms))
            && (o == Refused && Fitting(ms, cuts) ==> !AllUntouched(old(w.fs), ms))
    ensures Stops(w.script) + Spent(o) == Stops(old(w.script))
  {
    hide NativeEntry, Quarantine.Untouched, AllOnCourse, Stops, WithinPlan, Handles, ParentPaths, Mutation.Names;
    calls, batch := seq(|ms|, _ => 0), 0;
    EverythingBegins(w.fs, ms);
    while batch < |cuts| - 1
      invariant batch < |cuts| && w.Valid() && WithinPlan(ms, calls, partials) && |calls| == |ms| && cuts[batch] <= |ms|
      invariant Stops(w.script) == Stops(old(w.script))
      invariant NoOutsiders(old(w.script)) ==>
                && NoOutsiders(w.script) && AllOnCourse(old(w.fs), w.fs, ms, calls)
                && forall i :: 0 <= i < cuts[batch] ==> Untouched(old(w.fs), ms[i])
      invariant forall i :: 0 <= i < cuts[batch] ==> calls[i] == FINISHED
      invariant forall i :: cuts[batch] <= i < |ms| ==> calls[i] == 0
    {
      var room := OpenParents(ms, cuts[batch], cuts[batch + 1]);
      if !room {
        o := Refused;
        return;
      }
      o, calls := RunBatch(w, ms, calls, cuts[batch], cuts[batch + 1], partials, old(w.fs));
      PlanLength(ms, calls, partials);
      if o != Done { return; }
      batch := batch + 1;
    }
    o := Done;
  }

  // ---- the request ----

  ghost predicate NamesApart(ms: seq<Mutation>, n: nat)
    requires n <= |ms|
  {
    forall i, j :: 0 <= i < j < n ==> ms[i].Names() !! ms[j].Names()
  }

  /** The names reserved by the first `n` entries. */
  ghost predicate Reserved(reserved: set<string>, ms: seq<Mutation>, n: nat)
    requires n <= |ms|
  {
    && (forall j :: 0 <= j < n ==> ms[j].Names() <= reserved)
    && (forall name :: name in reserved ==> exists j :: 0 <= j < n && name in ms[j].Names())
  }

  lemma ReserveOneMore(reserved: set<string>, ms: seq<Mutation>, n: nat)
    requires n < |ms| && Reserved(reserved, ms, n) && NamesApart(ms, n)
    ensures Reserved(reserved + ms[n].Names(), ms, n + 1)
    ensures ms[n].Names() !! reserved <==> NamesApart(ms, n + 1)
  {
    hide Mutation.Names;
    if NamesApart(ms, n + 1) {
      forall name | name in reserved
        ensures name !in ms[n].Names()
      {
        var j :| 0 <= j < n && name in ms[j].Names();
        assert ms[j].Names() !! ms[n].Names();
      }
    }
    forall name | name in reserved + ms[n].Names()
      ensures exists j :: 0 <= j < n + 1 && name in ms[j].Names()
    {
      if name in reserved {
        var j :| 0 <= j < n && name in ms[j].Names();
      }
    }
  }

  lemma NothingReserved(ms: seq<Mutation>)
    ensures Reserved({}, ms, 0) && NamesApart(ms, 0)
  {
    hide Mutation.Names;
  }

  lemma ApartThroughout(ms: seq<Mutation>, n: nat)
    requires n <= |ms|
    ensures NamesApart(ms, |ms|) ==> NamesApart(ms, n)
  {
    hide Mutation.Names;
  }

  ghost predicate NoneBelow(ms: seq<Mutation>) {
    forall i, j, a, b :: 0 <= i < |ms| && 0 <= j < |ms| && a in ms[i].Names() && b in ms[j].Names() ==> !Below(a, b)
  }

  lemma ReservedBelow(reserved: set<string>, ms: seq<Mutation>)
    requires Reserved(reserved, ms, |ms|)
    ensures NoneBelow(ms) <==> forall b :: b in reserved ==> ParentPaths(b) !! reserved
  {
    hide Mutation.Names;
    if forall b :: b in reserved ==> ParentPaths(b) !! reserved {
      forall i, j, a, b | 0 <= i < |ms| && 0 <= j < |ms| && a in ms[i].Names() && b in ms[j].Names()
        ensures !Below(a, b)
      {
        assert a in reserved && b in reserved;
        ParentsAreAbove(b, a);
      }
    } else {
      var b :| b in reserved && !(ParentPaths(b) !! reserved);
      var a :| a in reserved && a in ParentPaths(b);
      ParentsAreAbove(b, a);
      var i :| 0 <= i < |ms| && a in ms[i].Names();
      var j :| 0 <= j < |ms| && b in ms[j].Names();
    }
  }

  /** The check that no two entries name the same path or artifact, and that none lies below another. */
  method ReserveNames(ms: seq<Mutation>) returns (ok: bool)
    ensures ok <==> NamesApart(ms, |ms|) && NoneBelow(ms)
  {
    var reserved: set<string> := {};
    NothingReserved(ms);
    hide Reserved, NamesApart, NoneBelow, Mutation.Names;
    for i := 0 to |ms|
      invariant Reserved(reserved, ms, i) && NamesApart(ms, i)
    {
      ReserveOneMore(reserved, ms, i);
      if !(ms[i].Names() !! reserved) {
        ApartThroughout(ms, i + 1);
        return false;
      }
      reserved := reserved + ms[i].Names();
    }
    ReservedBelow(reserved, ms);
    return forall path :: path in reserved ==> ParentPaths(path) !! reserved;
  }

  /** These entries fit into a batch, and the next one does not. */
  ghost predicate Full(ms: seq<Mutation>, lo: nat, hi: nat) {
    lo < hi < |ms| && |Handles(ms, lo, hi)| <= MAX_PARENTS < |Handles(ms, lo, hi + 1)|
  }

  /** Entries up to `n` are cut into full batches and a last one, with these directories above it. */
  ghost predicate CutSoFar(ms: seq<Mutation>, cuts: seq<nat>, parents: set<string>, n: nat)
    requires n <= |ms|
  {
    && |cuts| > 0 && cuts[0] == 0 && cuts[|cuts| - 1] <= n && (n > 0 ==> cuts[|cuts| - 1] < n)
    && (forall a, b :: 0 <= a < b < |cuts| ==> cuts[a] <= cuts[b])
    && (forall b :: 0 <= b < |cuts| - 1 ==> Full(ms, cuts[b], cuts[b + 1]))
    && parents == Handles(ms, cuts[|cuts| - 1], n) && |parents| <= MAX_PARENTS
  }

  lemma TakeIn(ms: seq<Mutation>, cuts: seq<nat>, parents: set<string>, n: nat)
    requires n < |ms| && CutSoFar(ms, cuts, parents, n)
    ensures var more := parents + ParentPaths(ms[n].Path());
            |more| <= MAX_PARENTS ==> CutSoFar(ms, cuts, more, n + 1)
  {
    hide ParentPaths;
  }

  lemma BatchIsFull(ms: seq<Mutation>, lo: nat, n: nat, parents: set<string>)
    requires lo < n < |ms| && parents == Handles(ms, lo, n) && |parents| <= MAX_PARENTS
    requires |parents + ParentPaths(ms[n].Path())| > MAX_PARENTS
    ensures Full(ms, lo, n) && Handles(ms, n, n + 1) == ParentPaths(ms[n].Path())
  {
    hide ParentPaths;
    var none: set<string>, own := {}, ParentPaths(ms[n].Path());
    assert none + own == own && Handles(ms, n, n) == none;
  }

  lemma CutBefore(ms: seq<Mutation>, cuts: seq<nat>, parents: set<string>, n: nat)
    requires n < |ms| && CutSoFar(ms, cuts, parents, n) && cuts[|cuts| - 1] < n
    requires |parents + ParentPaths(ms[n].Path())| > MAX_PARENTS && |ParentPaths(ms[n].Path())| <= MAX_PARENTS
    ensures CutSoFar(ms, cuts + [n], ParentPaths(ms[n].Path()), n + 1)
  {
    hide ParentPaths, Full, Handles;
    BatchIsFull(ms, cuts[|cuts| - 1], n, parents);
    var more := cuts + [n];
    forall b | 0 <= b < |more| - 1
      ensures Full(ms, more[b], more[b + 1])
    {
      assert b < |cuts| - 1 ==> more[b + 1] == cuts[b + 1];
    }
  }

  lemma AllCut(ms: seq<Mutation>, cuts: seq<nat>, parents: set<string>)
    requires ms != [] && CutSoFar(ms, cuts, parents, |ms|)
    ensures Cuts(cuts + [|ms|], |ms|)
  {
    assert forall k :: 0 <= k < |cuts| ==> cuts[k] <= |ms|;
    hide Handles, Full;
  }

  lemma LastCutFits(ms: seq<Mutation>, cuts: seq<nat>, parents: set<string>)
    requires ms != [] && CutSoFar(ms, cuts, parents, |ms|) && Cuts(cuts + [|ms|], |ms|)
    ensures Fitting(ms, cuts + [|ms|])
  {
    hide Handles;
    var all := cuts + [|ms|];
    forall b | 0 <= b < |all| - 1
      ensures all[b] < all[b + 1] && |Handles(ms, all[b], all[b + 1])| <= MAX_PARENTS
    {
      if b < |cuts| - 1 { assert Full(ms, cuts[b], cuts[b + 1]); }
    }
  }

  lemma LastCutIsGreedy(ms: seq<Mutation>, cuts: seq<nat>, parents: set<string>)
    requires ms != [] && CutSoFar(ms, cuts, parents, |ms|) && Cuts(cuts + [|ms|], |ms|)
    ensures Greedy(ms, cuts + [|ms|])
  {
    hide Handles;
    var all := cuts + [|ms|];
    forall b | 0 < b < |all| - 1
      ensures all[b] < |ms| && |Handles(ms, all[b - 1], all[b] + 1)| > MAX_PARENTS
    {
      assert Full(ms, cuts[b - 1], cuts[b]);
    }
  }

  lemma LastCut(ms: seq<Mutation>, cuts: seq<nat>, parents: set<string>)
    requires ms != [] && CutSoFar(ms, cuts, parents, |ms|)
    ensures var all := cuts + [|ms|]; Cuts(all, |ms|) && Fitting(ms, all) && Greedy(ms, all)
  {
    hide Cuts, Fitting, Greedy, CutSoFar;
    AllCut(ms, cuts, parents);
    LastCutFits(ms, cuts, parents);
    LastCutIsGreedy(ms, cuts, parents);
  }

  lemma NoCut(ms: seq<Mutation>, cuts: seq<nat>, parents: set<string>)
    requires ms == [] && CutSoFar(ms, cuts, parents, 0)
    ensures Cuts(cuts, 0) && Fitting(ms, cuts) && Greedy(ms, cuts)
  {
    assert |cuts| > 1 ==> Full(ms, cuts[0], cuts[1]);
  }

  lemma NothingCut(ms: seq<Mutation>)
    ensures CutSoFar(ms, [0], {}, 0)
  {
  }

  lemma CutsStand(ms: seq<Mutation>, cuts: seq<nat>, parents: set<string>, n: nat)
    requires n <= |ms| && CutSoFar(ms, cuts, parents, n)
    ensures |cuts| > 0 && cuts[|cuts| - 1] <= n
    ensures cuts[|cuts| - 1] == n ==> parents == {}
  {
  }

  lemma AddedParents(parents: set<string>, above: set<string>)
    ensures |parents + above| == |parents| + |above - parents|
    ensures parents == {} ==> parents + above == above
  {
    assert parents + above == parents + (above - parents);
  }

  /** The batches: each takes entries while their directories fit into the handles. */
  method CutBatches(ms: seq<Mutation>) returns (ok: bool, cuts: seq<nat>)
    ensures ok <==> ShallowEnough(ms, |ms|)
    ensures ok ==> Cuts(cuts, |ms|) && Fitting(ms, cuts) && Greedy(ms, cuts)
  {
    hide ParentPaths, Fitting, Greedy, Cuts, Handles, CutSoFar;
    cuts := [0];
    var parents: set<string> := {};
    NothingCut(ms);
    for i := 0 to |ms|
      invariant CutSoFar(ms, cuts, parents, i) && ShallowEnough(ms, i)
    {
      var above := ParentPaths(ms[i].Path());
      if |above| > MAX_PARENTS { return false, cuts; }
      CutsStand(ms, cuts, parents, i);
      AddedParents(parents, above);
      if i > cuts[|cuts| - 1] && |parents| + |above - parents| > MAX_PARENTS {
        CutBefore(ms, cuts, parents, i);
        cuts, parents := cuts + [i], above;
      } else {
        TakeIn(ms, cuts, parents, i);
        parents := parents + above;
      }
    }
    if ms == [] {
      NoCut(ms, cuts, parents);
      return true, cuts;
    }
    LastCut(ms, cuts, parents);
    return true, cuts + [|ms|];
  }

  ghost predicate Acceptable(ms: seq<Mutation>) {
    && NamesApart(ms, |ms|) && NoneBelow(ms) && ShallowEnough(ms, |ms|)
    && forall i :: 0 <= i < |ms| ==> NativeEntry(ms[i])
  }

  /** The whole request: entries that overlap, lie too deep, or that the batch does not support, are turned down before
      anything changes. Otherwise, unless a stop ends it, the request is done if and only if every entry holds what the
      plan says. An entry that does not keeps its path and its source artifact as they were, and the entries under way
      are those of one batch within the limit. Ordinals number the entries. */
  method RunRequest(w: Workspace, ms: seq<Mutation>, partials: seq<Leaf>) returns (o: Outcome, calls: seq<nat>)
    requires w.Valid() && |partials| == |ms| && forall i :: 0 <= i < |ms| ==> partials[i].File?
    requires forall i, j :: 0 <= i < j < |ms| ==> ms[i].ordinal != ms[j].ordinal
    modifies w`fs, w`script
    ensures w.Valid() && |calls| == |ms|
    ensures !Acceptable(ms) ==>
            o == Refused && w.fs == old(w.fs) && w.script == old(w.script) && calls == seq(|ms|, _ => 0)
    ensures Acceptable(ms) && NoOutsiders(old(w.script)) ==>
            && NoOutsiders(w.script) && AllOnCourse(old(w.fs), w.fs, ms, calls)
            && (o != Stopped ==> (o == Done <==> AllUntouched(old(w.fs), ms)))
            && (o == Done ==> forall i :: 0 <= i < |ms| ==> Installed(w.fs, ms[i]) && calls[i] == FINISHED)
            && forall i :: 0 <= i < |ms| && !Untouched(old(w.fs), ms[i]) ==>
                 && At(w.fs, ms[i].Path()) == At(old(w.fs), ms[i].Path())
                 && At(w.fs, ms[i].SourceName()) == At(old(w.fs), ms[i].SourceName())
    ensures Acceptable(ms) && o != Done ==>
            exists lo, hi :: 0 <= lo <= hi <= |ms| && InBatch(calls, lo, hi) && |Handles(ms, lo, hi)| <= MAX_PARENTS
    ensures Stops(w.script) + Spent(o) == Stops(old(w.script))
  {
    hide Handles, ParentPaths, Mutation.Names, NoneBelow, AllOnCourse, AllUntouched, Installed, Quarantine.Untouched,
      Stops;
    calls := seq(|ms|, _ => 0);
    var apart := ReserveNames(ms);
    var fits, cuts := CutBatches(ms);
    if !apart || !fits || exists i :: 0 <= i < |ms| && !NativeEntry(ms[i]) { return Refused, calls; }
    var batch;
    o, calls, batch := RunRestore(w, ms, cuts, partials);
    if NoOutsiders(old(w.script)) { WhatEntriesHold(old(w.fs), w.fs, ms, calls); }
    if o != Done {
      assert InBatch(calls, cuts[batch], cuts[batch + 1])
             && |Handles(ms, cuts[batch], cuts[batch + 1])| <= MAX_PARENTS;
    }
  }

  lemma WhatEntriesHold(start: Files, fs: Files, ms: seq<Mutation>, calls: seq<nat>)
    requires WellFormed(start) && WellFormed(fs) && |calls| == |ms| && AllOnCourse(start, fs, ms, calls)
    ensures forall i :: 0 <= i < |ms| && !Untouched(start, ms[i]) ==>
              At(fs, ms[i].Path()) == At(start, ms[i].Path())
                && At(fs, ms[i].SourceName()) == At(start, ms[i].SourceName())
    ensures AllUntouched(start, ms) && (forall i :: 0 <= i < |ms| ==> calls[i] == FINISHED) ==>
              forall i :: 0 <= i < |ms| ==> Installed(fs, ms[i])
  {
    forall i | 0 <= i < |ms|
      ensures OnCourse(start, fs, ms[i], calls[i])
    {
    }
    hide Quarantine.Untouched, Installed;
  }
}
