/** Undoing a native batch from its pack, whose bytes make the source leaf available even when no artifact holds it. */
module PackedRecovery {
  import opened Wrappers
  import opened Mutations
  import opened FileSystem
  import opened Quarantine
  import opened QuarantineBatch
  import opened NativeBatch

  ghost predicate ArtifactsFit(fs: Files, m: Mutation)
    requires WellFormed(fs)
  {
    && (At(fs, m.SourceName()) == Absent || At(fs, m.SourceName()) == m.Source())
    && (TargetArtifact(fs, m) == Absent || TargetArtifact(fs, m) == m.Target())
  }

  /** Exactly when the packed rollback of one record goes through. */
  ghost predicate Reversible(fs: Files, state: MutationState, m: Mutation)
    requires WellFormed(fs)
  {
    var path := At(fs, m.Path());
    && ArtifactsFit(fs, m)
    && if m.intent.kind == DeleteLeaf then state != CLEANED && (path == Absent || path == m.Source())
       else (path == Absent || path == m.Source() || path == m.Target()) && (path == m.Target() ==> OwnsPath(fs, m))
  }

  /** Stopped while the source's bytes were being written under the path. */
  ghost predicate HalfWritten(fs: Files, m: Mutation)
    requires WellFormed(fs)
  {
    ArtifactsFit(fs, m) && At(fs, m.Path()).File?
  }

  /** Whatever stage an entry was stopped at, it can be undone, unless its target artifact is half written. */
  lemma StagesAreReversible(fs: Files, state: MutationState, m: Mutation, calls: nat)
    requires WellFormed(fs) && NativeEntry(m) && m.Source() != m.Target() && AtStage(fs, m, calls)
    requires m.intent.kind == DeleteLeaf ==> state != CLEANED
    ensures Reversible(fs, state, m) <==>
            !(calls == 1 && m.intent.kind == WriteFile && TargetArtifact(fs, m) != m.Target())
  {
  }

  // ---- the steps of one record's rollback ----

  /** The next step of a record: its checks, then what they leave to do, in this order. */
  datatype Stage = Waiting | Unlinking | Creating | Writing | DroppingSource | DroppingTarget | Finished | Refusing

  function StepsLeft(stage: Stage): nat {
    match stage
    case Waiting => 6
    case Unlinking => 5
    case Creating => 4
    case Writing => 3
    case DroppingSource => 2
    case DroppingTarget => 1
    case _ => 0
  }

  predicate Busy(stage: Stage) {
    stage !in {Waiting, Finished, Refusing}
  }

  /** What a record under rollback has at its names. */
  ghost predicate RollingBack(fs: Files, state: MutationState, m: Mutation, stage: Stage)
    requires WellFormed(fs)
  {
    && (Busy(stage) ==> ArtifactsFit(fs, m))
    && (Busy(stage) || stage == Finished ==> m.intent.kind == DeleteLeaf ==> state != CLEANED)
    && match stage
       case Unlinking => At(fs, m.Path()) == m.Target() && m.Target().File? && OwnsPath(fs, m)
       case Creating => At(fs, m.Path()) == Absent && m.Source().File?
       case Writing => At(fs, m.Path()).File? && Unshared(fs, m.Path()) && m.Source().File?
       case DroppingSource => At(fs, m.Path()) == m.Source()
       case DroppingTarget =>
         At(fs, m.Path()) == m.Source() && At(fs, m.SourceName()) == Absent && m.intent.kind == WriteFile
       case Finished => Restored(fs, m, m.Source())
       case _ => true
  }

  /** What a step makes of a record that is at `stage`. */
  ghost predicate StepTaken(before: Files, after: Files, state: MutationState, m: Mutation,
                            stage: Stage, next: Stage, o: Outcome)
    requires WellFormed(before) && WellFormed(after)
  {
    && SameElsewhere(before, after, m.Names()) && KeepsPrivate(before, after, m.Names())
    && (stage == Waiting ==> after == before)
    && (o == Refused ==> stage == Waiting && !Reversible(before, state, m))
    && (o == Done ==> (stage == Waiting ==> Reversible(before, state, m)) && RollingBack(after, state, m, next))
    && (o == Stopped ==> RollingBack(after, state, m, stage))
  }

  /** The checks before anything changes, and what they leave to do. */
  method CheckRecord(w: Workspace, m: Mutation) returns (o: Outcome, next: Stage)
    requires w.Valid() && NativeEntry(m) && m.ordinal in w.durable
    modifies w`fs, w`script
    ensures w.Valid() && w.script == Rest(old(w.script)) && (o == Stopped <==> Next(old(w.script)).Stop?)
    ensures o == Done ==> next in {Unlinking, Creating, DroppingSource}
    ensures NoOutsiders(old(w.script)) ==>
            && NoOutsiders(w.script) && w.fs == old(w.fs)
            && (o != Stopped ==> (o == Done <==> Reversible(w.fs, w.durable[m.ordinal], m)))
            && (o == Done ==> RollingBack(w.fs, w.durable[m.ordinal], m, next))
            && (o == Done && At(w.fs, m.Path()) == Absent && m.Source() != Absent ==> next == Creating)
            && (o == Done && At(w.fs, m.Path()) == m.Source() ==> next == DroppingSource)
    ensures Stops(w.script) + Spent(o) == Stops(old(w.script))
  {
    hide Stops;
    next := Refusing;
    var e := w.Tick();
    if e.Stop? { return Stopped, next; }
    var observed := At(w.fs, m.Path());
    if m.SourceName() in w.fs.names && (m.Source() == Absent || At(w.fs, m.SourceName()) != m.Source()) {
      return Refused, next;
    }
    if m.intent.kind == DeleteLeaf {
      if w.durable[m.ordinal] == CLEANED || (observed != Absent && observed != m.Source()) { return Refused, next; }
    } else {
      var target := m.intent.targetArtifact.value;
      if observed != Absent && observed != m.Source() && observed != m.Target() { return Refused, next; }
      if target in w.fs.names && At(w.fs, target) != m.Target() { return Refused, next; }
      if observed == m.Target() && (target !in w.fs.names || !OwnsPath(w.fs, m)) { return Refused, next; }
    }
    return Done, if observed == m.Source() then DroppingSource else if observed == Absent then Creating else Unlinking;
  }

  /** A step that a stop ended before it changed anything. */
  lemma NothingDone(fs: Files, state: MutationState, m: Mutation, stage: Stage, next: Stage)
    requires WellFormed(fs) && stage != Waiting && RollingBack(fs, state, m, stage)
    ensures StepTaken(fs, fs, state, m, stage, next, Stopped)
  {
    hide RollingBack;
  }

  lemma TargetUnlinked(before: Files, after: Files, state: MutationState, m: Mutation, next: Stage)
    requires WellFormed(before) && NativeEntry(m) && RollingBack(before, state, m, Unlinking)
    requires UnlinkCall(before, m.Path()) == Ok(after)
    requires next == if m.Source() == Absent then DroppingSource else Creating
    ensures WellFormed(after) && StepTaken(before, after, state, m, Unlinking, next, Done)
  {
    assert TargetArtifact(after, m) == TargetArtifact(before, m);
    assert m.Path() in m.Names();
  }

  lemma SourceCreated(before: Files, after: Files, state: MutationState, m: Mutation, leaf: Leaf)
    requires WellFormed(before) && NativeEntry(m) && RollingBack(before, state, m, Creating) && leaf.File?
    requires CreateCall(before, m.Path(), leaf) == Ok(after)
    ensures WellFormed(after) && StepTaken(before, after, state, m, Creating, Writing, Done)
  {
    assert TargetArtifact(after, m) == TargetArtifact(before, m);
    assert m.Path() in m.Names();
  }

  lemma SourceWritten(before: Files, after: Files, state: MutationState, m: Mutation, leaf: Leaf)
    requires WellFormed(before) && NativeEntry(m) && RollingBack(before, state, m, Writing) && leaf.File?
    requires m.Path() in before.names && after == WriteCall(before, m.Path(), leaf)
    ensures WellFormed(after) && StepTaken(before, after, state, m, Writing, DroppingSource, Stopped)
    ensures leaf == m.Source() ==> StepTaken(before, after, state, m, Writing, DroppingSource, Done)
  {
    assert TargetArtifact(after, m) == TargetArtifact(before, m);
    assert m.Path() in m.Names();
    assert Unshared(after, m.Path());
  }

  lemma ArtifactDropped(before: Files, after: Files, state: MutationState, m: Mutation, stage: Stage, next: Stage,
                        name: string)
    requires WellFormed(before) && WellFormed(after) && NativeEntry(m) && RollingBack(before, state, m, stage)
    requires stage == DroppingSource || (stage == DroppingTarget && m.intent.kind == WriteFile)
    requires name == if stage == DroppingSource then m.SourceName() else m.intent.targetArtifact.value
    requires next == if stage == DroppingSource && m.intent.kind == WriteFile then DroppingTarget else Finished
    requires SameElsewhere(before, after, {name}) && KeepsPrivate(before, after, {name}) && At(after, name) == Absent
    ensures StepTaken(before, after, state, m, stage, next, Done)
  {
    assert name in m.Names() && name != m.Path();
    assert stage == DroppingSource ==> TargetArtifact(after, m) == TargetArtifact(before, m);
  }

  /** Free the path of the installed target. */
  method UnlinkTarget(w: Workspace, m: Mutation) returns (o: Outcome, next: Stage)
    requires w.Valid() && NativeEntry(m) && m.ordinal in w.durable
    modifies w`fs, w`script, w`removed
    ensures w.Valid() && w.script == Rest(old(w.script)) && (o == Stopped <==> Next(old(w.script)).Stop?)
    ensures next in {Creating, DroppingSource}
    ensures NoOutsiders(old(w.script)) && RollingBack(old(w.fs), w.durable[m.ordinal], m, Unlinking) ==>
            NoOutsiders(w.script) && StepTaken(old(w.fs), w.fs, w.durable[m.ordinal], m, Unlinking, next, o)
    ensures Stops(w.script) + Spent(o) == Stops(old(w.script))
  {
    hide Stops, RollingBack, StepTaken;
    ghost var fs, state := w.fs, w.durable[m.ordinal];
    ghost var calm := NoOutsiders(w.script) && RollingBack(w.fs, state, m, Unlinking);
    next := if m.Source() == Absent then DroppingSource else Creating;
    var e := w.Tick();
    if e.Stop? {
      if calm { NothingDone(fs, state, m, Unlinking, next); }
      return Stopped, next;
    }
    if calm { HasPath(w.fs, state, m, Unlinking); }
    var ok := w.Unlink(m.Path());
    if calm { TargetUnlinked(fs, w.fs, state, m, next); }
    return if ok then Done else Refused, next;
  }

  lemma HasPath(fs: Files, state: MutationState, m: Mutation, stage: Stage)
    requires WellFormed(fs) && RollingBack(fs, state, m, stage) && stage in {Unlinking, Creating, Writing}
    ensures m.Path() in fs.names <==> stage != Creating
    ensures stage != Unlinking ==> m.Source().File?
    ensures stage == Writing ==> At(fs, m.Path()).File?
  {
  }

  /** The first half of `materialize`: a new file under the free path. */
  method CreateSource(w: Workspace, m: Mutation) returns (o: Outcome, next: Stage)
    requires w.Valid() && NativeEntry(m) && m.ordinal in w.durable
    modifies w`fs, w`script
    ensures w.Valid() && w.script == Rest(old(w.script)) && (o == Stopped <==> Next(old(w.script)).Stop?)
    ensures next == Writing
    ensures NoOutsiders(old(w.script)) && RollingBack(old(w.fs), w.durable[m.ordinal], m, Creating) ==>
            NoOutsiders(w.script) && StepTaken(old(w.fs), w.fs, w.durable[m.ordinal], m, Creating, next, o)
    ensures Stops(w.script) + Spent(o) == Stops(old(w.script))
  {
    hide Stops, RollingBack, StepTaken;
    ghost var fs, state := w.fs, w.durable[m.ordinal];
    ghost var calm := NoOutsiders(w.script) && RollingBack(w.fs, state, m, Creating);
    next := Writing;
    var e := w.Tick();
    if e.Stop? {
      if calm { NothingDone(fs, state, m, Creating, next); }
      return Stopped, next;
    }
    if calm { HasPath(w.fs, state, m, Creating); }
    if m.Source() == Absent { return Refused, next; }
    var empty := File("", m.Source().executable);
    var r := CreateCall(w.fs, m.Path(), empty);
    if r.Failed? { return Refused, next; }
    w.fs := r.value;
    if calm { SourceCreated(fs, w.fs, state, m, empty); }
    return Done, next;
  }

  /** The second half: the pack's bytes; a stop leaves some of them there. */
  method WriteSource(w: Workspace, m: Mutation) returns (o: Outcome, next: Stage)
    requires w.Valid() && NativeEntry(m) && m.ordinal in w.durable
    modifies w`fs, w`script
    ensures w.Valid() && w.script == Rest(old(w.script)) && (o == Stopped <==> Next(old(w.script)).Stop?)
    ensures next == DroppingSource
    ensures NoOutsiders(old(w.script)) && RollingBack(old(w.fs), w.durable[m.ordinal], m, Writing) ==>
            && NoOutsiders(w.script) && StepTaken(old(w.fs), w.fs, w.durable[m.ordinal], m, Writing, next, o)
            && (o == Stopped && Next(old(w.script)).torn.File? ==> At(w.fs, m.Path()) == Next(old(w.script)).torn)
    ensures Stops(w.script) + Spent(o) == Stops(old(w.script))
  {
    hide Stops, RollingBack, StepTaken;
    ghost var fs, state := w.fs, w.durable[m.ordinal];
    ghost var calm := NoOutsiders(w.script) && RollingBack(w.fs, state, m, Writing);
    next := DroppingSource;
    var e := w.Tick();
    if calm { HasPath(w.fs, state, m, Writing); }
    if m.Path() !in w.fs.names || m.Source() == Absent { return if e.Stop? then Stopped else Refused, next; }
    var written := if !e.Stop? then m.Source() else if e.torn.File? then e.torn else At(w.fs, m.Path());
    w.fs := WriteCall(w.fs, m.Path(), written);
    if calm { SourceWritten(fs, w.fs, state, m, written); }
    return if e.Stop? then Stopped else Done, next;
  }

  /** `cleanupArtifact`: a missing artifact is fine, another leaf is not. */
  method CleanupArtifact(w: Workspace, m: Mutation, name: string, expected: Leaf) returns (o: Outcome)
    requires w.Valid() && NativeEntry(m) && name != m.Path()
    modifies w`fs, w`script, w`removed
    ensures w.Valid() && w.script == Rest(old(w.script)) && (o == Stopped <==> Next(old(w.script)).Stop?)
    ensures NoOutsiders(old(w.script)) ==>
            && NoOutsiders(w.script) && SameElsewhere(old(w.fs), w.fs, {name}) && KeepsPrivate(old(w.fs), w.fs, {name})
            && (o == Done ==> At(w.fs, name) == Absent)
            && (o != Done ==> w.fs == old(w.fs))
            && (o != Stopped ==> (o == Done <==> At(old(w.fs), name) == Absent || At(old(w.fs), name) == expected))
    ensures Stops(w.script) + Spent(o) == Stops(old(w.script))
  {
    hide Stops, NativeEntry;
    var e := w.Tick();
    if e.Stop? { return Stopped; }
    if name !in w.fs.names { return Done; }
    if At(w.fs, name) != expected { return Refused; }
    var ok := w.Unlink(name);
    return Done;
  }

  lemma ArtifactsHaveTheirLeaves(fs: Files, state: MutationState, m: Mutation, stage: Stage)
    requires WellFormed(fs) && NativeEntry(m) && RollingBack(fs, state, m, stage)
             && stage in {DroppingSource, DroppingTarget}
    ensures At(fs, m.SourceName()) in {Absent, m.Source()}
    ensures m.intent.targetArtifact.Some? ==>
              At(fs, m.intent.targetArtifact.value) in {Absent, m.Target()} && m.intent.targetArtifact.value != m.Path()
    ensures m.SourceName() != m.Path()
  {
  }

  /** The artifacts, once the path shows the source again. */
  method DropArtifact(w: Workspace, m: Mutation, stage: Stage) returns (o: Outcome, next: Stage)
    requires w.Valid() && NativeEntry(m) && m.ordinal in w.durable && stage in {DroppingSource, DroppingTarget}
    requires stage == DroppingTarget ==> m.intent.kind == WriteFile
    modifies w`fs, w`script, w`removed
    ensures w.Valid() && w.script == Rest(old(w.script)) && (o == Stopped <==> Next(old(w.script)).Stop?)
    ensures next == if stage == DroppingSource && m.intent.kind == WriteFile then DroppingTarget else Finished
    ensures NoOutsiders(old(w.script)) && RollingBack(old(w.fs), w.durable[m.ordinal], m, stage) ==>
            NoOutsiders(w.script) && StepTaken(old(w.fs), w.fs, w.durable[m.ordinal], m, stage, next, o)
    ensures Stops(w.script) + Spent(o) == Stops(old(w.script))
  {
    hide Stops, RollingBack, StepTaken, SameElsewhere, KeepsPrivate;
    ghost var fs, state := w.fs, w.durable[m.ordinal];
    ghost var calm := NoOutsiders(w.script) && RollingBack(w.fs, state, m, stage);
    next := if stage == DroppingSource && m.intent.kind == WriteFile then DroppingTarget else Finished;
    var name, expected := m.SourceName(), m.Source();
    if stage == DroppingTarget {
      name, expected := m.intent.targetArtifact.value, m.Target();
    }
    if calm { ArtifactsHaveTheirLeaves(w.fs, state, m, stage); }
    o := CleanupArtifact(w, m, name, expected);
    if calm && o == Done { ArtifactDropped(fs, w.fs, state, m, stage, next, name); }
    if calm && o == Stopped { NothingDone(fs, state, m, stage, next); }
  }

  /** One step of `normalizeRecord` or `normalizeDeletedRecord`, for a rollback that keeps no artifacts. */
  method RollbackStep(w: Workspace, m: Mutation, stage: Stage) returns (o: Outcome, next: Stage)
    requires w.Valid() && NativeEntry(m) && m.ordinal in w.durable && stage !in {Finished, Refusing}
    requires stage == DroppingTarget ==> m.intent.kind == WriteFile
    modifies w`fs, w`script, w`removed
    ensures w.Valid() && w.script == Rest(old(w.script)) && (o == Stopped <==> Next(old(w.script)).Stop?)
    ensures o == Done ==> StepsLeft(next) < StepsLeft(stage) && next !in {Waiting, Refusing}
    ensures o == Done ==> (next == DroppingTarget ==> m.intent.kind == WriteFile)
    ensures NoOutsiders(old(w.script)) && RollingBack(old(w.fs), w.durable[m.ordinal], m, stage) ==>
            && NoOutsiders(w.script) && StepTaken(old(w.fs), w.fs, w.durable[m.ordinal], m, stage, next, o)
            && (stage == Waiting && o == Done && At(w.fs, m.Path()) == Absent && m.Source() != Absent ==>
                next == Creating)
            && (stage == Waiting && o == Done && At(w.fs, m.Path()) == m.Source() ==> next == DroppingSource)
            && (stage == Creating && o == Done ==> next == Writing)
            && (stage == DroppingSource && o == Done && m.intent.kind == DeleteLeaf ==> next == Finished)
            && (stage == Writing && o == Stopped && Next(old(w.script)).torn.File? ==>
                  At(w.fs, m.Path()) == Next(old(w.script)).torn)
    ensures Stops(w.script) + Spent(o) == Stops(old(w.script))
  {
    hide Stops;
    match stage
    case Waiting =>
      o, next := CheckRecord(w, m);
    case Unlinking =>
      hide RollingBack, StepTaken;
      o, next := UnlinkTarget(w, m);
    case Creating =>
      hide RollingBack, StepTaken;
      o, next := CreateSource(w, m);
    case Writing =>
      hide RollingBack, StepTaken;
      o, next := WriteSource(w, m);
    case DroppingSource =>
      hide RollingBack, StepTaken;
      o, next := DropArtifact(w, m, stage);
    case DroppingTarget =>
      hide RollingBack, StepTaken;
      o, next := DropArtifact(w, m, stage);
  }

  /** The whole of `normalizeRecord` or `normalizeDeletedRecord`, one step after another. */
  method Normalize(w: Workspace, m: Mutation) returns (o: Outcome)
    requires w.Valid() && NativeEntry(m) && m.ordinal in w.durable
    modifies w`fs, w`script, w`removed
    ensures w.Valid()
    ensures NoOutsiders(old(w.script)) ==>
            && NoOutsiders(w.script) && SameElsewhere(old(w.fs), w.fs, m.Names())
            && (o != Stopped ==> (o == Done <==> Reversible(old(w.fs), w.durable[m.ordinal], m)))
            && (o == Done ==> Restored(w.fs, m, m.Source()))
            && (o == Refused ==> w.fs == old(w.fs))
            && (o == Stopped && m.Source() != m.Target() && Reversible(old(w.fs), w.durable[m.ordinal], m) ==>
                  Reversible(w.fs, w.durable[m.ordinal], m) || HalfWritten(w.fs, m))
    ensures Stops(w.script) + Spent(o) == Stops(old(w.script))
  {
    hide Stops, Reversible, Restored;
    var stage := Waiting;
    while stage != Finished
      invariant w.Valid() && stage != Refusing && (stage == DroppingTarget ==> m.intent.kind == WriteFile)
      invariant Stops(w.script) == Stops(old(w.script))
      invariant NoOutsiders(old(w.script)) ==>
                && NoOutsiders(w.script) && SameElsewhere(old(w.fs), w.fs, m.Names())
                && RollingBack(w.fs, w.durable[m.ordinal], m, stage)
                && (if stage == Waiting then w.fs == old(w.fs) else Reversible(old(w.fs), w.durable[m.ordinal], m))
      decreases StepsLeft(stage)
    {
      var next;
      o, next := RollbackStep(w, m, stage);
      if o != Done {
        if o == Stopped && NoOutsiders(old(w.script)) && stage != Waiting && m.Source() != m.Target() {
          StageCanStartAgain(w.fs, w.durable[m.ordinal], m, stage);
        }
        return;
      }
      stage := next;
    }
    assert NoOutsiders(old(w.script)) ==> Restored(w.fs, m, m.Source());
    o := Done;
  }

  /** Stopped at whatever stage, a record can be rolled back from the start, but for bytes half written under its
      path. */
  lemma StageCanStartAgain(fs: Files, state: MutationState, m: Mutation, stage: Stage)
    requires WellFormed(fs) && NativeEntry(m) && m.Source() != m.Target() && stage !in {Waiting, Refusing}
    requires RollingBack(fs, state, m, stage)
    ensures Reversible(fs, state, m) || HalfWritten(fs, m)
  {
  }

  /** A record whose rollback is complete can be rolled back again, unless it is a delete already marked CLEANED. */
  lemma RestoredIsReversible(fs: Files, state: MutationState, m: Mutation)
    requires WellFormed(fs) && m.Source() != m.Target() && Restored(fs, m, m.Source())
    ensures Reversible(fs, state, m) <==> !(m.intent.kind == DeleteLeaf && state == CLEANED)
  {
  }

  ghost predicate Batch(w: Workspace, ms: seq<Mutation>)
    reads w
  {
    w.Valid() && Apart(ms) && forall i :: 0 <= i < |ms| ==> NativeEntry(ms[i]) && ms[i].ordinal in w.durable
  }

  ghost predicate AllReversible(fs: Files, durable: map<nat, MutationState>, ms: seq<Mutation>)
    requires WellFormed(fs) && forall i :: 0 <= i < |ms| ==> ms[i].ordinal in durable
  {
    forall i :: 0 <= i < |ms| ==> Reversible(fs, durable[ms[i].ordinal], ms[i])
  }

  ghost predicate AllDiffer(ms: seq<Mutation>) {
    forall i :: 0 <= i < |ms| ==> ms[i].Source() != ms[i].Target()
  }

  ghost predicate AllAgain(fs: Files, durable: map<nat, MutationState>, ms: seq<Mutation>)
    requires WellFormed(fs) && forall i :: 0 <= i < |ms| ==> ms[i].ordinal in durable
  {
    forall i :: 0 <= i < |ms| ==> Reversible(fs, durable[ms[i].ordinal], ms[i]) || HalfWritten(fs, ms[i])
  }

  // ---- many records, their steps interleaved ----

  /** None of the mutation's names has changed. */
  ghost predicate SameNames(before: Files, after: Files, m: Mutation)
    requires WellFormed(before) && WellFormed(after)
  {
    forall n :: n in m.Names() ==>
      && (n in after.names <==> n in before.names) && At(after, n) == At(before, n)
      && (n in before.names ==> after.names[n] == before.names[n])
  }

  /** Where a record is: not started or refused, and untouched, or on its way. */
  ghost predicate RecordAt(before: Files, after: Files, state: MutationState, m: Mutation, stage: Stage)
    requires WellFormed(before) && WellFormed(after)
  {
    && RollingBack(after, state, m, stage)
    && (stage in {Waiting, Refusing} ==> SameNames(before, after, m))
    && (stage != Waiting ==> (Reversible(before, state, m) <==> stage != Refusing))
  }

  ghost predicate RecordsAt(before: Files, after: Files, durable: map<nat, MutationState>, ms: seq<Mutation>,
                            stages: seq<Stage>)
    requires WellFormed(before) && WellFormed(after)
    requires |stages| == |ms| && forall i :: 0 <= i < |ms| ==> ms[i].ordinal in durable
  {
    forall i :: 0 <= i < |ms| ==> RecordAt(before, after, durable[ms[i].ordinal], ms[i], stages[i])
  }

  lemma SameNamesSameRecord(before: Files, after: Files, m: Mutation, state: MutationState)
    requires WellFormed(before) && WellFormed(after) && SameNames(before, after, m)
    ensures Reversible(after, state, m) == Reversible(before, state, m)
    ensures TargetArtifact(after, m) == TargetArtifact(before, m)
  {
    assert m.Path() in m.Names() && m.SourceName() in m.Names();
    assert m.intent.targetArtifact.Some? ==> m.intent.targetArtifact.value in m.Names();
  }

  /** A step on another record leaves this one where it is. */
  lemma RecordStays(before: Files, mid: Files, after: Files, touched: set<string>, state: MutationState, m: Mutation,
                    stage: Stage)
    requires WellFormed(before) && WellFormed(mid) && WellFormed(after)
    requires RecordAt(before, mid, state, m, stage) && m.Names() !! touched
    requires SameElsewhere(mid, after, touched) && KeepsPrivate(mid, after, touched)
    ensures RecordAt(before, after, state, m, stage)
  {
    UntouchedNamesFrame(mid, after, touched, m, state);
    assert m.Path() in m.Names();
    if stage in {Waiting, Refusing} {
      forall n | n in m.Names()
        ensures && (n in after.names <==> n in before.names) && At(after, n) == At(before, n)
                && (n in before.names ==> after.names[n] == before.names[n])
      {
        assert n !in touched;
      }
    }
  }

  /** A step on one record keeps all of them where they are. */
  lemma OneRecordMoves(before: Files, mid: Files, after: Files, durable: map<nat, MutationState>, ms: seq<Mutation>,
                       stages: seq<Stage>, k: nat, next: Stage)
    requires WellFormed(before) && WellFormed(mid) && WellFormed(after) && Apart(ms) && k < |ms| == |stages|
    requires forall i :: 0 <= i < |ms| ==> ms[i].ordinal in durable
    requires RecordsAt(before, mid, durable, ms, stages)
    requires SameElsewhere(mid, after, ms[k].Names()) && KeepsPrivate(mid, after, ms[k].Names())
    requires RecordAt(before, after, durable[ms[k].ordinal], ms[k], next)
    ensures RecordsAt(before, after, durable, ms, stages[k := next])
  {
    hide RecordAt, SameElsewhere, KeepsPrivate, Mutation.Names;
    forall i | 0 <= i < |ms| && i != k
      ensures RecordAt(before, after, durable[ms[i].ordinal], ms[i], stages[i])
    {
      assert ms[k].Names() !! ms[i].Names();
      RecordStays(before, mid, after, ms[k].Names(), durable[ms[i].ordinal], ms[i], stages[i]);
    }
  }

  /** Where the step itself leaves its record. */
  lemma StepLeaves(before: Files, mid: Files, after: Files, state: MutationState, m: Mutation, stage: Stage,
                   next: Stage, o: Outcome)
    requires WellFormed(before) && WellFormed(mid) && WellFormed(after)
    requires RecordAt(before, mid, state, m, stage) && stage !in {Finished, Refusing}
    requires StepTaken(mid, after, state, m, stage, next, o) && (o == Done ==> next !in {Waiting, Refusing})
    ensures RecordAt(before, after, state, m, match o case Done => next case Refused => Refusing case Stopped => stage)
  {
    hide Mutation.Names, ArtifactsFit;
    if stage == Waiting { SameNamesSameRecord(before, mid, m, state); }
  }

  lemma NobodyStarted(fs: Files, durable: map<nat, MutationState>, ms: seq<Mutation>)
    requires WellFormed(fs) && forall i :: 0 <= i < |ms| ==> ms[i].ordinal in durable
    ensures RecordsAt(fs, fs, durable, ms, seq(|ms|, _ => Waiting))
  {
  }

  function AllStepsLeft(stages: seq<Stage>): nat {
    if stages == [] then 0 else StepsLeft(stages[|stages| - 1]) + AllStepsLeft(stages[..|stages| - 1])
  }

  lemma {:induction false} OneStepLess(stages: seq<Stage>, k: nat, next: Stage)
    requires k < |stages| && StepsLeft(next) < StepsLeft(stages[k])
    ensures AllStepsLeft(stages[k := next]) < AllStepsLeft(stages)
  {
    var earlier := stages[..|stages| - 1];
    if k == |stages| - 1 {
      assert stages[k := next][..|stages| - 1] == earlier;
    } else {
      OneStepLess(earlier, k, next);
      assert stages[k := next][..|stages| - 1] == earlier[k := next];
    }
  }

  /** A worker can go on with a record it has begun; it begins another only while none has failed. */
  predicate CanStep(stages: seq<Stage>, failed: bool, k: nat) {
    k < |stages| && (Busy(stages[k]) || (stages[k] == Waiting && !failed))
  }

  /** Targets are only dropped where there are any. */
  ghost predicate StagesFit(ms: seq<Mutation>, stages: seq<Stage>) {
    |stages| == |ms| && forall i :: 0 <= i < |ms| ==> stages[i] == DroppingTarget ==> ms[i].intent.kind == WriteFile
  }

  /** One worker makes the next step of record `k`. */
  method WorkerStep(w: Workspace, ms: seq<Mutation>, stages: seq<Stage>, k: nat, ghost before: Files)
    returns (o: Outcome, later: seq<Stage>)
    requires Batch(w, ms) && StagesFit(ms, stages) && k < |ms| && stages[k] !in {Finished, Refusing}
             && WellFormed(before)
    modifies w`fs, w`script, w`removed
    ensures Batch(w, ms) && StagesFit(ms, later)
    ensures o != Stopped ==> AllStepsLeft(later) < AllStepsLeft(stages) && later == stages[k := later[k]]
    ensures o == Done ==> later[k] !in {Waiting, Refusing}
    ensures o == Refused ==> later[k] == Refusing
    ensures o == Stopped ==> later == stages
    ensures NoOutsiders(old(w.script)) && RecordsAt(before, old(w.fs), w.durable, ms, stages) ==>
            NoOutsiders(w.script) && RecordsAt(before, w.fs, w.durable, ms, later)
    ensures Stops(w.script) + Spent(o) == Stops(old(w.script))
  {
    hide Stops, Reversible, RollingBack, NativeEntry, Apart;
    ghost var mid, script := w.fs, w.script;
    var next;
    o, next := RollbackStep(w, ms[k], stages[k]);
    later := if o == Stopped then stages else stages[k := if o == Done then next else Refusing];
    if o != Stopped { OneStepLess(stages, k, later[k]); }
    if NoOutsiders(script) && RecordsAt(before, mid, w.durable, ms, stages) {
      assert RecordAt(before, mid, w.durable[ms[k].ordinal], ms[k], stages[k]);
      StepLeaves(before, mid, w.fs, w.durable[ms[k].ordinal], ms[k], stages[k], next, o);
      OneRecordMoves(before, mid, w.fs, w.durable, ms, stages, k, later[k]);
      assert stages[k := stages[k]] == stages;
    }
  }

  /** `mapConcurrent`: the workers' steps in any order. After a failure no record is begun, those begun are finished. */
  method RollBackAll(w: Workspace, ms: seq<Mutation>) returns (o: Outcome, stages: seq<Stage>)
    requires Batch(w, ms)
    modifies w`fs, w`script, w`removed
    ensures Batch(w, ms) && |stages| == |ms|
    ensures o == Done ==> forall i :: 0 <= i < |ms| ==> stages[i] == Finished
    ensures o == Refused ==>
            (exists i :: 0 <= i < |ms| && stages[i] == Refusing) && forall i :: 0 <= i < |ms| ==> !Busy(stages[i])
    ensures NoOutsiders(old(w.script)) ==> NoOutsiders(w.script) && RecordsAt(old(w.fs), w.fs, w.durable, ms, stages)
    ensures Stops(w.script) + Spent(o) == Stops(old(w.script))
  {
    hide Stops, Batch, RecordsAt, AllStepsLeft;
    stages := seq(|ms|, _ => Waiting);
    BatchHasStates(w, ms);
    NobodyStarted(w.fs, w.durable, ms);
    var failed := false;
    while exists k :: 0 <= k < |stages| && CanStep(stages, failed, k)
      invariant Batch(w, ms) && StagesFit(ms, stages) && Stops(w.script) == Stops(old(w.script))
      invariant w.Valid() && forall i :: 0 <= i < |ms| ==> ms[i].ordinal in w.durable
      invariant NoOutsiders(old(w.script)) ==>
                NoOutsiders(w.script) && RecordsAt(old(w.fs), w.fs, w.durable, ms, stages)
      invariant failed <==> exists i :: 0 <= i < |ms| && stages[i] == Refusing
      decreases AllStepsLeft(stages)
    {
      var k :| 0 <= k < |stages| && CanStep(stages, failed, k);
      ghost var was := stages;
      o, stages := WorkerStep(w, ms, stages, k, old(w.fs));
      BatchHasStates(w, ms);
      if o == Stopped { return; }
      if o == Refused {
        assert stages[k] == Refusing;
        failed := true;
      } else if failed {
        ghost var i :| 0 <= i < |ms| && was[i] == Refusing;
        assert stages[i] == Refusing;
      }
    }
    forall i | 0 <= i < |ms|
      ensures !Busy(stages[i]) && (!failed ==> stages[i] == Finished)
    {
      assert !CanStep(stages, failed, i);
    }
    o := if failed then Refused else Done;
  }

  lemma BatchHasStates(w: Workspace, ms: seq<Mutation>)
    requires Batch(w, ms)
    ensures w.Valid() && forall i :: 0 <= i < |ms| ==> ms[i].ordinal in w.durable
  {
  }

  /** The last append: one record per state still missing, in order; a stop leaves any prefix of them. */
  method AppendCleaned(w: Workspace, ms: seq<Mutation>) returns (o: Outcome)
    requires Batch(w, ms)
    modifies w`fs, w`script, w`durable
    ensures Batch(w, ms) && (NoOutsiders(old(w.script)) ==> w.fs == old(w.fs) && NoOutsiders(w.script)) && o != Refused
    ensures o == Done ==> forall i :: 0 <= i < |ms| ==> w.durable[ms[i].ordinal] == CLEANED
    ensures forall i :: 0 <= i < |ms| ==> Rank(w.durable[ms[i].ordinal]) >= Rank(old(w.durable)[ms[i].ordinal])
    ensures w.script == Rest(old(w.script)) && (o == Stopped <==> Next(old(w.script)).Stop?)
    ensures o == Stopped && Next(old(w.script)).records >= 5 * |ms| ==>
              forall i :: 0 <= i < |ms| ==> w.durable[ms[i].ordinal] == CLEANED
    ensures Stops(w.script) + Spent(o) == Stops(old(w.script))
  {
    hide Stops;
    var e := w.Tick();
    label AfterTick:
    var left: nat := if e.Stop? then e.records else 5 * |ms|;
    for i := 0 to |ms|
      invariant Batch(w, ms) && w.fs == old@AfterTick(w.fs) && w.script == old@AfterTick(w.script)
      invariant !e.Stop? || e.records >= 5 * |ms| ==>
                  left >= 5 * (|ms| - i) && forall j :: 0 <= j < i ==> w.durable[ms[j].ordinal] == CLEANED
      invariant forall j :: 0 <= j < |ms| ==> Rank(w.durable[ms[j].ordinal]) >= Rank(old(w.durable)[ms[j].ordinal])
    {
      var rank := Rank(w.durable[ms[i].ordinal]);
      var steps := if left < 5 - rank then left else 5 - rank;
      w.durable := w.durable[ms[i].ordinal := StateAt(rank + steps)];
      left := left - steps;
    }
    return if e.Stop? then Stopped else Done;
  }

  /** Stopped anywhere before the append, the rollback can be run again. */
  lemma StoppedAnywhere(before: Files, after: Files, durable: map<nat, MutationState>, ms: seq<Mutation>,
                        stages: seq<Stage>)
    requires WellFormed(before) && WellFormed(after) && |stages| == |ms|
    requires forall i :: 0 <= i < |ms| ==> NativeEntry(ms[i]) && ms[i].ordinal in durable
    requires AllReversible(before, durable, ms) && AllDiffer(ms) && RecordsAt(before, after, durable, ms, stages)
    ensures AllAgain(after, durable, ms)
  {
    hide Reversible, RollingBack, HalfWritten, SameNames;
    forall i | 0 <= i < |ms|
      ensures Reversible(after, durable[ms[i].ordinal], ms[i]) || HalfWritten(after, ms[i])
    {
      assert RecordAt(before, after, durable[ms[i].ordinal], ms[i], stages[i]);
      assert Reversible(before, durable[ms[i].ordinal], ms[i]);
      if stages[i] == Waiting {
        SameNamesSameRecord(before, after, ms[i], durable[ms[i].ordinal]);
      } else {
        StageCanStartAgain(after, durable[ms[i].ordinal], ms[i], stages[i]);
      }
    }
  }

  /** A record over which the rollback was refused, as it was before and still is. */
  ghost predicate LeftAsRefused(before: Files, after: Files, state: MutationState, m: Mutation)
    requires WellFormed(before) && WellFormed(after)
  {
    SameNames(before, after, m) && !Reversible(after, state, m)
  }

  /** What the end of the workers says of the batch. */
  lemma WorkersDecide(before: Files, after: Files, durable: map<nat, MutationState>, ms: seq<Mutation>,
                      stages: seq<Stage>)
    requires WellFormed(before) && WellFormed(after) && |stages| == |ms|
    requires forall i :: 0 <= i < |ms| ==> ms[i].ordinal in durable
    requires RecordsAt(before, after, durable, ms, stages)
    ensures (forall i :: 0 <= i < |ms| ==> stages[i] == Finished) ==>
              AllReversible(before, durable, ms) && forall i :: 0 <= i < |ms| ==> Restored(after, ms[i], ms[i].Source())
    ensures (exists i :: 0 <= i < |ms| && stages[i] == Refusing) ==>
              && !AllReversible(before, durable, ms)
              && exists i :: 0 <= i < |ms| && LeftAsRefused(before, after, durable[ms[i].ordinal], ms[i])
    ensures (forall i :: 0 <= i < |ms| ==> !Busy(stages[i])) ==>
              forall i :: 0 <= i < |ms| ==> SameNames(before, after, ms[i]) || Restored(after, ms[i], ms[i].Source())
  {
    hide Reversible, SameNames, Restored;
    assert forall i :: 0 <= i < |ms| ==> RecordAt(before, after, durable[ms[i].ordinal], ms[i], stages[i]);
    if i :| 0 <= i < |ms| && stages[i] == Refusing {
      SameNamesSameRecord(before, after, ms[i], durable[ms[i].ordinal]);
      assert LeftAsRefused(before, after, durable[ms[i].ordinal], ms[i]);
    }
  }

  /** `recoverPackedMutations` deciding for a rollback, its workers' steps interleaved in any way. It succeeds exactly
      when every record is reversible, and then every path holds its source leaf, no artifact is left and every record
      is CLEANED. Refused, it has left each record as it was or rolled back, and at least one as it was. Stopped before
      its append, it has left every record reversible but for bytes half written under a path; stopped in the append, it
      is done but for the records. */
  method RecoverPacked(w: Workspace, ms: seq<Mutation>) returns (o: Outcome)
    requires Batch(w, ms)
    modifies w
    ensures Batch(w, ms)
    ensures NoOutsiders(old(w.script)) ==>
            && NoOutsiders(w.script)
            && (o != Stopped ==> (o == Done <==> AllReversible(old(w.fs), old(w.durable), ms)))
            && (o == Done ==> forall i :: 0 <= i < |ms| ==>
                  Restored(w.fs, ms[i], ms[i].Source()) && w.durable[ms[i].ordinal] == CLEANED)
            && (o == Refused ==>
                  && w.durable == old(w.durable)
                  && (forall i :: 0 <= i < |ms| ==>
                      SameNames(old(w.fs), w.fs, ms[i]) || Restored(w.fs, ms[i], ms[i].Source()))
                  && exists i :: 0 <= i < |ms| && LeftAsRefused(old(w.fs), w.fs, w.durable[ms[i].ordinal], ms[i]))
            && (o == Stopped && AllReversible(old(w.fs), old(w.durable), ms) && AllDiffer(ms) ==>
                  if w.durable == old(w.durable)
                  then AllAgain(w.fs, w.durable, ms)
                  else forall i :: 0 <= i < |ms| ==> Restored(w.fs, ms[i], ms[i].Source()))
    ensures Stops(w.script) + Spent(o) == Stops(old(w.script))
  {
    hide Stops, Reversible, Restored, SameNames, HalfWritten, RecordsAt, LeftAsRefused;
    var stages;
    ghost var calm := NoOutsiders(w.script);
    o, stages := RollBackAll(w, ms);
    if calm {
      WorkersDecide(old(w.fs), w.fs, w.durable, ms, stages);
      if AllReversible(old(w.fs), w.durable, ms) && AllDiffer(ms) {
        StoppedAnywhere(old(w.fs), w.fs, w.durable, ms, stages);
      }
    }
    if o != Done { return; }
    o := AppendCleaned(w, ms);
  }

  /** A target artifact that holds neither nothing nor the target. */
  ghost predicate HalfMade(fs: Files, m: Mutation)
    requires WellFormed(fs)
  {
    m.intent.kind == WriteFile && TargetArtifact(fs, m) != Absent && TargetArtifact(fs, m) != m.Target()
  }

  /** At no stage but over a half-made target artifact is a record refused. */
  lemma RefusedMeansHalfMade(fs: Files, after: Files, state: MutationState, m: Mutation, calls: nat)
    requires WellFormed(fs) && WellFormed(after) && NativeEntry(m) && m.Source() != m.Target()
    requires AtStage(fs, m, calls) && state == INTENT && LeftAsRefused(fs, after, state, m)
    ensures calls == 1 && HalfMade(after, m)
  {
    StagesAreReversible(fs, state, m, calls);
    SameNamesSameRecord(fs, after, m, state);
    hide Reversible;
  }

  /** The batch stopped anywhere, in any interleaving of its workers, and then undone: it is undone, and the workspace
      is as it was before the batch, unless a target artifact was left half made, and still is. With one stop for the
      batch, none is left to keep the rollback from its end; a batch that ran to its end, or was turned down, is always
      undone. */
  method InterruptedBatch(w: Workspace, ms: seq<Mutation>, partials: seq<Leaf>) returns (ran: Outcome, undone: Outcome)
    requires Batch(w, ms) && |partials| == |ms| && (forall i :: 0 <= i < |ms| ==> partials[i].File?) && AllDiffer(ms)
    requires forall i :: 0 <= i < |ms| ==> w.durable[ms[i].ordinal] == INTENT
    modifies w
    ensures Batch(w, ms)
    ensures Stops(w.script) + Spent(ran) + Spent(undone) == Stops(old(w.script))
    ensures NoOutsiders(old(w.script)) && (forall i :: 0 <= i < |ms| ==> Untouched(old(w.fs), ms[i])) ==>
            && (ran == Refused <==> !Acceptable(ms))
            && (undone == Done ==> forall i :: 0 <= i < |ms| ==>
                  Restored(w.fs, ms[i], ms[i].Source()) && w.durable[ms[i].ordinal] == CLEANED)
            && (undone == Refused ==> ran == Stopped && exists i :: 0 <= i < |ms| && HalfMade(w.fs, ms[i]))
  {
    hide Stops, Reversible, Restored, SameNames, LeftAsRefused, HalfMade, AtStage, Quarantine.Untouched, NativeEntry;
    hide Acceptable, AllOnCourse, Installed;
    var calls;
    ghost var calm := NoOutsiders(w.script) && forall i :: 0 <= i < |ms| ==> Untouched(w.fs, ms[i]);
    EverythingBegins(w.fs, ms);
    ran, calls := RunRequest(w, ms, partials);
    ghost var mid := w.fs;
    if calm { UntouchedAreAtStages(old(w.fs), w.fs, ms, calls); }
    undone := RecoverPacked(w, ms);
    if calm && undone == Refused {
      var i :| 0 <= i < |ms| && LeftAsRefused(mid, w.fs, w.durable[ms[i].ordinal], ms[i]);
      RefusedMeansHalfMade(mid, w.fs, w.durable[ms[i].ordinal], ms[i], calls[i]);
    }
  }

  // ---- the two refusals of a second rollback do arise ----

  /** A rollback that dies in its third step, while it writes the source under the free path, is refused when run
      again. */
  method HalfWrittenIsRefused(w: Workspace, m: Mutation) returns (stopped: Outcome, again: Outcome)
    requires Batch(w, [m]) && m.intent.kind == WriteFile && m.Source().File? && Quarantined(w.fs, m)
    requires |w.script| == 3 && StopsAfter(w.script, 2)
    requires w.script[2].torn.File? && w.script[2].torn !in {m.Source(), m.Target()}
    modifies w
    ensures Batch(w, [m]) && stopped == Stopped && again == Refused
    ensures HalfWritten(w.fs, m) && w.durable == old(w.durable)
  {
    var only := [m];
    assert only[0] == m;
    var torn := w.script[2].torn;
    assert NoOutsiders(w.script);
    var stage;
    stopped, stage := RollbackStep(w, m, Waiting);
    stopped, stage := RollbackStep(w, m, stage);
    stopped, stage := RollbackStep(w, m, stage);
    assert At(w.fs, m.Path()) == torn && w.script == [];
    assert Stops(w.script) == 0 && !Reversible(w.fs, w.durable[m.ordinal], only[0]);
    hide Stops;
    ghost var fs := w.fs;
    again := RecoverPacked(w, only);
    SameNamesStayHalfWritten(fs, w.fs, m);
  }

  lemma SameNamesStayHalfWritten(before: Files, after: Files, m: Mutation)
    requires WellFormed(before) && WellFormed(after) && NativeEntry(m) && HalfWritten(before, m)
             && SameNames(before, after, m)
    ensures HalfWritten(after, m)
  {
    assert m.Path() in m.Names() && m.SourceName() in m.Names();
    assert m.intent.targetArtifact.Some? ==> m.intent.targetArtifact.value in m.Names();
  }

  /** The rollback of a delete that dies in its last append, with all records of it on disk, is refused when run
      again. */
  method CleanedDeleteIsRefused(w: Workspace, m: Mutation) returns (stopped: Outcome, again: Outcome)
    requires Batch(w, [m]) && m.intent.kind == DeleteLeaf && Untouched(w.fs, m)
    requires m.ordinal in w.durable && w.durable[m.ordinal] == INTENT
    requires |w.script| == 3 && StopsAfter(w.script, 2) && w.script[2].records >= 5
    modifies w
    ensures Batch(w, [m]) && stopped == Stopped && again == Refused
    ensures m.ordinal in w.durable && w.durable[m.ordinal] == CLEANED
  {
    var only := [m];
    assert only[0] == m;
    assert NoOutsiders(w.script);
    var stage;
    stopped, stage := RollbackStep(w, m, Waiting);
    stopped, stage := RollbackStep(w, m, stage);
    stopped := AppendCleaned(w, only);
    assert Stops(w.script) == 0 && !Reversible(w.fs, w.durable[only[0].ordinal], only[0]);
    hide Stops;
    again := RecoverPacked(w, only);
  }
}
