/** Replacing, deleting and restoring one leaf by hard-linking it aside, one system call or journal append at a time. */
module Quarantine {
  import opened Wrappers
  import opened Mutations
  import opened FileSystem

  /** What happens just before a step: nothing, another program changes a name, or this process stops for good (a
      crash, a cancellation or a failing call), leaving a half-written file or only some of a journal append behind. */
  datatype Event = Quiet | Outside(change: Change) | Stop(torn: Leaf, records: nat)

  /** `Refused` is a thrown conflict; `Stopped` is a run that a `Stop` event ended. */
  datatype Outcome = Done | Refused | Stopped

  predicate NoOutsiders(script: seq<Event>) {
    forall e :: e in script ==> !e.Outside?
  }

  /** The event before the next step, and the script after it. */
  function Next(script: seq<Event>): Event {
    if script == [] then Quiet else script[0]
  }

  function Rest(script: seq<Event>): seq<Event> {
    if script == [] then [] else script[1..]
  }

  /** The first stop comes after `n` undisturbed steps. */
  predicate StopsAfter(script: seq<Event>, n: nat) {
    |script| > n && script[n].Stop? && forall i :: 0 <= i < n ==> script[i] == Quiet
  }

  /** How many times the script stops the process. */
  function Stops(script: seq<Event>): nat {
    if script == [] then 0 else (if script[0].Stop? then 1 else 0) + Stops(script[1..])
  }

  /** A stopped run has used up one stop of its script; no other run needs one. */
  function Spent(o: Outcome): nat {
    if o == Stopped then 1 else 0
  }

  lemma {:induction false} OnlyStopsStop(script: seq<Event>)
    ensures Stops(script) > 0 <==> exists e :: e in script && e.Stop?
  {
    if script != [] {
      OnlyStopsStop(script[1..]);
      assert script == [script[0]] + script[1..];
      assert script[0] in script;
    }
  }

  datatype Mutation = Mutation(ordinal: nat, intent: Intent) {
    function Path(): string { intent.path }
    function SourceName(): string { intent.sourceArtifact }
    function Source(): Leaf { intent.sourceFingerprint.leaf }
    function Target(): Leaf { intent.targetFingerprint.leaf }
    function Names(): set<string> {
      {Path(), SourceName()} + (if intent.targetArtifact.Some? then {intent.targetArtifact.value} else {})
    }

    /** Fingerprints are of the mutation's own path, artifacts have names of their role with this prefix and the path
        has no artifact's name. */
    predicate Named(prefix: string)
      ensures prefix in {QUARANTINE_PREFIX, PACK_PREFIX} && Named(prefix) ==> Distinct()
    {
      && intent.sourceFingerprint.path == intent.path && intent.targetFingerprint.path == intent.path
         && !IsArtifact(intent.path)
      && ArtifactOf(intent.sourceArtifact, intent.path, prefix, "-source")
      && (intent.targetArtifact.Some? ==> ArtifactOf(intent.targetArtifact.value, intent.path, prefix, "-target"))
      && (intent.kind == WriteFile <==> intent.targetArtifact.Some?)
    }

    /** The records the quarantine accepts as its own. */
    predicate Proper() {
      Named(QUARANTINE_PREFIX)
    }

    /** The path and the artifacts are different names, and the artifacts are known as such. */
    ghost predicate Distinct() {
      && !IsArtifact(intent.path) && IsArtifact(intent.sourceArtifact)
      && (intent.targetArtifact.Some? ==>
          IsArtifact(intent.targetArtifact.value) && intent.targetArtifact.value != intent.sourceArtifact)
    }
  }

  /** What the target artifact holds; `Absent` when the mutation has none. */
  function TargetArtifact(fs: Files, m: Mutation): Leaf
    requires WellFormed(fs)
  {
    if m.intent.targetArtifact.None? then Absent else At(fs, m.intent.targetArtifact.value)
  }

  function FingerprintAt(fs: Files, name: string, path: string): Fingerprint
    requires WellFormed(fs)
  {
    Fingerprint(path, At(fs, name))
  }

  /** `assertSameFileIdentity` on the path and the target artifact. */
  predicate OwnsPath(fs: Files, m: Mutation)
    requires WellFormed(fs)
  {
    m.intent.targetArtifact.Some? && SameInode(fs, m.Path(), m.intent.targetArtifact.value) && At(fs, m.Path()).File?
  }

  // ---- the configurations a run passes through ----

  ghost predicate Untouched(fs: Files, m: Mutation)
    requires WellFormed(fs)
  {
    At(fs, m.Path()) == m.Source() && At(fs, m.SourceName()) == Absent && TargetArtifact(fs, m) == Absent
  }

  /** The path shows the registered source, and nothing is at the name under which it will be kept. */
  predicate ShowsSource(fs: Files, m: Mutation)
    requires WellFormed(fs)
  {
    At(fs, m.Path()) == m.Source() && At(fs, m.SourceName()) == Absent
  }

  /** What the target artifact holds once it is ready: the target for a file, nothing for a symlink or a delete. */
  ghost predicate TargetReady(fs: Files, m: Mutation)
    requires WellFormed(fs)
  {
    TargetArtifact(fs, m) == if m.intent.kind == WriteFile then m.Target() else Absent
  }

  ghost predicate Prepared(fs: Files, m: Mutation)
    requires WellFormed(fs)
  {
    At(fs, m.Path()) == m.Source() && At(fs, m.SourceName()) == Absent && TargetReady(fs, m)
  }

  ghost predicate Quarantined(fs: Files, m: Mutation)
    requires WellFormed(fs)
  {
    At(fs, m.Path()) == Absent && At(fs, m.SourceName()) == m.Source() && TargetReady(fs, m)
  }

  ghost predicate Installed(fs: Files, m: Mutation)
    requires WellFormed(fs)
  {
    && At(fs, m.Path()) == m.Target() && At(fs, m.SourceName()) == m.Source() && TargetReady(fs, m)
    && (m.intent.kind == WriteFile ==> OwnsPath(fs, m))
  }

  /** The mutation is complete and not yet cleaned. */
  ghost predicate Complete(fs: Files, m: Mutation)
    requires WellFormed(fs)
  {
    At(fs, m.Path()) == m.Target() && At(fs, m.SourceName()) == m.Source() && TargetArtifact(fs, m) == Absent
  }

  /** The one case in which a rollback keeps the target: cleanup has already dropped the quarantined source. */
  predicate KeepsTarget(fs: Files, state: MutationState, m: Mutation)
    requires WellFormed(fs)
  {
    && state == TARGET_VERIFIED && m.Source() != Absent && m.SourceName() !in fs.names
    && At(fs, m.Path()) == m.Target()
  }

  /** The leaf a rollback leaves at the path. */
  function Goal(fs: Files, state: MutationState, m: Mutation): Leaf
    requires WellFormed(fs)
  {
    if KeepsTarget(fs, state, m) then m.Target() else m.Source()
  }

  /** Everything `restoreMutation` depends on: exactly when it can finish. */
  predicate Recoverable(fs: Files, state: MutationState, m: Mutation)
    requires WellFormed(fs)
  {
    var path, source, target := At(fs, m.Path()), At(fs, m.SourceName()), TargetArtifact(fs, m);
    && state != CLEANED
    && (source == Absent || (source == m.Source()))
    && (target == Absent || target == m.Target())
    && (|| (path == m.Source() && !(m.Source() == Absent == m.Target()))
        || KeepsTarget(fs, state, m)
        || (path == Absent && source == m.Source() && source != Absent)
        || (path == m.Target() && path != Absent && source == m.Source() && (target == Absent || OwnsPath(fs, m))))
  }

  /** Someone put the target's content under the path again: while the target artifact exists, it is not that inode. */
  ghost predicate ForeignTarget(fs: Files, m: Mutation)
    requires WellFormed(fs)
  {
    && At(fs, m.Path()) == m.Target() && m.Target() != Absent && m.Target() != m.Source()
    && TargetArtifact(fs, m) == m.Target() && !OwnsPath(fs, m)
  }

  ghost predicate Restored(fs: Files, m: Mutation, leaf: Leaf)
    requires WellFormed(fs)
  {
    At(fs, m.Path()) == leaf && At(fs, m.SourceName()) == Absent && TargetArtifact(fs, m) == Absent
  }

  /** Nothing has happened but a target artifact that does not hold the target: its writing was interrupted. */
  ghost predicate TornTarget(fs: Files, state: MutationState, m: Mutation)
    requires WellFormed(fs)
  {
    && state == INTENT && At(fs, m.Path()) == m.Source() && At(fs, m.SourceName()) == Absent
    && TargetArtifact(fs, m) != Absent && TargetArtifact(fs, m) != m.Target()
  }

  // ---- what the program removes ----

  datatype Removal = Removal(name: string, leaf: Leaf)

  /** Whatever was removed from the path since `before` was the registered source or target. */
  ghost predicate OnlyRegistered(before: seq<Removal>, after: seq<Removal>, m: Mutation) {
    before <= after &&
    forall i :: |before| <= i < |after| && after[i].name == m.Path() ==>
      after[i].leaf == m.Source() || after[i].leaf == m.Target()
  }

  /** A rollback that is under way or finished: it can still finish, and will leave `goal` at the path. */
  ghost predicate Pending(fs: Files, state: MutationState, m: Mutation, goal: Leaf)
    requires WellFormed(fs)
  {
    if state == CLEANED then Restored(fs, m, goal) else Recoverable(fs, state, m) && Goal(fs, state, m) == goal
  }

  /** Everything `rollForwardMutation` depends on: exactly when it can finish. */
  predicate Forwardable(fs: Files, state: MutationState, m: Mutation)
    requires WellFormed(fs)
  {
    var path, source, target := At(fs, m.Path()), At(fs, m.SourceName()), TargetArtifact(fs, m);
    match state
    case INTENT => CanFree(fs, m) && CanInstall(m, Absent, target)
    case SOURCE_QUARANTINED => source == m.Source() && CanInstall(m, path, target)
    case SOURCE_VERIFIED => CanInstall(m, path, target)
    case TARGET_INSTALLED => path == m.Target() && (target == Absent || target == m.Target())
    case _ => true
  }

  /** The source is captured, and the path shows that very leaf or nothing. */
  predicate CanFree(fs: Files, m: Mutation)
    requires WellFormed(fs)
  {
    var path := At(fs, m.Path());
    && At(fs, m.SourceName()) == m.Source()
    && (path == Absent || (path == m.Source() && (path.File? ==> SameInode(fs, m.Path(), m.SourceName()))))
  }

  /** A file is installed from its artifact unless it is there already; a delete needs the path free; a symlink cannot
      be rebuilt from its fingerprint. */
  predicate CanInstall(m: Mutation, path: Leaf, target: Leaf) {
    match m.intent.kind
    case WriteFile => target == m.Target() && target != Absent && (path == Absent || path == m.Target())
    case DeleteLeaf => path == m.Target()
    case WriteSymlink => false
  }

  /** What rolling forward makes of a mutation. */
  ghost predicate RolledForward(before: Files, state: MutationState, after: Files, next: MutationState, m: Mutation,
                                o: Outcome)
    requires WellFormed(before) && WellFormed(after)
  {
    && SameElsewhere(before, after, m.Names())
    && (o != Stopped ==> (o == Done <==> Forwardable(before, state, m)))
    && (Forwardable(before, state, m) ==> Forwardable(after, next, m))
    && (o == Done && Rank(state) < Rank(TARGET_VERIFIED) ==> At(after, m.Path()) == m.Target())
  }

  lemma ForwardContinues(before: Files, state: MutationState, mid: Files, reached: MutationState,
                         after: Files, next: MutationState, m: Mutation, o: Outcome)
    requires WellFormed(before) && WellFormed(mid) && WellFormed(after)
    requires SameElsewhere(before, mid, m.Names()) && RolledForward(mid, reached, after, next, m, o)
    requires Forwardable(before, state, m) == Forwardable(mid, reached, m)
    requires Rank(state) < Rank(TARGET_VERIFIED) ==> Rank(reached) < Rank(TARGET_VERIFIED)
    ensures RolledForward(before, state, after, next, m, o)
  {
    hide Forwardable;
  }

  /** What an interrupted `replaceFile` leaves: a rollback to the source, unless the target artifact is half written. */
  ghost predicate Undoable(fs: Files, state: MutationState, m: Mutation)
    requires WellFormed(fs)
  {
    (Recoverable(fs, state, m) && Goal(fs, state, m) == m.Source()) || TornTarget(fs, state, m)
  }

  /** What a rollback attempt makes of a mutation that was not yet cleaned. */
  ghost predicate RolledBack(before: Files, state: MutationState, after: Files, next: MutationState, m: Mutation,
                             o: Outcome)
    requires WellFormed(before) && WellFormed(after)
  {
    && SameElsewhere(before, after, m.Names())
    && (o == Done ==> next == CLEANED)
    && (o != Stopped ==> (o == Done <==> Recoverable(before, state, m)))
    && (Recoverable(before, state, m) ==> Pending(after, next, m, Goal(before, state, m)))
  }

  /** Path and source artifact are as the rollback will leave them. */
  ghost predicate Settled(fs: Files, state: MutationState, m: Mutation)
    requires WellFormed(fs)
  {
    && At(fs, m.SourceName()) == Absent
    && (KeepsTarget(fs, state, m) || (At(fs, m.Path()) == m.Source() && !(m.Source() == Absent == m.Target())))
  }

  /** A rollback may be continued from any configuration that promises the same. */
  lemma RollbackContinues(before: Files, mid: Files, after: Files, state: MutationState, next: MutationState,
                          m: Mutation, o: Outcome)
    requires WellFormed(before) && WellFormed(mid) && WellFormed(after)
    requires SameElsewhere(before, mid, m.Names()) && RolledBack(mid, state, after, next, m, o)
    requires Recoverable(before, state, m) == Recoverable(mid, state, m)
             && Goal(before, state, m) == Goal(mid, state, m)
    ensures RolledBack(before, state, after, next, m, o)
  {
    hide Recoverable, Goal, Pending;
  }

  /** A rollback that stops or is refused before it changed anything. */
  lemma NothingRolledBack(fs: Files, state: MutationState, m: Mutation, o: Outcome)
    requires WellFormed(fs) && state != CLEANED && o != Done && (o == Refused ==> !Recoverable(fs, state, m))
    ensures RolledBack(fs, state, fs, state, m, o)
  {
    hide Recoverable, Goal;
  }

  /** The path shows the source: without its artifact the mutation promises the same. */
  lemma SourceDropped(before: Files, mid: Files, state: MutationState, m: Mutation)
    requires WellFormed(before) && m.Proper() && state != CLEANED && m.SourceName() in before.names
    requires At(before, m.Path()) == At(before, m.SourceName()) == m.Source() != Absent
    requires UnlinkCall(before, m.SourceName()) == Ok(mid)
    ensures WellFormed(mid) && SameElsewhere(before, mid, m.Names()) && Settled(mid, state, m)
    ensures Recoverable(before, state, m) == Recoverable(mid, state, m) && Goal(before, state, m) == Goal(mid, state, m)
  {
    assert TargetArtifact(mid, m) == TargetArtifact(before, m);
  }

  /** The path was empty before the mutation: without the installed target it promises the same. */
  lemma TargetRemoved(before: Files, mid: Files, state: MutationState, m: Mutation)
    requires WellFormed(before) && m.Proper() && state != CLEANED && m.Source() == Absent
             && m.SourceName() !in before.names
    requires At(before, m.Path()) == m.Target() != Absent
    requires TargetArtifact(before, m) == Absent || (TargetArtifact(before, m) == m.Target() && OwnsPath(before, m))
    requires UnlinkCall(before, m.Path()) == Ok(mid)
    ensures WellFormed(mid) && SameElsewhere(before, mid, m.Names())
    ensures At(mid, m.Path()) == At(mid, m.SourceName()) == Absent
            && TargetArtifact(mid, m) == TargetArtifact(before, m)
    ensures Settled(mid, state, m)
    ensures Recoverable(before, state, m) == Recoverable(mid, state, m) && Goal(before, state, m) == Goal(mid, state, m)
  {
    assert TargetArtifact(mid, m) == TargetArtifact(before, m);
  }

  /** With the source under the path again a mutation promises the same. */
  lemma SourceReinstalled(before: Files, mid: Files, state: MutationState, m: Mutation)
    requires WellFormed(before) && WellFormed(mid) && m.Proper() && state != CLEANED
    requires At(before, m.Path()) == Absent && At(before, m.SourceName()) == At(mid, m.Path()) == m.Source() != Absent
    requires SameElsewhere(before, mid, {m.Path()})
    ensures SameElsewhere(before, mid, m.Names()) && m.SourceName() in mid.names
    ensures Recoverable(before, state, m) == Recoverable(mid, state, m) && Goal(before, state, m) == Goal(mid, state, m)
  {
    assert TargetArtifact(mid, m) == TargetArtifact(before, m) && m.SourceName() != m.Path();
  }

  /** Exactly when a mutation that created its path can be rolled back. */
  lemma AbsentSourceRecoverable(fs: Files, state: MutationState, m: Mutation)
    requires WellFormed(fs) && state != CLEANED && m.Source() == Absent
    ensures m.SourceName() in fs.names ==> !Recoverable(fs, state, m)
    ensures At(fs, m.Path()) != m.Target() && At(fs, m.Path()) != Absent ==> !Recoverable(fs, state, m)
    ensures At(fs, m.Path()) == m.Target() && Recoverable(fs, state, m) ==>
              && At(fs, m.Path()) != Absent
              && (TargetArtifact(fs, m) == Absent || (TargetArtifact(fs, m) == m.Target() && OwnsPath(fs, m)))
    ensures m.SourceName() !in fs.names && At(fs, m.Path()) == Absent != m.Target() ==> Settled(fs, state, m)
  {
  }

  /** Exactly when a mutation whose path no longer shows the source can be rolled back. */
  lemma PresentSourceRecoverable(fs: Files, state: MutationState, m: Mutation)
    requires WellFormed(fs) && state != CLEANED && m.Source() != Absent && At(fs, m.Path()) != m.Source()
             && !KeepsTarget(fs, state, m)
    ensures Recoverable(fs, state, m) ==>
              && At(fs, m.SourceName()) == m.Source()
              && (At(fs, m.Path()) != Absent ==>
                    && At(fs, m.Path()) == m.Target()
                    && (TargetArtifact(fs, m) == Absent || (TargetArtifact(fs, m) == m.Target() && OwnsPath(fs, m))))
  {
  }

  /** With its source quarantined and no foreign target, a mutation promises the same without the installed target. */
  lemma TargetRemovedAgain(before: Files, mid: Files, state: MutationState, m: Mutation)
    requires WellFormed(before) && m.Proper() && state != CLEANED && At(before, m.SourceName()) == m.Source() != Absent
    requires At(before, m.Path()) == m.Target() != Absent && m.Target() != m.Source()
    requires TargetArtifact(before, m) == Absent || (TargetArtifact(before, m) == m.Target() && OwnsPath(before, m))
    requires UnlinkCall(before, m.Path()) == Ok(mid)
    ensures WellFormed(mid) && SameElsewhere(before, mid, m.Names())
    ensures At(mid, m.Path()) == Absent && At(mid, m.SourceName()) == m.Source()
    ensures Recoverable(before, state, m) == Recoverable(mid, state, m) && Goal(before, state, m) == Goal(mid, state, m)
  {
    assert TargetArtifact(mid, m) == TargetArtifact(before, m);
  }

  /** What a replacement can be stopped at, once its target is ready, can be rolled back to the source. */
  lemma StagesArePending(fs: Files, state: MutationState, m: Mutation)
    requires WellFormed(fs) && m.Proper() && state != CLEANED && (m.Source() != Absent || m.Target() != Absent)
    ensures Prepared(fs, m) && state == INTENT ==> Pending(fs, state, m, m.Source())
    ensures TargetReady(fs, m) && state == INTENT && At(fs, m.Path()) == At(fs, m.SourceName()) == m.Source() ==>
              Pending(fs, state, m, m.Source())
    ensures Quarantined(fs, m) ==> Pending(fs, state, m, m.Source())
    ensures Installed(fs, m) || Complete(fs, m) ==> Pending(fs, state, m, m.Source())
  {
  }

  lemma PreparedMeans(fs: Files, m: Mutation)
    requires WellFormed(fs)
    ensures Prepared(fs, m) <==> ShowsSource(fs, m) && TargetReady(fs, m)
  {
  }

  /** Making the target artifact leaves the path and the source artifact alone. */
  lemma TargetMade(before: Files, mid: Files, m: Mutation)
    requires WellFormed(before) && WellFormed(mid) && m.Proper() && m.intent.kind == WriteFile
    requires SameElsewhere(before, mid, {m.intent.targetArtifact.value})
    ensures ShowsSource(mid, m) == ShowsSource(before, m)
    ensures TargetArtifact(mid, m) == m.Target() ==> TargetReady(mid, m)
    ensures Untouched(before, m) <==> ShowsSource(before, m) && TargetArtifact(before, m) == Absent
  {
  }

  /** A replacement that has not yet moved the source can be undone, or stopped over a torn target artifact. */
  lemma NotYetMoved(fs: Files, m: Mutation)
    requires WellFormed(fs) && ShowsSource(fs, m) && m.Target() != Absent
    ensures Undoable(fs, INTENT, m)
    ensures TargetArtifact(fs, m) == Absent || TargetArtifact(fs, m) == m.Target() || TornTarget(fs, INTENT, m)
  {
  }

  lemma PendingIsUndoable(fs: Files, state: MutationState, m: Mutation)
    requires WellFormed(fs) && state != CLEANED && Pending(fs, state, m, m.Source())
    ensures Undoable(fs, state, m)
  {
  }

  lemma NothingToQuarantine(fs: Files, m: Mutation)
    requires WellFormed(fs) && Prepared(fs, m) && m.Source() == Absent
    ensures Quarantined(fs, m)
  {
  }

  lemma SourceCaptured(before: Files, mid: Files, m: Mutation)
    requires WellFormed(before) && WellFormed(mid) && m.Proper() && Prepared(before, m)
    requires SameElsewhere(before, mid, {m.SourceName()})
    ensures SameElsewhere(before, mid, m.Names()) && TargetReady(mid, m) && At(mid, m.Path()) == m.Source()
  {
    assert TargetArtifact(mid, m) == TargetArtifact(before, m);
  }

  lemma SourceVacated(before: Files, mid: Files, after: Files, m: Mutation)
    requires WellFormed(before) && WellFormed(mid) && m.Proper() && TargetReady(mid, m)
    requires SameElsewhere(before, mid, m.Names()) && At(mid, m.SourceName()) == m.Source()
    requires UnlinkCall(mid, m.Path()) == Ok(after)
    ensures WellFormed(after) && Quarantined(after, m) && SameElsewhere(before, after, m.Names())
  {
    assert TargetArtifact(after, m) == TargetArtifact(mid, m);
  }

  /** A verified mutation under cleanup: the target is in place, the artifacts are gone or still what they were. */
  ghost predicate CleaningUp(fs: Files, m: Mutation)
    requires WellFormed(fs)
  {
    && At(fs, m.Path()) == m.Target()
    && (At(fs, m.SourceName()) == Absent || At(fs, m.SourceName()) == m.Source())
    && (TargetArtifact(fs, m) == Absent || (TargetArtifact(fs, m) == m.Target() && OwnsPath(fs, m)))
  }

  /** Rolling a cleanup back brings the old leaf while its artifact is there, and keeps the new one after that. */
  lemma CleaningUpIsPending(fs: Files, m: Mutation)
    requires WellFormed(fs) && CleaningUp(fs, m) && (m.Source() != Absent || m.Target() != Absent)
    ensures Pending(fs, TARGET_VERIFIED, m,
                    if m.Source() != Absent && m.SourceName() !in fs.names then m.Target() else m.Source())
  {
  }

  /** The artifacts are gone or still what the record says of them. */
  predicate ArtifactsKnown(fs: Files, m: Mutation)
    requires WellFormed(fs)
  {
    && (At(fs, m.SourceName()) == Absent || At(fs, m.SourceName()) == m.Source())
    && (TargetArtifact(fs, m) == Absent || TargetArtifact(fs, m) == m.Target())
  }

  /** The first step of a cleanup. */
  lemma SourceArtifactDropped(before: Files, mid: Files, m: Mutation)
    requires WellFormed(before) && m.Proper() && UnlinkCall(before, m.SourceName()) == Ok(mid)
    requires At(before, m.SourceName()) == m.Source()
    ensures WellFormed(mid) && SameElsewhere(before, mid, m.Names() - {m.Path()})
    ensures At(mid, m.SourceName()) == Absent && ArtifactsKnown(mid, m) == ArtifactsKnown(before, m)
    ensures CleaningUp(before, m) ==> CleaningUp(mid, m)
  {
    assert TargetArtifact(mid, m) == TargetArtifact(before, m);
  }

  /** The second step of a cleanup. */
  lemma TargetArtifactDropped(before: Files, mid: Files, after: Files, m: Mutation)
    requires WellFormed(before) && WellFormed(mid) && WellFormed(after) && m.Proper()
    requires SameElsewhere(before, mid, m.Names() - {m.Path()})
    requires SameElsewhere(mid, after, m.Names() - {m.Path(), m.SourceName()})
    requires after == mid || TargetArtifact(after, m) == Absent
    ensures SameElsewhere(before, after, m.Names() - {m.Path()}) && SameElsewhere(before, after, m.Names())
    ensures At(after, m.SourceName()) == At(mid, m.SourceName())
    ensures CleaningUp(mid, m) ==> CleaningUp(after, m)
    ensures CleaningUp(mid, m) && TargetArtifact(after, m) == At(after, m.SourceName()) == Absent ==>
              Restored(after, m, m.Target())
  {
  }

  lemma NothingCleaned(fs: Files, m: Mutation)
    requires WellFormed(fs)
    ensures SameElsewhere(fs, fs, m.Names() - {m.Path()}) && SameElsewhere(fs, fs, m.Names())
    ensures CleaningUp(fs, m) ==> ArtifactsKnown(fs, m) && At(fs, m.Path()) == m.Target()
    ensures ArtifactsKnown(fs, m) && m.SourceName() in fs.names ==> At(fs, m.SourceName()) == m.Source() != Absent
    ensures ArtifactsKnown(fs, m) ==> TargetArtifact(fs, m) == Absent || TargetArtifact(fs, m) == m.Target()
    ensures At(fs, m.SourceName()) == m.Source() || m.SourceName() !in fs.names ==>
            (ArtifactsKnown(fs, m) <==> TargetArtifact(fs, m) == Absent || TargetArtifact(fs, m) == m.Target())
  {
  }

  lemma OnlyRegisteredChains(first: seq<Removal>, second: seq<Removal>, third: seq<Removal>, m: Mutation)
    requires OnlyRegistered(first, second, m) && OnlyRegistered(second, third, m)
    ensures OnlyRegistered(first, third, m)
  {
  }

  /** A mutation is as it was when none of its names was touched. */
  lemma UntouchedNamesFrame(before: Files, after: Files, touched: set<string>, m: Mutation, state: MutationState)
    requires WellFormed(before) && WellFormed(after) && SameElsewhere(before, after, touched) && m.Names() !! touched
    ensures At(after, m.Path()) == At(before, m.Path()) && At(after, m.SourceName()) == At(before, m.SourceName())
    ensures TargetArtifact(after, m) == TargetArtifact(before, m) && OwnsPath(after, m) == OwnsPath(before, m)
    ensures SameInode(after, m.SourceName(), m.Path()) == SameInode(before, m.SourceName(), m.Path())
    ensures KeepsTarget(after, state, m) == KeepsTarget(before, state, m)
    ensures Recoverable(after, state, m) == Recoverable(before, state, m)
  {
    assert m.Path() in m.Names() && m.SourceName() in m.Names();
    assert m.intent.targetArtifact.Some? ==> m.intent.targetArtifact.value in m.Names();
  }

  class Workspace {
    var fs: Files
    /** The latest durable state of every registered mutation. */
    var durable: map<nat, MutationState>
    var script: seq<Event>
    ghost var removed: seq<Removal>

    ghost predicate Valid()
      reads this
    {
      WellFormed(fs)
    }

    constructor (fs: Files, durable: map<nat, MutationState>, script: seq<Event>)
      requires WellFormed(fs)
      ensures Valid() && this.fs == fs && this.durable == durable && this.script == script && removed == []
    {
      this.fs, this.durable, this.script, this.removed := fs, durable, script, [];
    }

    /** Let the world take its turn before a step. */
    method Tick() returns (e: Event)
      requires Valid()
      modifies this`fs, this`script
      ensures Valid() && (NoOutsiders(old(script)) ==> fs == old(fs) && NoOutsiders(script))
      ensures forall n :: IsArtifact(n) ==> (n in fs.names <==> n in old(fs).names)
      ensures forall n :: IsArtifact(n) && Unshared(old(fs), n) ==> Unshared(fs, n)
      ensures Stops(script) + (if e.Stop? then 1 else 0) == Stops(old(script))
      ensures e == Next(old(script)) && script == Rest(old(script)) && (!e.Outside? ==> fs == old(fs))
    {
      if script == [] { return Quiet; }
      e := script[0];
      assert e in script;
      script := script[1..];
      if e.Outside? {
        fs := Disturb(fs, e.change);
      }
    }

    method Unlink(name: string) returns (ok: bool)
      requires Valid()
      modifies this`fs, this`removed
      ensures Valid() && ok == UnlinkCall(old(fs), name).Ok?
      ensures ok ==>
              fs == UnlinkCall(old(fs), name).value
              && removed == old(removed) + [Removal(name, At(old(fs), name))]
      ensures !ok ==> fs == old(fs) && removed == old(removed)
    {
      var r := UnlinkCall(fs, name);
      ok := r.Ok?;
      if ok {
        removed := removed + [Removal(name, At(fs, name))];
        fs := r.value;
      }
    }

    /** `cleanupRollbackTarget`. */
    method CleanupRollbackTarget(m: Mutation) returns (o: Outcome)
      requires Valid() && m.Proper()
      modifies this`fs, this`script, this`removed
      ensures Valid() && OnlyRegistered(old(removed), removed, m)
      ensures NoOutsiders(old(script)) ==>
              && NoOutsiders(script) && SameElsewhere(old(fs), fs, m.Names() - {m.Path(), m.SourceName()})
              && (o == Done ==> TargetArtifact(fs, m) == Absent)
              && (o != Done ==> fs == old(fs))
              && (o != Stopped ==>
                    (o == Done <==> TargetArtifact(old(fs), m) == Absent || TargetArtifact(old(fs), m) == m.Target()))
      ensures m.intent.targetArtifact.Some? ==>
              script == Rest(old(script)) && (o == Stopped <==> Next(old(script)).Stop?)
      ensures Stops(script) + Spent(o) == Stops(old(script))
    {
      if m.intent.targetArtifact.None? { return Done; }
      var e := Tick();
      if e.Stop? { return Stopped; }
      var target := m.intent.targetArtifact.value;
      if target !in fs.names { return Done; }
      if FingerprintAt(fs, target, m.Path()) != m.intent.targetFingerprint { return Refused; }
      var ok := Unlink(target);
      return Done;
    }

    /** Back from an installed target: `assertRollbackTargetOwned`, the path's fingerprint, and its removal. */
    method RemoveInstalledTarget(m: Mutation) returns (o: Outcome)
      requires Valid() && m.Proper()
      modifies this`fs, this`script, this`removed
      ensures Valid() && OnlyRegistered(old(removed), removed, m)
      ensures NoOutsiders(old(script)) ==>
              && NoOutsiders(script)
              && (o != Stopped ==>
                    (o == Done <==>
                     && At(old(fs), m.Path()) == m.Target() != Absent
                     && (TargetArtifact(old(fs), m) == Absent
                         || (TargetArtifact(old(fs), m) == m.Target() && OwnsPath(old(fs), m)))))
              && (o == Done ==> fs == UnlinkCall(old(fs), m.Path()).value)
              && (o != Done ==> fs == old(fs))
      ensures Stops(script) + Spent(o) == Stops(old(script))
    {
      var e := Tick();
      if e.Stop? { return Stopped; }
      if m.intent.targetArtifact.Some? {
        var target := m.intent.targetArtifact.value;
        if target in fs.names {
          if FingerprintAt(fs, target, m.Path()) != m.intent.targetFingerprint || !OwnsPath(fs, m) { return Refused; }
        }
      }
      if FingerprintAt(fs, m.Path(), m.Path()) != m.intent.targetFingerprint { return Refused; }
      var ok := Unlink(m.Path());
      return if ok then Done else Refused;
    }

    /** Put the quarantined source back under the path: a hard link, or a new symlink with the same text. */
    method ReinstallSource(m: Mutation) returns (o: Outcome)
      requires Valid() && m.Proper()
      modifies this`fs, this`script
      ensures Valid()
      ensures NoOutsiders(old(script)) ==>
              && NoOutsiders(script)
              && (o != Stopped ==>
                    (o == Done <==>
                     At(old(fs), m.SourceName()) == m.Source() != Absent && At(old(fs), m.Path()) == Absent))
              && (o == Done ==> At(fs, m.Path()) == m.Source() && SameElsewhere(old(fs), fs, {m.Path()}))
              && (o != Done ==> fs == old(fs))
      ensures Stops(script) + Spent(o) == Stops(old(script))
    {
      var e := Tick();
      if e.Stop? { return Stopped; }
      if FingerprintAt(fs, m.SourceName(), m.Path()) != m.intent.sourceFingerprint { return Refused; }
      var leaf := At(fs, m.SourceName());
      if leaf == Absent { return Refused; }
      var r := if leaf.Link? then CreateCall(fs, m.Path(), leaf) else LinkCall(fs, m.SourceName(), m.Path());
      if r.Failed? { return Refused; }
      fs := r.value;
      return Done;
    }

    /** Remove the source artifact; after a reinstallation only while the path shows the source. */
    method DropSource(m: Mutation, reinstalled: bool) returns (o: Outcome)
      requires Valid() && m.Proper()
      modifies this`fs, this`script, this`removed
      ensures Valid() && OnlyRegistered(old(removed), removed, m)
      ensures NoOutsiders(old(script)) ==>
              && NoOutsiders(script)
              && (o != Stopped ==>
                    (o == Done <==>
                     At(old(fs), m.SourceName()) == m.Source() != Absent
                       && (reinstalled ==> At(old(fs), m.Path()) == m.Source())))
              && (o == Done ==> fs == UnlinkCall(old(fs), m.SourceName()).value)
              && (o != Done ==> fs == old(fs))
      ensures script == Rest(old(script)) && (o == Stopped <==> Next(old(script)).Stop?)
      ensures Stops(script) + Spent(o) == Stops(old(script))
    {
      var e := Tick();
      if e.Stop? { return Stopped; }
      if reinstalled && FingerprintAt(fs, m.Path(), m.Path()) != m.intent.sourceFingerprint { return Refused; }
      if FingerprintAt(fs, m.SourceName(), m.Path()) != m.intent.sourceFingerprint { return Refused; }
      var ok := Unlink(m.SourceName());
      return if ok then Done else Refused;
    }

    /** `markRollbackCleaned`: one record, on disk or not when the run stops. */
    method MarkRollbackCleaned(m: Mutation) returns (o: Outcome)
      requires Valid() && m.ordinal in durable && durable[m.ordinal] != CLEANED
      modifies this`fs, this`script, this`durable
      ensures Valid() && (NoOutsiders(old(script)) ==> fs == old(fs) && NoOutsiders(script))
      ensures o != Refused
      ensures durable == old(durable)[m.ordinal := CLEANED] || (o == Stopped && durable == old(durable))
      ensures Stops(script) + Spent(o) == Stops(old(script))
    {
      var e := Tick();
      if !e.Stop? || e.records > 0 {
        durable := durable[m.ordinal := CLEANED];
      }
      return if e.Stop? then Stopped else Done;
    }

    /** How every successful branch of `restoreMutation` ends. */
    method FinishRollback(m: Mutation) returns (o: Outcome)
      requires Valid() && m.Proper() && m.ordinal in durable && durable[m.ordinal] != CLEANED
      modifies this`fs, this`script, this`durable, this`removed
      ensures Valid() && OnlyRegistered(old(removed), removed, m)
      ensures durable == old(durable) || durable == old(durable)[m.ordinal := CLEANED]
      ensures o == Refused ==> durable == old(durable)
      ensures NoOutsiders(old(script)) ==>
              && NoOutsiders(script) && SameElsewhere(old(fs), fs, m.Names() - {m.Path(), m.SourceName()})
              && (durable == old(durable)
                  || (durable == old(durable)[m.ordinal := CLEANED] && TargetArtifact(fs, m) == Absent))
              && (durable == old(durable) ==> fs == old(fs) || TargetArtifact(fs, m) == Absent)
              && (o != Stopped ==>
                    (o == Done <==> TargetArtifact(old(fs), m) == Absent || TargetArtifact(old(fs), m) == m.Target()))
              && (o == Done ==> durable == old(durable)[m.ordinal := CLEANED])
              && (Settled(old(fs), old(durable)[m.ordinal], m) ==>
                    RolledBack(old(fs), old(durable)[m.ordinal], fs, durable[m.ordinal], m, o))
      ensures NoOutsiders(old(script)) && TornTarget(old(fs), old(durable)[m.ordinal], m) ==>
              NoOutsiders(script) && o != Done && fs == old(fs) && durable == old(durable)
      ensures Stops(script) + Spent(o) == Stops(old(script))
    {
      o := CleanupRollbackTarget(m);
      if o == Done {
        o := MarkRollbackCleaned(m);
      }
    }

    /** The path shows the source again: drop the artifact, then finish. */
    method DropSourceAndFinish(m: Mutation, reinstalled: bool) returns (o: Outcome)
      requires Valid() && m.Proper() && m.ordinal in durable && durable[m.ordinal] != CLEANED
      modifies this
      ensures Valid() && OnlyRegistered(old(removed), removed, m)
      ensures durable == old(durable) || durable == old(durable)[m.ordinal := CLEANED]
      ensures o == Refused ==> durable == old(durable)
      ensures NoOutsiders(old(script)) && At(old(fs), m.Path()) == m.Source() && m.SourceName() in old(fs).names ==>
              && NoOutsiders(script)
              && RolledBack(old(fs), old(durable)[m.ordinal], fs, durable[m.ordinal], m, o)
      ensures Stops(script) + Spent(o) == Stops(old(script))
    {
      ghost var before, state := fs, durable[m.ordinal];
      ghost var calm := NoOutsiders(script) && At(fs, m.Path()) == m.Source() && m.SourceName() in fs.names;
      assert calm && At(fs, m.SourceName()) != m.Source() ==> !Recoverable(fs, state, m);
      hide Stops, RolledBack, Recoverable, Goal, Settled, Pending, TargetArtifact;
      o := DropSource(m, reinstalled);
      if o != Done {
        if calm { NothingRolledBack(before, state, m, o); }
        return;
      }
      ghost var mid := fs;
      o := FinishRollback(m);
      if calm {
        SourceDropped(before, mid, state, m);
        RollbackContinues(before, mid, fs, state, durable[m.ordinal], m, o);
      }
    }

    /** Nothing is at the path and the source is quarantined. */
    method PutSourceBack(m: Mutation) returns (o: Outcome)
      requires Valid() && m.Proper() && m.ordinal in durable && durable[m.ordinal] != CLEANED
      modifies this
      ensures Valid() && OnlyRegistered(old(removed), removed, m)
      ensures durable == old(durable) || durable == old(durable)[m.ordinal := CLEANED]
      ensures o == Refused ==> durable == old(durable)
      ensures NoOutsiders(old(script)) && At(old(fs), m.Path()) == Absent
              && At(old(fs), m.SourceName()) == m.Source() != Absent ==>
              && NoOutsiders(script)
              && RolledBack(old(fs), old(durable)[m.ordinal], fs, durable[m.ordinal], m, o)
      ensures Stops(script) + Spent(o) == Stops(old(script))
    {
      hide Stops, RolledBack, Recoverable, Goal, Pending;
      ghost var before, state := fs, durable[m.ordinal];
      ghost var calm := NoOutsiders(script) && At(fs, m.Path()) == Absent
                        && At(fs, m.SourceName()) == m.Source() != Absent;
      o := ReinstallSource(m);
      if o != Done {
        if calm { NothingRolledBack(before, state, m, o); }
        return;
      }
      if calm { SourceReinstalled(before, fs, state, m); }
      ghost var mid := fs;
      o := DropSourceAndFinish(m, true);
      if calm { RollbackContinues(before, mid, fs, state, durable[m.ordinal], m, o); }
    }

    /** `restoreMutation` of a mutation that created its path. */
    method RestoreAbsentSource(m: Mutation) returns (o: Outcome)
      requires Valid() && m.Proper() && m.ordinal in durable && durable[m.ordinal] != CLEANED && m.Source() == Absent
      modifies this
      ensures Valid() && OnlyRegistered(old(removed), removed, m)
      ensures durable == old(durable) || durable == old(durable)[m.ordinal := CLEANED]
      ensures o == Refused ==> durable == old(durable)
      ensures NoOutsiders(old(script)) ==>
              NoOutsiders(script) && RolledBack(old(fs), old(durable)[m.ordinal], fs, durable[m.ordinal], m, o)
      ensures NoOutsiders(old(script)) && ForeignTarget(old(fs), m) ==>
              o != Done && fs == old(fs) && durable == old(durable)
      ensures NoOutsiders(old(script)) && TornTarget(old(fs), old(durable)[m.ordinal], m) ==>
              NoOutsiders(script) && o != Done && fs == old(fs) && durable == old(durable)
      ensures At(old(fs), m.Path()) !in {m.Source(), m.Target(), Absent} ==>
              o == Refused && fs == old(fs) && durable == old(durable) && script == old(script)
      ensures Stops(script) + Spent(o) == Stops(old(script))
    {
      ghost var before, state, calm := fs, durable[m.ordinal], NoOutsiders(script);
      AbsentSourceRecoverable(fs, state, m);
      hide Stops, RolledBack, Recoverable, Goal, Pending, Settled;
      var original := FingerprintAt(fs, m.Path(), m.Path());
      if m.SourceName() in fs.names {
        NothingRolledBack(fs, state, m, Refused);
        return Refused;
      }
      if original == m.intent.targetFingerprint {
        o := RemoveInstalledTarget(m);
        if o != Done {
          if calm { NothingRolledBack(before, state, m, o); }
          return;
        }
        if calm { TargetRemoved(before, fs, state, m); }
      } else if original != m.intent.sourceFingerprint {
        NothingRolledBack(fs, state, m, Refused);
        return Refused;
      }
      ghost var mid := fs;
      o := FinishRollback(m);
      if calm {
        RollbackContinues(before, mid, fs, state, durable[m.ordinal], m, o);
      }
    }

    /** The same when the path no longer shows the source. */
    method RestoreOverTarget(m: Mutation) returns (o: Outcome)
      requires Valid() && m.Proper() && m.ordinal in durable && durable[m.ordinal] != CLEANED
      requires m.Source() != Absent && At(fs, m.Path()) != m.Source() && !KeepsTarget(fs, durable[m.ordinal], m)
      modifies this
      ensures Valid() && OnlyRegistered(old(removed), removed, m)
      ensures durable == old(durable) || durable == old(durable)[m.ordinal := CLEANED]
      ensures o == Refused ==> durable == old(durable)
      ensures NoOutsiders(old(script)) ==>
              NoOutsiders(script) && RolledBack(old(fs), old(durable)[m.ordinal], fs, durable[m.ordinal], m, o)
      ensures NoOutsiders(old(script)) && ForeignTarget(old(fs), m) ==>
              o != Done && fs == old(fs) && durable == old(durable)
      ensures At(old(fs), m.Path()) !in {m.Source(), m.Target(), Absent} ==>
              o == Refused && fs == old(fs) && durable == old(durable) && script == old(script)
      ensures Stops(script) + Spent(o) == Stops(old(script))
    {
      ghost var before, state, calm := fs, durable[m.ordinal], NoOutsiders(script);
      PresentSourceRecoverable(fs, state, m);
      hide Stops, RolledBack, Recoverable, Goal, Pending, KeepsTarget;
      var original := FingerprintAt(fs, m.Path(), m.Path());
      var absent := Fingerprint(m.Path(), Absent);
      if m.SourceName() !in fs.names || FingerprintAt(fs, m.SourceName(), m.Path()) != m.intent.sourceFingerprint {
        NothingRolledBack(fs, state, m, Refused);
        return Refused;
      }
      if original != absent && original == m.intent.targetFingerprint {
        o := RemoveInstalledTarget(m);
        if o != Done {
          if calm { NothingRolledBack(before, state, m, o); }
          return;
        }
        if calm { TargetRemovedAgain(before, fs, state, m); }
      } else if original != absent {
        NothingRolledBack(fs, state, m, Refused);
        return Refused;
      }
      ghost var mid := fs;
      o := PutSourceBack(m);
      if calm {
        RollbackContinues(before, mid, fs, state, durable[m.ordinal], m, o);
      }
    }

    /** `restoreMutation` of a mutation that had a source to quarantine. */
    method RestorePresentSource(m: Mutation) returns (o: Outcome)
      requires Valid() && m.Proper() && m.ordinal in durable && durable[m.ordinal] != CLEANED
      requires m.Source() != Absent && !KeepsTarget(fs, durable[m.ordinal], m)
      modifies this
      ensures Valid() && OnlyRegistered(old(removed), removed, m)
      ensures durable == old(durable) || durable == old(durable)[m.ordinal := CLEANED]
      ensures o == Refused ==> durable == old(durable)
      ensures NoOutsiders(old(script)) ==>
              NoOutsiders(script) && RolledBack(old(fs), old(durable)[m.ordinal], fs, durable[m.ordinal], m, o)
      ensures NoOutsiders(old(script)) && ForeignTarget(old(fs), m) ==>
              o != Done && fs == old(fs) && durable == old(durable)
      ensures NoOutsiders(old(script)) && TornTarget(old(fs), old(durable)[m.ordinal], m) ==>
              NoOutsiders(script) && o != Done && fs == old(fs) && durable == old(durable)
      ensures At(old(fs), m.Path()) !in {m.Source(), m.Target(), Absent} ==>
              o == Refused && fs == old(fs) && durable == old(durable) && script == old(script)
      ensures Stops(script) + Spent(o) == Stops(old(script))
    {
      var original := FingerprintAt(fs, m.Path(), m.Path());
      if original == m.intent.sourceFingerprint {
        if m.SourceName() in fs.names {
          o := DropSourceAndFinish(m, false);
        } else {
          o := FinishRollback(m);
        }
        return;
      }
      o := RestoreOverTarget(m);
    }

    /** `restoreMutation`: it finishes exactly from the recoverable configurations, and an interrupted run stays in
        them. */
    method RestoreMutation(m: Mutation) returns (o: Outcome)
      requires Valid() && m.Proper() && m.ordinal in durable
      modifies this
      ensures Valid() && OnlyRegistered(old(removed), removed, m)
      ensures durable == old(durable) || durable == old(durable)[m.ordinal := CLEANED]
      ensures o == Refused ==> durable == old(durable)
      ensures old(durable)[m.ordinal] == CLEANED ==>
              fs == old(fs) && script == old(script) && (o == Done <==> Restored(fs, m, m.Source())) && o != Stopped
      ensures old(durable)[m.ordinal] != CLEANED && NoOutsiders(old(script)) ==>
              NoOutsiders(script) && RolledBack(old(fs), old(durable)[m.ordinal], fs, durable[m.ordinal], m, o)
      ensures old(durable)[m.ordinal] != CLEANED && NoOutsiders(old(script)) && ForeignTarget(old(fs), m) ==>
              && SameElsewhere(old(fs), fs, m.Names() - {m.Path()})
              && (KeepsTarget(old(fs), old(durable)[m.ordinal], m) || (o != Done && durable == old(durable)))
      ensures NoOutsiders(old(script)) && TornTarget(old(fs), old(durable)[m.ordinal], m) ==>
              NoOutsiders(script) && o != Done && fs == old(fs) && durable == old(durable)
      ensures At(old(fs), m.Path()) !in {m.Source(), m.Target(), Absent} ==>
              o == Refused && fs == old(fs) && durable == old(durable) && script == old(script)
      ensures Stops(script) + Spent(o) == Stops(old(script))
    {
      var state := durable[m.ordinal];
      var original := FingerprintAt(fs, m.Path(), m.Path());
      var sourceExists := m.SourceName() in fs.names;
      var absent := Fingerprint(m.Path(), Absent);
      if state == CLEANED {
        if original != m.intent.sourceFingerprint || sourceExists { return Refused; }
        return if TargetArtifact(fs, m) == Absent then Done else Refused;
      }
      if state == TARGET_VERIFIED && m.intent.sourceFingerprint != absent && !sourceExists
         && original == m.intent.targetFingerprint {
        o := FinishRollback(m);
      } else if m.intent.sourceFingerprint == absent {
        o := RestoreAbsentSource(m);
      } else {
        o := RestorePresentSource(m);
      }
    }

    /** Any number of interrupted rollbacks, until one is not: it leaves at the path what the first could promise, and
        comes about when there are more attempts than stops. */
    method RestoreUntilDone(m: Mutation, attempts: nat) returns (o: Outcome)
      requires Valid() && m.Proper() && m.ordinal in durable && durable[m.ordinal] != CLEANED
      modifies this
      ensures Valid() && OnlyRegistered(old(removed), removed, m)
      ensures durable == old(durable) || durable == old(durable)[m.ordinal := CLEANED]
      ensures NoOutsiders(old(script)) && Recoverable(old(fs), old(durable)[m.ordinal], m) ==>
              && NoOutsiders(script) && SameElsewhere(old(fs), fs, m.Names()) && o != Refused
              && Pending(fs, durable[m.ordinal], m, Goal(old(fs), old(durable)[m.ordinal], m))
              && (o == Done ==> durable[m.ordinal] == CLEANED)
      ensures NoOutsiders(old(script)) && TornTarget(old(fs), old(durable)[m.ordinal], m) ==>
              NoOutsiders(script) && o != Done && fs == old(fs) && durable == old(durable)
      ensures Stops(script) <= Stops(old(script)) && (attempts > Stops(old(script)) ==> o != Stopped)
    {
      hide Stops;
      o := Stopped;
      ghost var goal := Goal(fs, durable[m.ordinal], m);
      for i := 0 to attempts
        invariant Valid() && OnlyRegistered(old(removed), removed, m) && o == Stopped
        invariant durable == old(durable) || durable == old(durable)[m.ordinal := CLEANED]
        invariant NoOutsiders(old(script)) && Recoverable(old(fs), old(durable)[m.ordinal], m) ==>
                  && NoOutsiders(script) && SameElsewhere(old(fs), fs, m.Names())
                  && Pending(fs, durable[m.ordinal], m, goal)
        invariant NoOutsiders(old(script)) && TornTarget(old(fs), old(durable)[m.ordinal], m) ==>
                  NoOutsiders(script) && fs == old(fs) && durable == old(durable)
        invariant Stops(script) + i == Stops(old(script))
      {
        if durable[m.ordinal] == CLEANED { return Done; }
        o := RestoreMutation(m);
        if o != Stopped { return; }
      }
      o := if durable[m.ordinal] == CLEANED then Done else o;
    }

    // ---- the forward operations ----

    method Begin(m: Mutation) returns (o: Outcome)
      requires Valid() && m.ordinal !in durable
      modifies this`fs, this`script, this`durable
      ensures Valid() && (NoOutsiders(old(script)) ==> fs == old(fs) && NoOutsiders(script))
      ensures o != Refused
      ensures durable == old(durable)[m.ordinal := INTENT] || (o == Stopped && durable == old(durable))
      ensures script == Rest(old(script)) && (o == Stopped <==> Next(old(script)).Stop?)
      ensures Stops(script) + Spent(o) == Stops(old(script))
    {
      var e := Tick();
      if !e.Stop? || e.records > 0 {
        durable := durable[m.ordinal := INTENT];
      }
      return if e.Stop? then Stopped else Done;
    }

    /** `advanceMany`: a stop leaves any prefix of the states behind. */
    method AdvanceMany(m: Mutation, states: seq<MutationState>) returns (o: Outcome)
      requires Valid() && m.ordinal in durable && states != []
      requires forall i :: 0 <= i < |states| ==> Rank(states[i]) == Rank(durable[m.ordinal]) + 1 + i
      modifies this`fs, this`script, this`durable
      ensures Valid() && (NoOutsiders(old(script)) ==> fs == old(fs) && NoOutsiders(script))
      ensures o != Refused && m.ordinal in durable && durable == old(durable)[m.ordinal := durable[m.ordinal]]
      ensures durable[m.ordinal] == old(durable)[m.ordinal] || durable[m.ordinal] in states
      ensures o == Done ==> durable[m.ordinal] == states[|states| - 1]
      ensures Stops(script) + Spent(o) == Stops(old(script))
    {
      var e := Tick();
      var n := if e.Stop? && e.records < |states| then e.records else |states|;
      if n > 0 {
        durable := durable[m.ordinal := states[n - 1]];
      }
      return if e.Stop? then Stopped else Done;
    }

    /** `writeBytesExclusive` on the target artifact, and the check of what it wrote. */
    method CreateTarget(m: Mutation, bytes: Leaf) returns (o: Outcome)
      requires Valid() && m.Proper() && m.intent.kind == WriteFile && bytes.File?
      modifies this`fs, this`script
      ensures Valid()
      ensures NoOutsiders(old(script)) ==>
              && NoOutsiders(script) && SameElsewhere(old(fs), fs, {m.intent.targetArtifact.value})
              && (o != Stopped ==> (o == Done <==> TargetArtifact(old(fs), m) == Absent && bytes == m.Target()))
              && (TargetArtifact(old(fs), m) != Absent ==> fs == old(fs))
              && (o == Done ==> TargetArtifact(fs, m) == m.Target())
      ensures NoOutsiders(old(script)) && Untouched(old(fs), m) ==>
              && NoOutsiders(script) && SameElsewhere(old(fs), fs, m.Names())
              && At(fs, m.Path()) == m.Source() && At(fs, m.SourceName()) == Absent
              && (o == Done ==> Prepared(fs, m))
              && (o == Refused <==> o != Stopped && bytes != m.Target())
              && (o == Refused ==> TornTarget(fs, INTENT, m))
      ensures NoOutsiders(old(script)) && Untouched(old(fs), m) && StopsAfter(old(script), 1)
              && old(script)[1].torn.File? ==>
              o == Stopped && TargetArtifact(fs, m) == old(script)[1].torn && script == old(script)[2..]
      ensures Stops(script) + Spent(o) == Stops(old(script))
    {
      hide Stops, Unshared, KeepsPrivate;
      var e := Tick();
      if e.Stop? { return Stopped; }
      var target := m.intent.targetArtifact.value;
      var r := CreateCall(fs, target, File("", bytes.executable));
      if r.Failed? { return Refused; }
      fs := r.value;
      e := Tick();
      fs := WriteCall(fs, target, if !e.Stop? then bytes else if e.torn.File? then e.torn else At(fs, target));
      if e.Stop? { return Stopped; }
      return if FingerprintAt(fs, target, m.Path()) == m.intent.targetFingerprint then Done else Refused;
    }

    /** The first half of `quarantineSource`: a second name, or a copy of the symlink, for the leaf at the path. */
    method CaptureSource(m: Mutation) returns (o: Outcome)
      requires Valid() && m.Proper()
      modifies this`fs, this`script
      ensures Valid()
      ensures NoOutsiders(old(script)) ==>
              && NoOutsiders(script) && SameElsewhere(old(fs), fs, {m.SourceName()})
              && (o != Stopped ==>
                    (o == Done <==>
                     At(old(fs), m.Path()) == m.Source() != Absent && At(old(fs), m.SourceName()) == Absent))
              && (o == Done ==>
                  At(fs, m.SourceName()) == m.Source()
                  && (m.Source().File? ==> SameInode(fs, m.SourceName(), m.Path())))
              && (o != Done ==> fs == old(fs))
      ensures Stops(script) + Spent(o) == Stops(old(script))
    {
      var e := Tick();
      if e.Stop? { return Stopped; }
      var leaf := At(fs, m.Path());
      if FingerprintAt(fs, m.Path(), m.Path()) != m.intent.sourceFingerprint || leaf == Absent { return Refused; }
      e := Tick();
      if e.Stop? { return Stopped; }
      var r := if leaf.Link? then CreateCall(fs, m.SourceName(), leaf) else LinkCall(fs, m.Path(), m.SourceName());
      if r.Failed? { return Refused; }
      fs := r.value;
      return Done;
    }

    /** The second half: remove the path while it and the artifact still show the registered source. */
    method RemoveSource(m: Mutation) returns (o: Outcome)
      requires Valid() && m.Proper()
      modifies this`fs, this`script, this`removed
      ensures Valid() && OnlyRegistered(old(removed), removed, m)
      ensures NoOutsiders(old(script)) ==>
              && NoOutsiders(script)
              && (o != Stopped ==>
                    (o == Done <==>
                     && At(old(fs), m.Path()) == At(old(fs), m.SourceName()) == m.Source() != Absent
                     && (m.Source().File? ==> SameInode(old(fs), m.SourceName(), m.Path()))))
              && (o == Done ==> fs == UnlinkCall(old(fs), m.Path()).value)
              && (o != Done ==> fs == old(fs))
      ensures Stops(script) + Spent(o) == Stops(old(script))
    {
      var e := Tick();
      if e.Stop? { return Stopped; }
      if FingerprintAt(fs, m.SourceName(), m.Path()) != m.intent.sourceFingerprint { return Refused; }
      if FingerprintAt(fs, m.Path(), m.Path()) != m.intent.sourceFingerprint { return Refused; }
      if At(fs, m.Path()).File? && !SameInode(fs, m.SourceName(), m.Path()) { return Refused; }
      var ok := Unlink(m.Path());
      return if ok then Done else Refused;
    }

    /** `quarantineSource`. */
    method QuarantineSource(m: Mutation) returns (o: Outcome)
      requires Valid() && m.Proper()
      modifies this`fs, this`script, this`removed
      ensures Valid() && OnlyRegistered(old(removed), removed, m)
      ensures NoOutsiders(old(script)) ==>
              && NoOutsiders(script)
              && (o != Stopped ==> (o == Done <==> ShowsSource(old(fs), m)))
              && (!ShowsSource(old(fs), m) ==> fs == old(fs))
      ensures NoOutsiders(old(script)) && Prepared(old(fs), m) ==>
              && SameElsewhere(old(fs), fs, m.Names())
              && (o == Done ==> Quarantined(fs, m))
              && (o == Stopped && (m.Target() != Absent || m.Source() != Absent) ==> Pending(fs, INTENT, m, m.Source()))
      ensures Stops(script) + Spent(o) == Stops(old(script))
    {
      hide Stops, Pending, Quarantined, TargetReady, OwnsPath;
      ghost var before := fs;
      ghost var calm := NoOutsiders(script) && Prepared(fs, m);
      ghost var counts := m.Source() != Absent || m.Target() != Absent;
      if calm && counts { StagesArePending(fs, INTENT, m); }
      if m.Source() == Absent {
        if calm { NothingToQuarantine(fs, m); }
        var e := Tick();
        if e.Stop? { return Stopped; }
        return if At(fs, m.Path()) == Absent && At(fs, m.SourceName()) == Absent then Done else Refused;
      }
      o := CaptureSource(m);
      if o != Done { return; }
      ghost var mid := fs;
      if calm {
        SourceCaptured(before, fs, m);
        StagesArePending(fs, INTENT, m);
      }
      o := RemoveSource(m);
      if calm && o == Done { SourceVacated(before, mid, fs, m); }
    }

    /** Put the target under the path, which must be free: a link to the artifact, a new symlink, or nothing for a
        delete. */
    method InstallTarget(m: Mutation) returns (o: Outcome)
      requires Valid() && m.Proper()
      requires m.intent.kind == WriteSymlink ==> m.Target().Link?
      requires m.intent.kind == DeleteLeaf ==> m.Target() == Absent
      requires m.intent.kind == WriteFile ==> m.Target().File?
      modifies this`fs, this`script
      ensures Valid()
      ensures NoOutsiders(old(script)) && Quarantined(old(fs), m) ==>
              && NoOutsiders(script) && SameElsewhere(old(fs), fs, {m.Path()}) && o != Refused
              && (o == Done ==> Installed(fs, m))
              && (o == Stopped ==> fs == old(fs))
      ensures Stops(script) + Spent(o) == Stops(old(script))
    {
      var e := Tick();
      if e.Stop? { return Stopped; }
      if m.intent.kind == DeleteLeaf {
        return if FingerprintAt(fs, m.Path(), m.Path()) == m.intent.targetFingerprint then Done else Refused;
      }
      if m.intent.kind == WriteFile
         && FingerprintAt(fs, m.intent.targetArtifact.value, m.Path()) != m.intent.targetFingerprint {
        return Refused;
      }
      var r := if m.intent.kind == WriteFile then LinkCall(fs, m.intent.targetArtifact.value, m.Path())
               else CreateCall(fs, m.Path(), m.Target());
      if r.Failed? { return Refused; }
      fs := r.value;
      return if FingerprintAt(fs, m.Path(), m.Path()) == m.intent.targetFingerprint then Done else Refused;
    }

    /** What every forward operation does after its record is begun and its target is ready. */
    method Perform(m: Mutation) returns (o: Outcome)
      requires Valid() && m.Proper() && m.ordinal in durable && durable[m.ordinal] == INTENT
      requires m.intent.kind == WriteSymlink ==> m.Target().Link?
      requires m.intent.kind == DeleteLeaf ==> m.Target() == Absent
      requires m.intent.kind == WriteFile ==> m.Target().File?
      modifies this
      ensures Valid() && OnlyRegistered(old(removed), removed, m)
      ensures m.ordinal in durable && durable == old(durable)[m.ordinal := durable[m.ordinal]]
      ensures NoOutsiders(old(script)) && TargetReady(old(fs), m) ==>
              && NoOutsiders(script)
              && (o != Stopped ==> (o == Done <==> ShowsSource(old(fs), m)))
              && (!ShowsSource(old(fs), m) ==> fs == old(fs) && durable == old(durable))
      ensures NoOutsiders(old(script)) && Prepared(old(fs), m) ==>
              && SameElsewhere(old(fs), fs, m.Names())
              && (m.Source() != Absent || m.Target() != Absent ==> Pending(fs, durable[m.ordinal], m, m.Source()))
              && durable[m.ordinal] != CLEANED && (durable[m.ordinal] != INTENT ==> Installed(fs, m))
              && (o == Done ==> durable[m.ordinal] == TARGET_VERIFIED)
      ensures Stops(script) + Spent(o) == Stops(old(script))
    {
      hide Stops, Pending, Prepared, Quarantined, Installed, ShowsSource, TargetReady;
      PreparedMeans(fs, m);
      ghost var calm := NoOutsiders(script) && Prepared(fs, m) && (m.Source() != Absent || m.Target() != Absent);
      o := QuarantineSource(m);
      if o != Done { return; }
      if calm { StagesArePending(fs, durable[m.ordinal], m); }
      o := InstallTarget(m);
      if o != Done { return; }
      o := AdvanceMany(m, [SOURCE_QUARANTINED, SOURCE_VERIFIED, TARGET_INSTALLED, TARGET_VERIFIED]);
      if calm { StagesArePending(fs, durable[m.ordinal], m); }
    }

    /** The last step of `replaceFile`. */
    method RemoveTargetArtifact(m: Mutation) returns (o: Outcome)
      requires Valid() && m.Proper() && m.intent.kind == WriteFile
      modifies this`fs, this`script, this`removed
      ensures Valid() && OnlyRegistered(old(removed), removed, m)
      ensures NoOutsiders(old(script)) && Installed(old(fs), m) && m.Target() != Absent ==>
              && NoOutsiders(script) && SameElsewhere(old(fs), fs, m.Names()) && o != Refused
              && (o == Done ==> Complete(fs, m))
              && (o == Stopped ==> fs == old(fs))
      ensures Stops(script) + Spent(o) == Stops(old(script))
    {
      var e := Tick();
      if e.Stop? { return Stopped; }
      var ok := Unlink(m.intent.targetArtifact.value);
      return if ok then Done else Refused;
    }

    /** `replaceFile`. Unless the bytes are not the announced ones, it completes or leaves something a rollback can
        undo. */
    method ReplaceFile(m: Mutation, bytes: Leaf) returns (o: Outcome)
      requires Valid() && m.Proper() && m.ordinal !in durable && m.intent.kind == WriteFile && bytes.File?
               && m.Target().File?
      modifies this
      ensures Valid() && OnlyRegistered(old(removed), removed, m)
      ensures o == Done ==> m.ordinal in durable
      ensures durable == old(durable)
              || (m.ordinal in durable && durable == old(durable)[m.ordinal := durable[m.ordinal]])
      ensures NoOutsiders(old(script)) && o != Stopped ==> (o == Done <==> Untouched(old(fs), m) && bytes == m.Target())
      ensures NoOutsiders(old(script)) && !(Untouched(old(fs), m) && bytes == m.Target()) ==>
              && SameElsewhere(old(fs), fs, {m.intent.targetArtifact.value})
              && (TargetArtifact(old(fs), m) != Absent ==> fs == old(fs))
              && (m.ordinal in durable ==> durable[m.ordinal] == INTENT)
      ensures NoOutsiders(old(script)) && Untouched(old(fs), m) ==>
              && NoOutsiders(script) && SameElsewhere(old(fs), fs, m.Names())
              && (o == Done ==> m.ordinal in durable && Complete(fs, m) && durable[m.ordinal] == TARGET_VERIFIED)
              && (m.ordinal in durable && durable[m.ordinal] != INTENT ==> Installed(fs, m) || Complete(fs, m))
              && (o == Refused ==> m.ordinal in durable && bytes != m.Target() && TornTarget(fs, durable[m.ordinal], m))
              && (o == Stopped ==> if m.ordinal !in durable then fs == old(fs) else Undoable(fs, durable[m.ordinal], m))
      ensures NoOutsiders(old(script)) && Untouched(old(fs), m) && StopsAfter(old(script), 2)
              && old(script)[2].torn.File? ==>
              && o == Stopped && script == old(script)[3..] && m.ordinal in durable && durable[m.ordinal] == INTENT
              && At(fs, m.Path()) == m.Source() && At(fs, m.SourceName()) == Absent
              && TargetArtifact(fs, m) == old(script)[2].torn
      ensures Stops(script) + Spent(o) == Stops(old(script))
    {
      hide Stops, Pending, Prepared, Installed, Complete, ShowsSource, TargetReady, TargetArtifact, TornTarget,
           Untouched, Undoable, OwnsPath;
      ghost var before, calm := fs, NoOutsiders(script) && Untouched(fs, m);
      TargetMade(fs, fs, m);
      if calm { NotYetMoved(fs, m); }
      o := Begin(m);
      if o != Done { return; }
      o := CreateTarget(m, bytes);
      if NoOutsiders(old(script)) { TargetMade(before, fs, m); }
      if calm { NotYetMoved(fs, m); }
      if o != Done { return; }
      o := Perform(m);
      if calm && durable[m.ordinal] != CLEANED { PendingIsUndoable(fs, durable[m.ordinal], m); }
      if o != Done { return; }
      o := RemoveTargetArtifact(m);
    }

    /** `replaceSymlink` and `deleteLeaf`: no target artifact. */
    method ReplaceSymlinkOrDelete(m: Mutation) returns (o: Outcome)
      requires Valid() && m.Proper() && m.ordinal !in durable && m.intent.kind != WriteFile
      modifies this
      ensures Valid() && OnlyRegistered(old(removed), removed, m)
      ensures durable == old(durable)
              || (m.ordinal in durable && durable == old(durable)[m.ordinal := durable[m.ordinal]])
      ensures NoOutsiders(old(script)) && o != Stopped ==>
              (o == Done <==>
               && ShowsSource(old(fs), m)
               && (if m.intent.kind == DeleteLeaf then m.Target() == Absent else m.Target().Link?))
      ensures NoOutsiders(old(script)) && !ShowsSource(old(fs), m) ==>
              fs == old(fs) && (m.ordinal in durable ==> durable[m.ordinal] == INTENT)
      ensures NoOutsiders(old(script)) && Untouched(old(fs), m) ==>
              && NoOutsiders(script) && SameElsewhere(old(fs), fs, m.Names())
              && (o == Done ==> m.ordinal in durable && Complete(fs, m) && durable[m.ordinal] == TARGET_VERIFIED)
              && (m.ordinal in durable && durable[m.ordinal] != INTENT ==> Installed(fs, m))
              && (o == Refused ==> durable == old(durable) && fs == old(fs)
                                   && !(if m.intent.kind == DeleteLeaf then m.Target() == Absent else m.Target().Link?))
              && (o == Stopped && m.ordinal !in durable ==> fs == old(fs))
              && (o == Stopped && m.ordinal in durable && (m.Source() != Absent || m.Target() != Absent) ==>
                    Pending(fs, durable[m.ordinal], m, m.Source()))
      ensures Stops(script) + Spent(o) == Stops(old(script))
    {
      if !(if m.intent.kind == DeleteLeaf then m.Target() == Absent else m.Target().Link?) { return Refused; }
      o := Begin(m);
      if o != Done { return; }
      o := Perform(m);
    }

    /** `cleanupVerifiedArtifacts`. */
    method CleanArtifacts(m: Mutation) returns (o: Outcome)
      requires Valid() && m.Proper()
      modifies this`fs, this`script, this`removed
      ensures Valid() && OnlyRegistered(old(removed), removed, m)
      ensures NoOutsiders(old(script)) ==>
              && NoOutsiders(script) && SameElsewhere(old(fs), fs, m.Names() - {m.Path()})
              && (o != Stopped ==> (o == Done <==> ArtifactsKnown(old(fs), m)))
      ensures NoOutsiders(old(script)) && CleaningUp(old(fs), m) ==>
              && NoOutsiders(script) && SameElsewhere(old(fs), fs, m.Names()) && o != Refused
              && CleaningUp(fs, m) && At(fs, m.Path()) == m.Target() && (o == Done ==> Restored(fs, m, m.Target()))
      ensures NoOutsiders(old(script)) && CleaningUp(old(fs), m) && m.SourceName() in old(fs).names
              && m.intent.targetArtifact.Some? && StopsAfter(old(script), 1) ==>
              o == Stopped && m.SourceName() !in fs.names && script == old(script)[2..]
      ensures Stops(script) + Spent(o) == Stops(old(script))
    {
      hide Stops, OwnsPath, TargetArtifact, SameElsewhere, ArtifactsKnown, CleaningUp, Restored;
      ghost var before, calm := fs, NoOutsiders(script);
      NothingCleaned(fs, m);
      if m.SourceName() in fs.names {
        o := DropSource(m, false);
        if o != Done { return; }
        if calm { SourceArtifactDropped(before, fs, m); }
      }
      ghost var mid := fs;
      NothingCleaned(mid, m);
      o := CleanupRollbackTarget(m);
      if calm {
        TargetArtifactDropped(before, mid, fs, m);
        NothingCleaned(fs, m);
      }
    }

    /** `cleanupMutation`: interrupted, it leaves the target and a rollback that brings back either the old or the new
        leaf. */
    method CleanupMutation(m: Mutation) returns (o: Outcome)
      requires Valid() && m.Proper() && m.ordinal in durable
      modifies this
      ensures Valid() && OnlyRegistered(old(removed), removed, m)
      ensures m.ordinal in durable && durable == old(durable)[m.ordinal := durable[m.ordinal]]
      ensures old(durable)[m.ordinal] == CLEANED ==> fs == old(fs) && o == Done
      ensures old(durable)[m.ordinal] !in {CLEANED, TARGET_VERIFIED} ==>
              o == Refused && fs == old(fs) && durable == old(durable) && script == old(script)
      ensures NoOutsiders(old(script)) && old(durable)[m.ordinal] == TARGET_VERIFIED ==>
              && SameElsewhere(old(fs), fs, m.Names() - {m.Path()})
              && (o != Stopped ==>
                    (o == Done <==> At(old(fs), m.Path()) == m.Target() && ArtifactsKnown(old(fs), m)))
      ensures NoOutsiders(old(script)) && old(durable)[m.ordinal] == TARGET_VERIFIED
              && (Complete(old(fs), m) || Installed(old(fs), m)) ==>
              && NoOutsiders(script) && SameElsewhere(old(fs), fs, m.Names()) && o != Refused
              && At(fs, m.Path()) == m.Target()
              && (o == Done ==> durable[m.ordinal] == CLEANED)
              && (durable[m.ordinal] == CLEANED ==> Restored(fs, m, m.Target()))
              && (durable[m.ordinal] != CLEANED && (m.Source() != Absent || m.Target() != Absent) ==>
                    Pending(fs, durable[m.ordinal], m,
                            if m.Source() != Absent && m.SourceName() !in fs.names then m.Target() else m.Source()))
      ensures NoOutsiders(old(script)) && old(durable)[m.ordinal] == TARGET_VERIFIED && Complete(old(fs), m)
              && m.Source() != Absent && m.intent.targetArtifact.Some? && StopsAfter(old(script), 1) ==>
              && o == Stopped && script == old(script)[2..] && durable == old(durable)
              && KeepsTarget(fs, durable[m.ordinal], m)
      ensures Stops(script) + Spent(o) == Stops(old(script))
    {
      if durable[m.ordinal] == CLEANED { return Done; }
      if durable[m.ordinal] != TARGET_VERIFIED { return Refused; }
      ghost var calm := NoOutsiders(script) && (Complete(fs, m) || Installed(fs, m));
      assert calm ==> CleaningUp(fs, m);
      NothingCleaned(fs, m);
      hide Stops, Complete, Installed, CleaningUp, Recoverable, Goal, ArtifactsKnown, SameElsewhere, Pending;
      if FingerprintAt(fs, m.Path(), m.Path()) != m.intent.targetFingerprint { return Refused; }
      o := CleanArtifacts(m);
      if calm && (m.Source() != Absent || m.Target() != Absent) { CleaningUpIsPending(fs, m); }
      if o != Done { return; }
      o := AdvanceMany(m, [CLEANED]);
    }

    // ---- rolling forward ----

    /** Free the path of the captured source, or find it free. */
    method FreeCapturedPath(m: Mutation) returns (o: Outcome)
      requires Valid() && m.Proper()
      modifies this`fs, this`script, this`removed
      ensures Valid() && OnlyRegistered(old(removed), removed, m)
      ensures NoOutsiders(old(script)) ==>
              && NoOutsiders(script) && SameElsewhere(old(fs), fs, {m.Path()})
              && (o != Stopped ==> (o == Done <==> CanFree(old(fs), m)))
              && (if o == Done then At(fs, m.Path()) == Absent else fs == old(fs))
      ensures Stops(script) + Spent(o) == Stops(old(script))
    {
      var e := Tick();
      if e.Stop? { return Stopped; }
      if m.Source() == Absent {
        return if m.SourceName() in fs.names || At(fs, m.Path()) != Absent then Refused else Done;
      }
      if FingerprintAt(fs, m.SourceName(), m.Path()) != m.intent.sourceFingerprint { return Refused; }
      if At(fs, m.Path()) == m.Source() {
        if At(fs, m.Path()).File? && !SameInode(fs, m.Path(), m.SourceName()) { return Refused; }
        var ok := Unlink(m.Path());
        return Done;
      }
      return if At(fs, m.Path()) == Absent then Done else Refused;
    }

    /** The first stage of rolling forward. */
    method ForwardFromIntent(m: Mutation) returns (o: Outcome)
      requires Valid() && m.Proper() && m.ordinal in durable && durable[m.ordinal] == INTENT
      modifies this
      ensures Valid() && OnlyRegistered(old(removed), removed, m)
      ensures m.ordinal in durable && durable == old(durable)[m.ordinal := durable[m.ordinal]]
      ensures durable[m.ordinal] in {INTENT, SOURCE_QUARANTINED, SOURCE_VERIFIED}
              && (o == Done ==> durable[m.ordinal] == SOURCE_VERIFIED)
      ensures NoOutsiders(old(script)) ==>
              && NoOutsiders(script) && SameElsewhere(old(fs), fs, {m.Path()})
              && (Forwardable(old(fs), INTENT, m) ==> Forwardable(fs, durable[m.ordinal], m) && o != Refused)
              && (o == Done && Forwardable(fs, SOURCE_VERIFIED, m) ==> Forwardable(old(fs), INTENT, m))
      ensures Stops(script) + Spent(o) == Stops(old(script))
    {
      o := FreeCapturedPath(m);
      if o != Done { return; }
      o := AdvanceMany(m, [SOURCE_QUARANTINED, SOURCE_VERIFIED]);
    }

    /** Put the target under the path, or find it there. */
    method ForwardInstall(m: Mutation) returns (o: Outcome)
      requires Valid() && m.Proper() && m.ordinal in durable && durable[m.ordinal] == SOURCE_VERIFIED
      modifies this`fs, this`script, this`durable
      ensures Valid() && m.ordinal in durable && durable == old(durable)[m.ordinal := durable[m.ordinal]]
      ensures durable[m.ordinal] in {SOURCE_VERIFIED, TARGET_INSTALLED}
              && (o == Done ==> durable[m.ordinal] == TARGET_INSTALLED)
      ensures NoOutsiders(old(script)) ==>
              && NoOutsiders(script) && SameElsewhere(old(fs), fs, {m.Path()})
              && (Forwardable(old(fs), SOURCE_VERIFIED, m) ==> Forwardable(fs, durable[m.ordinal], m) && o != Refused)
              && (o == Done ==> Forwardable(old(fs), SOURCE_VERIFIED, m))
      ensures Stops(script) + Spent(o) == Stops(old(script))
    {
      var e := Tick();
      if e.Stop? { return Stopped; }
      match m.intent.kind
      case WriteFile =>
        var target := m.intent.targetArtifact.value;
        if target !in fs.names || FingerprintAt(fs, target, m.Path()) != m.intent.targetFingerprint { return Refused; }
        var r := LinkCall(fs, target, m.Path());
        if r.Ok? {
          fs := r.value;
        } else if FingerprintAt(fs, m.Path(), m.Path()) != m.intent.targetFingerprint {
          return Refused;
        }
        o := AdvanceMany(m, [TARGET_INSTALLED]);
      case DeleteLeaf =>
        if FingerprintAt(fs, m.Path(), m.Path()) != m.intent.targetFingerprint { return Refused; }
        o := AdvanceMany(m, [TARGET_INSTALLED]);
      case WriteSymlink => return Refused;
    }

    /** Verify the target and drop its artifact. */
    method ForwardVerify(m: Mutation) returns (o: Outcome)
      requires Valid() && m.Proper() && m.ordinal in durable && durable[m.ordinal] == TARGET_INSTALLED
      modifies this
      ensures Valid() && OnlyRegistered(old(removed), removed, m)
      ensures m.ordinal in durable && durable == old(durable)[m.ordinal := durable[m.ordinal]]
      ensures durable[m.ordinal] in {TARGET_INSTALLED, TARGET_VERIFIED}
              && (o == Done ==> durable[m.ordinal] == TARGET_VERIFIED)
      ensures NoOutsiders(old(script)) ==>
              && NoOutsiders(script) && SameElsewhere(old(fs), fs, m.Names() - {m.Path(), m.SourceName()})
              && (Forwardable(old(fs), TARGET_INSTALLED, m) ==> Forwardable(fs, durable[m.ordinal], m) && o != Refused)
              && (o == Done ==> Forwardable(old(fs), TARGET_INSTALLED, m) && At(fs, m.Path()) == m.Target()
                                && TargetArtifact(fs, m) == Absent)
      ensures Stops(script) + Spent(o) == Stops(old(script))
    {
      if FingerprintAt(fs, m.Path(), m.Path()) != m.intent.targetFingerprint { return Refused; }
      o := CleanupRollbackTarget(m);
      if o != Done { return; }
      o := AdvanceMany(m, [TARGET_VERIFIED]);
    }

    method ForwardFromQuarantined(m: Mutation) returns (o: Outcome)
      requires Valid() && m.Proper() && m.ordinal in durable && durable[m.ordinal] == SOURCE_QUARANTINED
      modifies this`fs, this`script, this`durable
      ensures Valid() && m.ordinal in durable && durable == old(durable)[m.ordinal := durable[m.ordinal]]
      ensures durable[m.ordinal] in {SOURCE_QUARANTINED, SOURCE_VERIFIED}
              && (o == Done ==> durable[m.ordinal] == SOURCE_VERIFIED)
      ensures NoOutsiders(old(script)) ==>
              && NoOutsiders(script) && fs == old(fs)
              && (Forwardable(old(fs), SOURCE_QUARANTINED, m) ==>
                  Forwardable(fs, durable[m.ordinal], m) && o != Refused)
              && (o == Done && Forwardable(fs, SOURCE_VERIFIED, m) ==> Forwardable(old(fs), SOURCE_QUARANTINED, m))
      ensures Stops(script) + Spent(o) == Stops(old(script))
    {
      var e := Tick();
      if e.Stop? { return Stopped; }
      if m.Source() == Absent {
        if m.SourceName() in fs.names { return Refused; }
      } else if FingerprintAt(fs, m.SourceName(), m.Path()) != m.intent.sourceFingerprint {
        return Refused;
      }
      o := AdvanceMany(m, [SOURCE_VERIFIED]);
    }

    /** From a verified source on. */
    method ForwardFromVerified(m: Mutation) returns (o: Outcome)
      requires Valid() && m.Proper() && m.ordinal in durable && Rank(durable[m.ordinal]) >= Rank(SOURCE_VERIFIED)
      modifies this
      ensures Valid() && OnlyRegistered(old(removed), removed, m)
      ensures m.ordinal in durable && durable == old(durable)[m.ordinal := durable[m.ordinal]]
      ensures o == Done ==> durable[m.ordinal] in {TARGET_VERIFIED, CLEANED}
      ensures NoOutsiders(old(script)) ==>
              NoOutsiders(script) && RolledForward(old(fs), old(durable)[m.ordinal], fs, durable[m.ordinal], m, o)
      ensures Stops(script) + Spent(o) == Stops(old(script))
    {
      assert durable[m.ordinal] in {TARGET_VERIFIED, CLEANED} ==> Forwardable(fs, durable[m.ordinal], m);
      hide Forwardable, OwnsPath, TargetArtifact;
      o := Done;
      if durable[m.ordinal] == SOURCE_VERIFIED {
        o := ForwardInstall(m);
        if o != Done { return; }
      }
      if durable[m.ordinal] == TARGET_INSTALLED {
        o := ForwardVerify(m);
      }
    }

    /** `rollForwardMutation`: it finishes exactly from the forwardable configurations, and an interrupted run stays in
        them; when it had anything to do, the path then holds the target. */
    method RollForwardMutation(m: Mutation) returns (o: Outcome)
      requires Valid() && m.Proper() && m.ordinal in durable
      modifies this
      ensures Valid() && OnlyRegistered(old(removed), removed, m)
      ensures m.ordinal in durable && durable == old(durable)[m.ordinal := durable[m.ordinal]]
      ensures o == Done ==> durable[m.ordinal] in {TARGET_VERIFIED, CLEANED}
      ensures NoOutsiders(old(script)) ==>
              NoOutsiders(script) && RolledForward(old(fs), old(durable)[m.ordinal], fs, durable[m.ordinal], m, o)
      ensures Stops(script) + Spent(o) == Stops(old(script))
    {
      hide Forwardable, OwnsPath, TargetArtifact;
      ghost var before, state := fs, durable[m.ordinal];
      if durable[m.ordinal] == INTENT {
        o := ForwardFromIntent(m);
        if o != Done { return; }
      } else if durable[m.ordinal] == SOURCE_QUARANTINED {
        o := ForwardFromQuarantined(m);
        if o != Done { return; }
      }
      ghost var mid, reached := fs, durable[m.ordinal];
      o := ForwardFromVerified(m);
      if NoOutsiders(old(script)) {
        hide RolledForward;
        ForwardContinues(before, state, mid, reached, fs, durable[m.ordinal], m, o);
      }
    }
  }
}
