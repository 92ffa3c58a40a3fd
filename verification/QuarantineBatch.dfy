/** Rolling back all pending mutations of a journal, newest first, through any number of crashes. */
module QuarantineBatch {
  import opened Mutations
  import opened FileSystem
  import opened Quarantine

  /** Different mutations have different ordinals and no name in common. */
  ghost predicate Apart(ms: seq<Mutation>) {
    forall i, j :: 0 <= i < j < |ms| ==> ms[i].ordinal != ms[j].ordinal && ms[i].Names() !! ms[j].Names()
  }

  ghost predicate Registered(w: Workspace, ms: seq<Mutation>)
    reads w
  {
    w.Valid() && Apart(ms) && forall i :: 0 <= i < |ms| ==> ms[i].Proper() && ms[i].ordinal in w.durable
  }

  ghost predicate AllPending(fs: Files, durable: map<nat, MutationState>, ms: seq<Mutation>, goals: seq<Leaf>)
    requires WellFormed(fs) && |goals| == |ms| && forall i :: 0 <= i < |ms| ==> ms[i].ordinal in durable
  {
    forall i :: 0 <= i < |ms| ==> Pending(fs, durable[ms[i].ordinal], ms[i], goals[i])
  }

  /** A step on one mutation leaves the promises of the others alone. */
  lemma OthersStayPending(before: Files, durable: map<nat, MutationState>, after: Files, next: map<nat, MutationState>,
                          ms: seq<Mutation>, goals: seq<Leaf>, k: nat)
    requires WellFormed(before) && WellFormed(after) && Apart(ms) && k < |ms| == |goals|
    requires forall i :: 0 <= i < |ms| ==> ms[i].ordinal in durable && ms[i].ordinal in next
    requires AllPending(before, durable, ms, goals) && SameElsewhere(before, after, ms[k].Names())
    requires next == durable[ms[k].ordinal := next[ms[k].ordinal]]
    requires Pending(after, next[ms[k].ordinal], ms[k], goals[k])
    ensures AllPending(after, next, ms, goals)
  {
    forall i | 0 <= i < |ms| && i != k
      ensures Pending(after, next[ms[i].ordinal], ms[i], goals[i])
    {
      assert ms[k].Names() !! ms[i].Names();
      UntouchedNamesFrame(before, after, ms[k].Names(), ms[i], durable[ms[i].ordinal]);
      assert Pending(before, durable[ms[i].ordinal], ms[i], goals[i]);
    }
  }

  /** Every record that is not CLEANED can be rolled back. */
  ghost predicate AllRecoverable(fs: Files, durable: map<nat, MutationState>, ms: seq<Mutation>)
    requires WellFormed(fs) && forall i :: 0 <= i < |ms| ==> ms[i].ordinal in durable
  {
    forall i :: 0 <= i < |ms| ==> durable[ms[i].ordinal] == CLEANED || Recoverable(fs, durable[ms[i].ordinal], ms[i])
  }

  /** The records before `k` are as they were. */
  ghost predicate AsBefore(before: Files, durable: map<nat, MutationState>, after: Files,
                           next: map<nat, MutationState>, ms: seq<Mutation>, k: nat)
    requires WellFormed(before) && WellFormed(after) && k <= |ms|
    requires forall i :: 0 <= i < |ms| ==> ms[i].ordinal in durable && ms[i].ordinal in next
  {
    forall i :: 0 <= i < k ==>
      && next[ms[i].ordinal] == durable[ms[i].ordinal]
      && Recoverable(after, durable[ms[i].ordinal], ms[i]) == Recoverable(before, durable[ms[i].ordinal], ms[i])
  }

  lemma StillAsBefore(before: Files, durable: map<nat, MutationState>, mid: Files, reached: map<nat, MutationState>,
                      after: Files, next: map<nat, MutationState>, ms: seq<Mutation>, k: nat)
    requires WellFormed(before) && WellFormed(mid) && WellFormed(after) && Apart(ms) && k < |ms|
    requires forall i :: 0 <= i < |ms| ==> ms[i].ordinal in durable && ms[i].ordinal in reached && ms[i].ordinal in next
    requires AsBefore(before, durable, mid, reached, ms, k + 1) && SameElsewhere(mid, after, ms[k].Names())
    requires next == reached[ms[k].ordinal := next[ms[k].ordinal]]
    ensures AsBefore(before, durable, after, next, ms, k)
  {
    hide Recoverable, SameElsewhere;
    forall i | 0 <= i < k
      ensures Recoverable(after, durable[ms[i].ordinal], ms[i]) == Recoverable(mid, durable[ms[i].ordinal], ms[i])
    {
      assert ms[i].Names() !! ms[k].Names();
      UntouchedNamesFrame(mid, after, ms[k].Names(), ms[i], durable[ms[i].ordinal]);
    }
  }

  /** `restorePendingMutations` on the records that are not CLEANED when the journal is loaded; a rerun may find some
      that are. It finishes exactly when every one of them is recoverable, and then each path holds what its record
      promised. */
  method RestorePending(w: Workspace, ms: seq<Mutation>, ghost goals: seq<Leaf>) returns (o: Outcome)
    requires Registered(w, ms) && |goals| == |ms|
    modifies w
    ensures Registered(w, ms)
    ensures NoOutsiders(old(w.script)) ==>
            && NoOutsiders(w.script)
            && (o != Stopped ==> (o == Done <==> AllRecoverable(old(w.fs), old(w.durable), ms)))
            && (o == Done ==> forall i :: 0 <= i < |ms| ==> w.durable[ms[i].ordinal] == CLEANED)
    ensures NoOutsiders(old(w.script)) && AllPending(old(w.fs), old(w.durable), ms, goals) ==>
            && o != Refused && AllPending(w.fs, w.durable, ms, goals)
            && (o == Done ==> forall i :: 0 <= i < |ms| ==> Restored(w.fs, ms[i], goals[i]))
    ensures Stops(w.script) + Spent(o) == Stops(old(w.script))
  {
    hide Recoverable, Goal, Stops, RolledBack, Mutation.Names, OnlyRegistered;
    for i := |ms| downto 0
      invariant Registered(w, ms) && Stops(w.script) == Stops(old(w.script))
      invariant NoOutsiders(old(w.script)) ==>
                && NoOutsiders(w.script) && AsBefore(old(w.fs), old(w.durable), w.fs, w.durable, ms, i)
                && forall j :: i <= j < |ms| ==>
                     && w.durable[ms[j].ordinal] == CLEANED
                     && (old(w.durable)[ms[j].ordinal] == CLEANED
                         || Recoverable(old(w.fs), old(w.durable)[ms[j].ordinal], ms[j]))
      invariant NoOutsiders(old(w.script)) && AllPending(old(w.fs), old(w.durable), ms, goals) ==>
                AllPending(w.fs, w.durable, ms, goals)
    {
      o := RestoreRecord(w, ms, goals, i, old(w.fs), old(w.durable));
      if o != Done { return; }
    }
    return Done;
  }

  /** One record of the batch. */
  method RestoreRecord(w: Workspace, ms: seq<Mutation>, ghost goals: seq<Leaf>, k: nat,
                       ghost before: Files, ghost durable: map<nat, MutationState>) returns (o: Outcome)
    requires Registered(w, ms) && |goals| == |ms| && k < |ms| && WellFormed(before)
    requires forall i :: 0 <= i < |ms| ==> ms[i].ordinal in durable
    modifies w
    ensures Registered(w, ms)
    ensures w.durable == old(w.durable) || w.durable == old(w.durable)[ms[k].ordinal := CLEANED]
    ensures NoOutsiders(old(w.script)) && AsBefore(before, durable, old(w.fs), old(w.durable), ms, k + 1) ==>
            && NoOutsiders(w.script) && AsBefore(before, durable, w.fs, w.durable, ms, k)
            && (o != Stopped ==>
                  (o == Done <==>
                   durable[ms[k].ordinal] == CLEANED || Recoverable(before, durable[ms[k].ordinal], ms[k])))
            && (o == Done ==> w.durable[ms[k].ordinal] == CLEANED)
    ensures NoOutsiders(old(w.script)) && AllPending(old(w.fs), old(w.durable), ms, goals) ==>
            o != Refused && AllPending(w.fs, w.durable, ms, goals)
    ensures Stops(w.script) + Spent(o) == Stops(old(w.script))
  {
    if w.durable[ms[k].ordinal] == CLEANED { return Done; }
    ghost var mid, reached, script := w.fs, w.durable, w.script;
    o := w.RestoreMutation(ms[k]);
    hide Recoverable, Goal, Stops, Mutation.Names, OnlyRegistered;
    if NoOutsiders(script) && AllPending(mid, reached, ms, goals) {
      assert Pending(mid, reached[ms[k].ordinal], ms[k], goals[k]);
      OthersStayPending(mid, reached, w.fs, w.durable, ms, goals, k);
    }
    if NoOutsiders(script) && AsBefore(before, durable, mid, reached, ms, k + 1) {
      StillAsBefore(before, durable, mid, reached, w.fs, w.durable, ms, k);
    }
  }

  /** Where a replacement of a file can stop after its record is begun: over a half-written target artifact, or where a
      rollback brings the old leaf back, or the new one once the cleanup has dropped the quarantined source. */
  ghost predicate StoppedReplacing(fs: Files, state: MutationState, m: Mutation)
    requires WellFormed(fs)
  {
    || TornTarget(fs, state, m)
    || Pending(fs, state, m, if state == CLEANED || KeepsTarget(fs, state, m) then m.Target() else m.Source())
  }

  /** `replaceFile` and the cleanup of what it leaves. */
  method Replace(w: Workspace, m: Mutation, bytes: Leaf) returns (o: Outcome)
    requires w.Valid() && m.Proper() && m.ordinal !in w.durable && m.intent.kind == WriteFile
    requires bytes.File? && m.Target().File?
    modifies w
    ensures w.Valid() && OnlyRegistered(old(w.removed), w.removed, m)
    ensures o == Done ==> m.ordinal in w.durable
    ensures NoOutsiders(old(w.script)) && o != Stopped ==>
            (o == Done <==> Untouched(old(w.fs), m) && bytes == m.Target())
    ensures NoOutsiders(old(w.script)) && !(Untouched(old(w.fs), m) && bytes == m.Target()) ==>
            SameElsewhere(old(w.fs), w.fs, {m.intent.targetArtifact.value})
    ensures NoOutsiders(old(w.script)) && Untouched(old(w.fs), m) && bytes == m.Target() ==>
            && NoOutsiders(w.script) && SameElsewhere(old(w.fs), w.fs, m.Names()) && o != Refused
            && (o == Done ==> w.durable[m.ordinal] == CLEANED && Restored(w.fs, m, m.Target()))
            && (o == Stopped ==> if m.ordinal in w.durable then StoppedReplacing(w.fs, w.durable[m.ordinal], m)
                                 else w.fs == old(w.fs))
    ensures Stops(w.script) + Spent(o) == Stops(old(w.script))
  {
    hide Stops;
    ghost var calm := NoOutsiders(w.script) && Untouched(w.fs, m) && bytes == m.Target();
    o := w.ReplaceFile(m, bytes);
    if calm && o == Stopped && m.ordinal in w.durable { UndoableIsStoppedReplacing(w.fs, w.durable[m.ordinal], m); }
    if o != Done { return; }
    ghost var removed := w.removed;
    o := w.CleanupMutation(m);
    OnlyRegisteredChains(old(w.removed), removed, w.removed, m);
    if calm { CleaningIsStoppedReplacing(w.fs, w.durable[m.ordinal], m); }
  }

  lemma UndoableIsStoppedReplacing(fs: Files, state: MutationState, m: Mutation)
    requires WellFormed(fs) && Undoable(fs, state, m)
    ensures StoppedReplacing(fs, state, m)
  {
  }

  lemma CleaningIsStoppedReplacing(fs: Files, state: MutationState, m: Mutation)
    requires WellFormed(fs) && m.Target() != Absent && At(fs, m.Path()) == m.Target()
    requires state == CLEANED ==> Restored(fs, m, m.Target())
    requires state != CLEANED ==>
               Pending(fs, state, m,
                       if m.Source() != Absent && m.SourceName() !in fs.names then m.Target() else m.Source())
    ensures StoppedReplacing(fs, state, m)
  {
  }

  /** A replacement stopped anywhere, and then rollbacks stopped anywhere. Over a half-written target artifact the
      rollback is refused and leaves it; otherwise nothing is lost: once there are enough rollbacks for the stops one
      finishes, and the path holds the old leaf, or the new one if the cleanup had dropped the old. */
  method InterruptedReplacement(w: Workspace, m: Mutation, bytes: Leaf, attempts: nat)
    returns (ran: Outcome, undone: Outcome)
    requires w.Valid() && m.Proper() && m.ordinal !in w.durable && m.intent.kind == WriteFile
    requires bytes.File? && m.Target().File?
    modifies w
    ensures w.Valid() && OnlyRegistered(old(w.removed), w.removed, m)
    ensures Stops(w.script) + Spent(ran) <= Stops(old(w.script))
    ensures NoOutsiders(old(w.script)) && Untouched(old(w.fs), m) && bytes == m.Target() ==>
            && ran != Refused && SameElsewhere(old(w.fs), w.fs, m.Names())
            && (ran == Done ==>
                  m.ordinal in w.durable && w.durable[m.ordinal] == CLEANED && Restored(w.fs, m, m.Target())
                    && undone == Done)
            && (m.ordinal !in w.durable ==> w.fs == old(w.fs) && undone == Done)
            && (m.ordinal in w.durable && undone == Done ==>
                  w.durable[m.ordinal] == CLEANED && (Restored(w.fs, m, m.Source()) || Restored(w.fs, m, m.Target())))
            && (undone == Refused ==> m.ordinal in w.durable && TornTarget(w.fs, w.durable[m.ordinal], m))
            && (attempts >= Stops(old(w.script)) ==> undone != Stopped)
  {
    hide Stops, StoppedReplacing;
    ran := Replace(w, m, bytes);
    undone := Done;
    if m.ordinal in w.durable && w.durable[m.ordinal] != CLEANED {
      ghost var mid, state, removed := w.fs, w.durable[m.ordinal], w.removed;
      undone := w.RestoreUntilDone(m, attempts);
      OnlyRegisteredChains(old(w.removed), removed, w.removed, m);
      if NoOutsiders(old(w.script)) && Untouched(old(w.fs), m) && bytes == m.Target() {
        RolledBackReplacement(mid, state, m);
      }
    } else if m.ordinal in w.durable && ran == Stopped {
      if NoOutsiders(old(w.script)) && Untouched(old(w.fs), m) && bytes == m.Target() {
        CleanedReplacement(w.fs, m);
      }
    }
  }

  /** What a rollback of a stopped replacement can count on. */
  lemma RolledBackReplacement(fs: Files, state: MutationState, m: Mutation)
    requires WellFormed(fs) && state != CLEANED && StoppedReplacing(fs, state, m)
    ensures TornTarget(fs, state, m) || Recoverable(fs, state, m)
    ensures Goal(fs, state, m) in {m.Source(), m.Target()}
  {
  }

  lemma CleanedReplacement(fs: Files, m: Mutation)
    requires WellFormed(fs) && StoppedReplacing(fs, CLEANED, m)
    ensures Restored(fs, m, m.Target())
  {
  }

  // ---- the cases in which a rollback keeps the new leaf or is refused do arise ----

  /** A cleanup stopped right after its first step. */
  method StoppedAfterDroppingSource(w: Workspace, m: Mutation) returns (o: Outcome)
    requires w.Valid() && m.Proper() && m.intent.kind == WriteFile && m.Source() != Absent
    requires m.ordinal in w.durable && w.durable[m.ordinal] == TARGET_VERIFIED && Complete(w.fs, m)
    requires |w.script| == 2 && StopsAfter(w.script, 1)
    modifies w
    ensures w.Valid() && w.script == [] && o == Stopped && w.durable == old(w.durable)
    ensures KeepsTarget(w.fs, w.durable[m.ordinal], m) && Recoverable(w.fs, w.durable[m.ordinal], m)
  {
    assert NoOutsiders(w.script);
    hide Stops;
    o := w.CleanupMutation(m);
  }

  /** A replacement that ran to its end, that cleanup, and a rollback: the path keeps the new leaf. */
  method RollbackKeepsTheTarget(w: Workspace, m: Mutation) returns (undone: Outcome)
    requires w.Valid() && m.Proper() && m.intent.kind == WriteFile && m.Source() != Absent
    requires m.ordinal in w.durable && w.durable[m.ordinal] == TARGET_VERIFIED && Complete(w.fs, m)
    requires |w.script| == 2 && StopsAfter(w.script, 1)
    modifies w
    ensures w.Valid() && undone == Done && Restored(w.fs, m, m.Target())
    ensures m.ordinal in w.durable && w.durable[m.ordinal] == CLEANED
  {
    var o := StoppedAfterDroppingSource(w, m);
    assert Stops(w.script) == 0;
    hide Stops;
    undone := w.RestoreMutation(m);
  }

  /** A replacement that dies while it writes the target artifact: no rollback goes through. */
  method TornTargetIsRefused(w: Workspace, m: Mutation) returns (ran: Outcome, undone: Outcome)
    requires w.Valid() && m.Proper() && m.ordinal !in w.durable && m.intent.kind == WriteFile && m.Target().File?
    requires Untouched(w.fs, m) && |w.script| == 3 && StopsAfter(w.script, 2)
    requires w.script[2].torn.File? && w.script[2].torn != m.Target()
    modifies w
    ensures w.Valid() && ran == Stopped && undone == Refused
    ensures m.ordinal in w.durable && TornTarget(w.fs, w.durable[m.ordinal], m)
  {
    assert NoOutsiders(w.script);
    ran := w.ReplaceFile(m, m.Target());
    assert w.script == [] && Stops(w.script) == 0;
    hide Stops;
    undone := w.RestoreMutation(m);
  }

  /** The delete of a leaf that is absent already completes, and its rollback is refused. */
  method AbsentDeleteIsRefused(w: Workspace, m: Mutation) returns (ran: Outcome, undone: Outcome)
    requires w.Valid() && m.Proper() && m.ordinal !in w.durable && m.intent.kind == DeleteLeaf
    requires m.Source() == m.Target() == Absent && Untouched(w.fs, m) && w.script == []
    modifies w
    ensures w.Valid() && ran == Done && undone == Refused
    ensures m.ordinal in w.durable && w.durable[m.ordinal] == TARGET_VERIFIED
  {
    assert Stops(w.script) == 0;
    hide Stops;
    ran := w.ReplaceSymlinkOrDelete(m);
    undone := w.RestoreMutation(m);
  }
}
