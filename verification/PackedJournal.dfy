/** Materialising the log of a finished native batch: the pack's intents, then every record up to TARGET_VERIFIED. */
module PackedJournal {
  import opened Wrappers
  import opened Mutations
  import opened JournalLog
  import opened MutationJournal

  /** The records are the first intents of the pack, in pack order. */
  ghost predicate FollowsPack(s: LogState, pack: seq<Intent>) {
    |s.latest| <= |pack| && forall i :: 0 <= i < |s.latest| ==> s.latest[i].intent == pack[i]
  }

  /** Records never disappear, never change their intent and never go back. */
  ghost predicate MovedForward(before: LogState, after: LogState) {
    && |before.latest| <= |after.latest|
    && forall i :: 0 <= i < |before.latest| ==>
         && after.latest[i].intent == before.latest[i].intent
         && Rank(after.latest[i].state) >= Rank(before.latest[i].state)
  }

  lemma {:induction false} RecordsOnlyMoveForward(s: LogState, opId: string, records: seq<Record>)
    requires Indexed(s, opId) && AcceptAll(s, opId, records).Ok?
    ensures MovedForward(s, AcceptAll(s, opId, records).value)
  {
    if records != [] {
      var before := records[..|records| - 1];
      RecordsOnlyMoveForward(s, opId, before);
      var middle := AcceptAll(s, opId, before).value;
      assert Accept(middle, opId, records[|records| - 1]).Ok?;
    }
  }

  /** A log that was cut short follows the pack if the whole log does. */
  lemma ShorterLogFollows(opId: string, shorter: seq<Record>, longer: seq<Record>, pack: seq<Intent>)
    requires ValidLog(opId, longer) && shorter <= longer && FollowsPack(Fold(opId, longer), pack)
    ensures ValidLog(opId, shorter) && FollowsPack(Fold(opId, shorter), pack)
  {
    PrefixOfValidLogIsValid(opId, longer, |shorter|);
    assert longer[..|shorter|] == shorter && shorter + longer[|shorter|..] == longer;
    AcceptAllConcat(EMPTY, opId, shorter, longer[|shorter|..]);
    FoldIsIndexed(opId, shorter);
    RecordsOnlyMoveForward(Fold(opId, shorter), opId, longer[|shorter|..]);
  }

  /** What one record still has to go through: `stateOrder.slice(current + 1, terminal + 1)`. */
  function Missing(state: MutationState): (states: seq<MutationState>)
    ensures |states| == if Rank(state) < Rank(TARGET_VERIFIED) then Rank(TARGET_VERIFIED) - Rank(state) else 0
  {
    if Rank(state) >= 4 then [] else STATES[Rank(state) + 1..5]
  }

  function Advances(latest: seq<Record>): (advances: seq<Advance>)
    ensures forall i :: 0 <= i < |advances| ==> advances[i].states != []
  {
    if latest == [] then []
    else
      var earlier, last := Advances(latest[..|latest| - 1]), latest[|latest| - 1];
      if Missing(last.state) == [] then earlier else earlier + [Advance(last.ordinal, Missing(last.state))]
  }

  /** The moves are all strict steps from `s`, and lead to `current`. */
  ghost predicate LeadsTo(s: LogState, moves: seq<Move>, current: LogState) {
    AdvanceRecords(s, moves).Ok? && Extend(s, AdvanceRecords(s, moves).value) == current
  }

  lemma OneMoreMove(s: LogState, opId: string, moves: seq<Move>, current: LogState, m: Move)
    requires Indexed(s, opId) && LeadsTo(s, moves, current) && CanAdvance(current, m)
    ensures LeadsTo(s, moves + [m], LogState(current.latest[m.ordinal - 1 := NextRecord(current, m.ordinal, m.state)],
                                             Some(NextRecord(current, m.ordinal, m.state))))
  {
    hide Extend, AdvanceRecords;
    AdvanceContinues(s, opId, moves, m);
  }

  /** The first `k` missing states of the record at index `n` can be gone through, each a strict step. */
  lemma {:induction false} Climb(s: LogState, opId: string, moves: seq<Move>, current: LogState, n: nat, k: nat)
    returns (next: LogState)
    requires Indexed(s, opId) && LeadsTo(s, moves, current)
    requires n < |current.latest| && k <= |Missing(current.latest[n].state)|
    ensures LeadsTo(s, moves + MovesOf(Advance(n + 1, Missing(current.latest[n].state)))[..k], next)
    ensures |next.latest| == |current.latest| && next.latest == current.latest[n := next.latest[n]]
    ensures next.latest[n].intent == current.latest[n].intent
    ensures Rank(next.latest[n].state) == Rank(current.latest[n].state) + k
  {
    hide LeadsTo;
    var missing := Missing(current.latest[n].state);
    var climb := MovesOf(Advance(n + 1, missing));
    if k == 0 {
      assert moves + climb[..0] == moves;
      next := current;
    } else {
      var middle := Climb(s, opId, moves, current, n, k - 1);
      var m := climb[k - 1];
      assert m == Move(n + 1, missing[k - 1]) && Rank(missing[k - 1]) == Rank(current.latest[n].state) + k;
      OneMoreMove(s, opId, moves + climb[..k - 1], middle, m);
      TakeOneMore(moves, climb, k - 1);
      next := LogState(middle.latest[n := NextRecord(middle, n + 1, m.state)],
                       Some(NextRecord(middle, n + 1, m.state)));
    }
  }

  function AtLeastVerified(state: MutationState): nat {
    if Rank(state) < Rank(TARGET_VERIFIED) then Rank(TARGET_VERIFIED) else Rank(state)
  }

  /** The first `n` records have reached TARGET_VERIFIED at least; the others are where they were. */
  ghost predicate Reached(before: LogState, after: LogState, n: nat) {
    && |after.latest| == |before.latest| && n <= |before.latest|
    && (forall i :: n <= i < |before.latest| ==> after.latest[i] == before.latest[i])
    && (forall i :: 0 <= i < n ==> after.latest[i].intent == before.latest[i].intent
                                   && Rank(after.latest[i].state) == AtLeastVerified(before.latest[i].state))
  }

  lemma StillThere(s: LogState, before: LogState, n: nat)
    requires Reached(s, before, n) && n < |s.latest|
    ensures n < |before.latest| && before.latest[n] == s.latest[n]
  {
  }

  lemma ReachedOneMore(s: LogState, before: LogState, after: LogState, n: nat)
    requires Reached(s, before, n) && n < |s.latest|
    requires |after.latest| == |before.latest| && after.latest == before.latest[n := after.latest[n]]
    requires after.latest[n].intent == before.latest[n].intent
    requires Rank(after.latest[n].state) == AtLeastVerified(before.latest[n].state)
    ensures Reached(s, after, n + 1)
  {
    forall i | 0 <= i < |s.latest| && i != n
      ensures after.latest[i] == before.latest[i]
    {
    }
  }

  lemma AdvancesOfOneMore(latest: seq<Record>, n: nat)
    requires n < |latest|
    ensures Flatten(Advances(latest[..n + 1])) ==
            Flatten(Advances(latest[..n])) + MovesOf(Advance(latest[n].ordinal, Missing(latest[n].state)))
  {
    assert latest[..n + 1][..n] == latest[..n];
    var earlier, last := Advances(latest[..n]), Advance(latest[n].ordinal, Missing(latest[n].state));
    if last.states == [] {
      assert Flatten(earlier) + MovesOf(last) == Flatten(earlier);
    } else {
      assert (earlier + [last])[..|earlier|] == earlier;
    }
  }

  lemma {:induction false} AllReachTheTarget(s: LogState, opId: string, n: nat) returns (after: LogState)
    requires Indexed(s, opId) && n <= |s.latest|
    ensures LeadsTo(s, Flatten(Advances(s.latest[..n])), after) && Reached(s, after, n)
  {
    if n == 0 {
      after := s;
    } else {
      var before := AllReachTheTarget(s, opId, n - 1);
      hide LeadsTo, Advances, Flatten, WellSealed, Reached;
      var moves, missing := Flatten(Advances(s.latest[..n - 1])), Missing(s.latest[n - 1].state);
      assert before.latest[n - 1] == s.latest[n - 1] by { StillThere(s, before, n - 1); }
      after := Climb(s, opId, moves, before, n - 1, |missing|);
      ReachedOneMore(s, before, after, n - 1);
      AdvancesOfOneMore(s.latest, n - 1);
      assert s.latest[n - 1].ordinal == n;
      var climb := MovesOf(Advance(n, missing));
      assert climb[..|missing|] == climb;
    }
  }

  // ---- the pack and its intents ----

  datatype PackEntry = PackEntry(
    path: string, sourceArtifact: string, targetArtifact: Option<string>,
    sourceFingerprint: Fingerprint, targetFingerprint: Option<Fingerprint>)

  /** `packedIntent`. */
  function PackedIntent(e: PackEntry): Intent {
    var absent := Fingerprint(e.path, Absent);
    Intent(
      if e.targetArtifact.None? && (e.targetFingerprint.None? || e.targetFingerprint.value == absent)
      then DeleteLeaf else WriteFile,
      e.path, e.sourceArtifact, e.targetArtifact, e.sourceFingerprint,
      if e.targetFingerprint.None? then absent else e.targetFingerprint.value)
  }

  /** The leaf an entry's target is: the absent leaf has two spellings. */
  function TargetOf(e: PackEntry): Fingerprint {
    if e.targetFingerprint.None? then Fingerprint(e.path, Absent) else e.targetFingerprint.value
  }

  /** An intent says everything its entry says: entries with one intent differ at most in how they spell an absent
      target. It is a delete exactly when there is neither a target artifact nor a target. */
  lemma IntentsTellEntriesApart(a: PackEntry, b: PackEntry)
    ensures PackedIntent(a) == PackedIntent(b) <==>
            a.(targetFingerprint := Some(TargetOf(a))) == b.(targetFingerprint := Some(TargetOf(b)))
    ensures PackedIntent(a).sourceFingerprint == a.sourceFingerprint && PackedIntent(a).targetFingerprint == TargetOf(a)
    ensures PackedIntent(a).kind == DeleteLeaf <==> a.targetArtifact.None? && TargetOf(a) == Fingerprint(a.path, Absent)
  {
  }

  function Intents(pack: seq<PackEntry>): (intents: seq<Intent>)
    ensures |intents| == |pack| && forall i :: 0 <= i < |pack| ==> intents[i] == PackedIntent(pack[i])
  {
    seq(|pack|, i requires 0 <= i < |pack| => PackedIntent(pack[i]))
  }

  /** An entry without a target artifact must be a delete, or its record cannot be written. */
  predicate Writable(e: PackEntry) {
    e.targetArtifact.Some? || PackedIntent(e).kind == DeleteLeaf
  }

  lemma {:induction false} BegunIntentsFollow(s: LogState, opId: string, intents: seq<Intent>, pack: seq<Intent>)
    requires Indexed(s, opId) && FollowsPack(s, pack) && intents == pack[|s.latest|..]
             && BeginRecords(s, opId, intents).Ok?
    ensures var records := BeginRecords(s, opId, intents).value;
            FollowsPack(Extend(s, records), pack) && |Extend(s, records).latest| == |pack|
  {
    hide AcceptAll, BeginRecords, Extend, Indexed;
    BegunRecordsAreAccepted(s, opId, intents);
    BegunRecordsCarryTheIntents(s, opId, intents);
  }

  /** The loop over `assertPackedRecord`. */
  method MatchesPack(loaded: seq<Record>, pack: seq<PackEntry>) returns (same: bool)
    requires |loaded| <= |pack|
    ensures same <==> forall i :: 0 <= i < |loaded| ==> loaded[i].intent == PackedIntent(pack[i])
  {
    for i := 0 to |loaded|
      invariant forall k :: 0 <= k < i ==> loaded[k].intent == PackedIntent(pack[k])
    {
      if loaded[i].intent != PackedIntent(pack[i]) { return false; }
    }
    return true;
  }

  /** `ensurePackedIntents`: begin what an earlier attempt did not, after checking that the rest is the pack's. */
  method EnsureIntents(j: MutationJournal, pack: seq<PackEntry>, fault: Fault) returns (r: Result<seq<Record>>)
    requires j.Valid()
    modifies j`cached, j.file
    ensures j.Valid() && old(j.file.written) <= j.file.written
    ensures !FollowsPack(Fold(j.opId, old(j.file.written)), Intents(pack)) ==> r == Failed && unchanged(j.file)
    ensures FollowsPack(Fold(j.opId, old(j.file.written)), Intents(pack)) ==>
            && FollowsPack(Fold(j.opId, j.file.written), Intents(pack))
            && (r.Ok? ==> r.value == Fold(j.opId, j.file.written).latest && |r.value| == |pack|)
            && (|Fold(j.opId, old(j.file.written)).latest| == |pack| ==> r.Ok? && unchanged(j.file))
            && (fault == Completes && (forall i :: 0 <= i < |pack| ==> Writable(pack[i])) ==> r.Ok?)
  {
    hide AcceptAll, BeginRecords, Extend, WellSealed, ReadText, Encode;
    ValidFileReads(j.codec, j.opId, j.file);
    ghost var before := j.file.written;
    ghost var start := Fold(j.opId, before);
    var read := j.ReadRecords();
    var loaded := read.value.state.latest;
    if |loaded| > |pack| { return Failed; }
    var same := MatchesPack(loaded, pack);
    if !same { return Failed; }
    if |loaded| == |pack| { return Ok(loaded); }
    var missing := Intents(pack[|loaded|..]);
    assert missing == Intents(pack)[|loaded|..];
    RecordableIntentsBegin(start, j.opId, missing);
    r := j.BeginMany(missing, fault);
    if BeginRecords(start, j.opId, missing).Ok? {
      IntentsAppended(j.opId, before, j.file.written, missing, Intents(pack));
    }
    if r.Ok? { r := Ok(loaded + r.value); }
  }

  /** Whatever part of the missing intents was appended, the log follows the pack. */
  lemma {:induction false} IntentsAppended(opId: string, before: seq<Record>, after: seq<Record>,
                                           missing: seq<Intent>, pack: seq<Intent>)
    requires ValidLog(opId, before) && FollowsPack(Fold(opId, before), pack)
             && missing == pack[|Fold(opId, before).latest|..]
    requires BeginRecords(Fold(opId, before), opId, missing).Ok?
    requires after <= before + BeginRecords(Fold(opId, before), opId, missing).value
    ensures ValidLog(opId, after) && FollowsPack(Fold(opId, after), pack)
    ensures after == before + BeginRecords(Fold(opId, before), opId, missing).value ==>
            Fold(opId, after).latest == Fold(opId, before).latest
              + BeginRecords(Fold(opId, before), opId, missing).value
            && |Fold(opId, after).latest| == |pack|
  {
    hide AcceptAll, BeginRecords, Extend, WellSealed;
    var s := Fold(opId, before);
    FoldIsIndexed(opId, before);
    var records := BeginRecords(s, opId, missing).value;
    BegunRecordsAreAccepted(s, opId, missing);
    BegunIntentsFollow(s, opId, missing, pack);
    AcceptAllConcat(EMPTY, opId, before, records);
    ShorterLogFollows(opId, after, before + records, pack);
  }

  ghost predicate AllVerified(s: LogState) {
    forall i :: 0 <= i < |s.latest| ==> Rank(s.latest[i].state) >= Rank(TARGET_VERIFIED)
  }

  /** Whatever part of the missing states was appended, the log follows the pack; all of it verifies every record. */
  lemma StatesAppended(opId: string, before: seq<Record>, after: seq<Record>, pack: seq<Intent>)
    requires ValidLog(opId, before) && FollowsPack(Fold(opId, before), pack)
    ensures var moves := Flatten(Advances(Fold(opId, before).latest));
            && AdvanceRecords(Fold(opId, before), moves).Ok?
            && var records := AdvanceRecords(Fold(opId, before), moves).value;
               && (after <= before + records ==> ValidLog(opId, after) && FollowsPack(Fold(opId, after), pack))
               && (after == before + records ==>
                     |Fold(opId, after).latest| == |Fold(opId, before).latest| && AllVerified(Fold(opId, after)))
  {
    var s := Fold(opId, before);
    FoldIsIndexed(opId, before);
    assert s.latest[..|s.latest|] == s.latest;
    var reached := AllReachTheTarget(s, opId, |s.latest|);
    hide AcceptAll, AdvanceRecords, Extend, Flatten, Advances, WellSealed;
    var moves := Flatten(Advances(s.latest));
    var records := AdvanceRecords(s, moves).value;
    AdvancedRecordsAreAccepted(s, opId, moves);
    AcceptAllConcat(EMPTY, opId, before, records);
    if after <= before + records {
      ShorterLogFollows(opId, after, before + records, pack);
    }
  }

  /** The map and filter that list the states still missing. */
  method MissingAdvances(records: seq<Record>) returns (advances: seq<Advance>)
    ensures advances == Advances(records)
  {
    advances := [];
    for i := 0 to |records|
      invariant advances == Advances(records[..i])
    {
      assert records[..i + 1][..i] == records[..i];
      var states := Missing(records[i].state);
      if states != [] {
        advances := advances + [Advance(records[i].ordinal, states)];
      }
    }
    assert records[..|records|] == records;
  }

  lemma {:induction false} NothingMissing(latest: seq<Record>)
    ensures Advances(latest) == [] <==> forall i :: 0 <= i < |latest| ==> Rank(latest[i].state) >= Rank(TARGET_VERIFIED)
  {
    if latest != [] {
      NothingMissing(latest[..|latest| - 1]);
    }
  }

  /** `materializePackedMutationJournal`. Run from whatever an interrupted attempt left, it completes the intents in
      pack order and takes every record to TARGET_VERIFIED; run again, it appends nothing. */
  method Materialize(j: MutationJournal, pack: seq<PackEntry>, first: Fault, second: Fault) returns (ok: bool)
    requires j.Valid()
    modifies j`cached, j.file
    ensures j.Valid() && old(j.file.written) <= j.file.written
    ensures !FollowsPack(Fold(j.opId, old(j.file.written)), Intents(pack)) ==> !ok && unchanged(j.file)
    ensures FollowsPack(Fold(j.opId, old(j.file.written)), Intents(pack)) ==>
            && FollowsPack(Fold(j.opId, j.file.written), Intents(pack))
            && (ok ==> |Fold(j.opId, j.file.written).latest| == |pack| && AllVerified(Fold(j.opId, j.file.written)))
            && (first == second == Completes && (forall i :: 0 <= i < |pack| ==> Writable(pack[i])) ==> ok)
            && (|Fold(j.opId, old(j.file.written)).latest| == |pack|
                && AllVerified(Fold(j.opId, old(j.file.written))) ==>
                  ok && unchanged(j.file))
  {
    hide AcceptAll, AdvanceRecords, Advances, Flatten, Encode;
    var r := EnsureIntents(j, pack, first);
    if r.Failed? { return false; }
    var advances := MissingAdvances(r.value);
    NothingMissing(r.value);
    if advances == [] { return true; }
    ghost var before := j.file.written;
    var advanced := j.AdvanceBatch(advances, second);
    if FollowsPack(Fold(j.opId, before), Intents(pack)) {
      StatesAppended(j.opId, before, j.file.written, Intents(pack));
    }
    return advanced.Ok?;
  }
}
