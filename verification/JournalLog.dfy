/** The mutation log as a value: what the reader accepts, what the writers produce, and how records become text. */
module JournalLog {
  import opened Wrappers
  import opened Mutations

  /** The latest record of every ordinal, and the last record of all. */
  datatype LogState = LogState(latest: seq<Record>, tail: Option<Record>)

  const EMPTY := LogState([], None)

  function TailDigest(s: LogState): Digest {
    if s.tail.None? then Genesis else s.tail.value.checksum
  }

  // ---- reading ----

  /** `isValidDurableTransition`: one strict step, or straight to CLEANED. */
  predicate ValidDurableTransition(previous: MutationState, next: MutationState) {
    Rank(next) == Rank(previous) + 1 || (next == CLEANED && previous != CLEANED)
  }

  function Accept(s: LogState, opId: string, r: Record): Result<LogState> {
    if !WellSealed(r) || r.opId != opId || r.previous != TailDigest(s) then Failed
    else if r.ordinal > |s.latest| then
      if r.ordinal != |s.latest| + 1 || r.state != INTENT then Failed
      else Ok(LogState(s.latest + [r], Some(r)))
    else
      var previous := s.latest[r.ordinal - 1];
      if previous.intent != r.intent || !ValidDurableTransition(previous.state, r.state) then Failed
      else Ok(LogState(s.latest[r.ordinal - 1 := r], Some(r)))
  }

  function AcceptAll(s: LogState, opId: string, records: seq<Record>): Result<LogState> {
    if records == [] then Ok(s)
    else match AcceptAll(s, opId, records[..|records| - 1])
      case Failed => Failed
      case Ok(next) => Accept(next, opId, records[|records| - 1])
  }

  /** A log is valid when a fresh reader accepts it from the start. */
  predicate ValidLog(opId: string, records: seq<Record>) {
    AcceptAll(EMPTY, opId, records).Ok?
  }

  function Fold(opId: string, records: seq<Record>): LogState
    requires ValidLog(opId, records)
  {
    AcceptAll(EMPTY, opId, records).value
  }

  lemma {:induction false} AcceptAllConcat(s: LogState, opId: string, xs: seq<Record>, ys: seq<Record>)
    ensures AcceptAll(s, opId, xs + ys) ==
            match AcceptAll(s, opId, xs) case Failed => Failed case Ok(next) => AcceptAll(next, opId, ys)
  {
    if ys == [] {
      assert xs + ys == xs;
    } else {
      AcceptAllConcat(s, opId, xs, ys[..|ys| - 1]);
      assert (xs + ys)[..|xs + ys| - 1] == xs + ys[..|ys| - 1];
    }
  }

  lemma PrefixOfValidLogIsValid(opId: string, records: seq<Record>, n: nat)
    requires ValidLog(opId, records) && n <= |records|
    ensures ValidLog(opId, records[..n])
  {
    AcceptAllConcat(EMPTY, opId, records[..n], records[n..]);
    assert records[..n] + records[n..] == records;
  }

  /** Every accepted log indexes its records by ordinal and ends in its tail. */
  lemma {:induction false} FoldIsIndexed(opId: string, records: seq<Record>)
    requires ValidLog(opId, records)
    ensures var s := Fold(opId, records);
            && (forall i :: 0 <= i < |s.latest| ==>
                s.latest[i].ordinal == i + 1 && s.latest[i].opId == opId && WellSealed(s.latest[i]))
            && s.tail == (if records == [] then None else Some(records[|records| - 1]))
            && (records != [] ==> WellSealed(records[|records| - 1]))
  {
    if records != [] {
      FoldIsIndexed(opId, records[..|records| - 1]);
    }
  }

  // ---- what the reader accepts, without its state ----

  ghost predicate Held(records: seq<Record>, ordinal: nat) {
    exists r <- records :: r.ordinal == ordinal
  }

  /** Record `j` is the last one of the ordinal. */
  ghost predicate IsLastAt(records: seq<Record>, j: nat, ordinal: nat) {
    && j < |records| && records[j].ordinal == ordinal
    && forall i :: j < i < |records| ==> records[i].ordinal != ordinal
  }

  /** After some records another begins the next ordinal at INTENT, or takes the last record of its ordinal one state
      further, or from anywhere to CLEANED, with the same intent. */
  ghost predicate FollowsOn(records: seq<Record>, r: Record) {
    if Held(records, r.ordinal) then
      exists j: nat :: IsLastAt(records, j, r.ordinal) && StepsFrom(records[j], r)
    else
      && r.state == INTENT && r.ordinal >= 1
      && forall o: nat :: Held(records, o) <==> 1 <= o < r.ordinal
  }

  ghost predicate StepsFrom(previous: Record, r: Record) {
    && previous.intent == r.intent
    && (Rank(r.state) == Rank(previous.state) + 1 || (r.state == CLEANED && previous.state != CLEANED))
  }

  /** The record is well sealed, of this operation, and chained to the one before it. */
  ghost predicate ChainsOn(opId: string, records: seq<Record>, r: Record) {
    && WellSealed(r) && r.opId == opId
    && r.previous == if records == [] then Genesis else records[|records| - 1].checksum
  }

  /** The latest record of each ordinal, given without folding. */
  ghost predicate IsLatest(records: seq<Record>, latest: seq<Record>) {
    && (forall o: nat :: Held(records, o) <==> 1 <= o <= |latest|)
    && (forall i :: 0 <= i < |latest| ==> IsLatestOf(records, i + 1, latest[i]))
  }

  ghost predicate IsLatestOf(records: seq<Record>, ordinal: nat, r: Record) {
    exists j: nat :: IsLastAt(records, j, ordinal) && records[j] == r
  }

  /** A log is accepted if and only if every record chains on and follows on; then the reader knows the latest record of
      every ordinal. */
  lemma {:induction false} ValidMeans(opId: string, records: seq<Record>)
    ensures ValidLog(opId, records) <==>
            forall k :: 0 <= k < |records| ==>
              ChainsOn(opId, records[..k], records[k]) && FollowsOn(records[..k], records[k])
    ensures ValidLog(opId, records) ==> IsLatest(records, Fold(opId, records).latest)
  {
    hide WellSealed, ChainsOn, FollowsOn, IsLatest, Accept;
    if records == [] {
      NothingIsLatest();
    } else {
      var earlier, n := records[..|records| - 1], |records| - 1;
      ValidMeans(opId, earlier);
      assert forall k :: 0 <= k < n ==> records[..k] == earlier[..k] && records[k] == earlier[k];
      assert earlier + [records[n]] == records;
      if ValidLog(opId, earlier) {
        FoldIsIndexed(opId, earlier);
        AcceptedIffFollows(opId, earlier, Fold(opId, earlier), records[n]);
      }
    }
  }

  lemma NothingIsLatest()
    ensures IsLatest([], [])
  {
  }

  /** One more record: the fold accepts it exactly when it chains on and follows on. */
  lemma AcceptedIffFollows(opId: string, earlier: seq<Record>, s: LogState, r: Record)
    requires IsLatest(earlier, s.latest)
    requires s.tail == if earlier == [] then None else Some(earlier[|earlier| - 1])
    ensures Accept(s, opId, r).Ok? <==> ChainsOn(opId, earlier, r) && FollowsOn(earlier, r)
    ensures Accept(s, opId, r).Ok? ==> IsLatest(earlier + [r], Accept(s, opId, r).value.latest)
  {
    hide FollowsOn, IsLatest;
    if WellSealed(r) {
      FollowsIff(earlier, s.latest, r);
      if r.ordinal <= |s.latest| + 1 { LatestGrows(earlier, s.latest, r); }
    }
  }

  lemma FollowsIff(earlier: seq<Record>, latest: seq<Record>, r: Record)
    requires IsLatest(earlier, latest) && r.ordinal >= 1
    ensures FollowsOn(earlier, r) <==>
            if r.ordinal > |latest| then r.ordinal == |latest| + 1 && r.state == INTENT
            else latest[r.ordinal - 1].intent == r.intent
                 && ValidDurableTransition(latest[r.ordinal - 1].state, r.state)
  {
    hide Held, Rank;
    if r.ordinal <= |latest| {
      assert IsLatestOf(earlier, r.ordinal, latest[r.ordinal - 1]);
      assert Held(earlier, r.ordinal);
    } else if r.ordinal > |latest| + 1 {
      assert !Held(earlier, |latest| + 1);
    }
  }

  lemma LatestGrows(earlier: seq<Record>, latest: seq<Record>, r: Record)
    requires IsLatest(earlier, latest) && 1 <= r.ordinal <= |latest| + 1
    ensures IsLatest(earlier + [r], if r.ordinal <= |latest| then latest[r.ordinal - 1 := r] else latest + [r])
  {
    var records, next := earlier + [r], if r.ordinal <= |latest| then latest[r.ordinal - 1 := r] else latest + [r];
    forall o: nat
      ensures Held(records, o) <==> Held(earlier, o) || o == r.ordinal
    {
      HeldOneMore(earlier, r, o);
    }
    forall i | 0 <= i < |next|
      ensures IsLatestOf(records, i + 1, next[i])
    {
      if i + 1 == r.ordinal {
        assert IsLastAt(records, |earlier|, i + 1);
      } else {
        assert IsLatestOf(earlier, i + 1, latest[i]);
        var j: nat :| IsLastAt(earlier, j, i + 1) && earlier[j] == latest[i];
        assert IsLastAt(records, j, i + 1);
      }
    }
  }

  lemma HeldOneMore(earlier: seq<Record>, r: Record, ordinal: nat)
    ensures Held(earlier + [r], ordinal) <==> Held(earlier, ordinal) || ordinal == r.ordinal
  {
    assert r in earlier + [r] && forall x <- earlier :: x in earlier + [r];
  }

  /** The hash chain pins history: two valid logs with the same last checksum are the same log. */
  lemma {:induction false} TailChecksumPinsTheLog(opId: string, xs: seq<Record>, ys: seq<Record>)
    requires ValidLog(opId, xs) && ValidLog(opId, ys)
    requires TailDigest(Fold(opId, xs)) == TailDigest(Fold(opId, ys))
    ensures xs == ys
  {
    FoldIsIndexed(opId, xs);
    FoldIsIndexed(opId, ys);
    if xs != [] && ys != [] {
      TailChecksumPinsTheLog(opId, xs[..|xs| - 1], ys[..|ys| - 1]);
      assert xs[|xs| - 1] == ys[|ys| - 1];
      assert xs == xs[..|xs| - 1] + [xs[|xs| - 1]];
      assert ys == ys[..|ys| - 1] + [ys[|ys| - 1]];
    }
  }

  // ---- writing ----

  /** The in-memory effect of appending records that the writer has already checked. */
  function Extend(s: LogState, records: seq<Record>): LogState {
    if records == [] then s
    else
      var before := Extend(s, records[..|records| - 1]);
      var r := records[|records| - 1];
      LogState(
        if 1 <= r.ordinal <= |before.latest| then before.latest[r.ordinal - 1 := r] else before.latest + [r],
        Some(r))
  }

  function IntentRecord(s: LogState, opId: string, intent: Intent): Record {
    Seal(opId, |s.latest| + 1, INTENT, intent, TailDigest(s))
  }

  /** `beginManyMutation`: one INTENT record per intent, chained behind the current tail. */
  function BeginRecords(s: LogState, opId: string, intents: seq<Intent>): Result<seq<Record>> {
    if intents == [] then Ok([])
    else match BeginRecords(s, opId, intents[..|intents| - 1])
      case Failed => Failed
      case Ok(records) =>
        var r := IntentRecord(Extend(s, records), opId, intents[|intents| - 1]);
        if WellSealed(r) then Ok(records + [r]) else Failed
  }

  datatype Move = Move(ordinal: nat, state: MutationState)

  function NextRecord(s: LogState, ordinal: nat, state: MutationState): Record
    requires 1 <= ordinal <= |s.latest|
  {
    var previous := s.latest[ordinal - 1];
    Seal(previous.opId, previous.ordinal, state, previous.intent, TailDigest(s))
  }

  predicate CanAdvance(s: LogState, m: Move) {
    1 <= m.ordinal <= |s.latest| && Rank(m.state) == Rank(s.latest[m.ordinal - 1].state) + 1
  }

  /** `advanceBatchMutation`: every move one strict step, records chained behind the current tail. */
  function AdvanceRecords(s: LogState, moves: seq<Move>): Result<seq<Record>> {
    if moves == [] then Ok([])
    else match AdvanceRecords(s, moves[..|moves| - 1])
      case Failed => Failed
      case Ok(records) =>
        var current := Extend(s, records);
        var m := moves[|moves| - 1];
        if CanAdvance(current, m) then Ok(records + [NextRecord(current, m.ordinal, m.state)]) else Failed
  }

  /** `markRollbackCleanedMutation`. */
  function RollbackCleanedRecord(s: LogState, ordinal: nat): Result<Record> {
    if !(1 <= ordinal <= |s.latest|) || s.latest[ordinal - 1].state == CLEANED then Failed
    else Ok(NextRecord(s, ordinal, CLEANED))
  }

  ghost predicate Indexed(s: LogState, opId: string) {
    forall i :: 0 <= i < |s.latest| ==>
      s.latest[i].ordinal == i + 1 && s.latest[i].opId == opId && WellSealed(s.latest[i])
  }

  lemma {:induction false} AcceptAllIsExtend(s: LogState, opId: string, records: seq<Record>)
    requires Indexed(s, opId) && AcceptAll(s, opId, records).Ok?
    ensures AcceptAll(s, opId, records).value == Extend(s, records)
    ensures Indexed(Extend(s, records), opId)
  {
    if records != [] {
      var before := records[..|records| - 1];
      AcceptAllIsExtend(s, opId, before);
      assert Accept(Extend(s, before), opId, records[|records| - 1]).Ok?;
    }
  }

  lemma {:induction false} AcceptOneMore(s: LogState, opId: string, records: seq<Record>, r: Record)
    requires Indexed(s, opId) && AcceptAll(s, opId, records).Ok?
    requires Accept(Extend(s, records), opId, r).Ok?
    ensures AcceptAll(s, opId, records + [r]) == Ok(Extend(s, records + [r]))
  {
    AcceptAllIsExtend(s, opId, records);
    assert (records + [r])[..|records|] == records;
  }

  lemma {:induction false} OneMoreIntentIsAccepted(s: LogState, opId: string, before: seq<Record>, intent: Intent)
    requires Indexed(s, opId) && AcceptAll(s, opId, before).Ok?
    requires WellSealed(IntentRecord(Extend(s, before), opId, intent))
    ensures var r := IntentRecord(Extend(s, before), opId, intent);
            && AcceptAll(s, opId, before + [r]) == Ok(Extend(s, before + [r]))
            && Extend(s, before + [r]).latest == Extend(s, before).latest + [r]
  {
    hide AcceptAll;
    AcceptOneMore(s, opId, before, IntentRecord(Extend(s, before), opId, intent));
  }

  lemma {:induction false} BegunRecordsAreAccepted(s: LogState, opId: string, intents: seq<Intent>)
    requires Indexed(s, opId) && BeginRecords(s, opId, intents).Ok?
    ensures var records := BeginRecords(s, opId, intents).value;
            && |records| == |intents|
            && AcceptAll(s, opId, records) == Ok(Extend(s, records))
            && Extend(s, records).latest == s.latest + records
  {
    assert AcceptAll(s, opId, []) == Ok(s) && Extend(s, []) == s;
    hide AcceptAll, Extend, WellSealed;
    if intents != [] {
      var earlier, last := intents[..|intents| - 1], intents[|intents| - 1];
      BegunRecordsAreAccepted(s, opId, earlier);
      var before := BeginRecords(s, opId, earlier).value;
      OneMoreIntentIsAccepted(s, opId, before, last);
      assert s.latest + (before + [IntentRecord(Extend(s, before), opId, last)]) ==
             s.latest + before + [IntentRecord(Extend(s, before), opId, last)];
    }
  }

  lemma {:induction false} BegunRecordsCarryTheIntents(s: LogState, opId: string, intents: seq<Intent>)
    requires BeginRecords(s, opId, intents).Ok?
    ensures var records := BeginRecords(s, opId, intents).value;
            |records| == |intents| && forall i :: 0 <= i < |intents| ==>
              records[i].intent == intents[i] && records[i].state == INTENT
  {
    hide Extend, WellSealed;
    if intents != [] {
      BegunRecordsCarryTheIntents(s, opId, intents[..|intents| - 1]);
    }
  }

  lemma StrictStepIsAccepted(s: LogState, opId: string, ordinal: nat, state: MutationState)
    requires Indexed(s, opId) && 1 <= ordinal <= |s.latest|
    requires ValidDurableTransition(s.latest[ordinal - 1].state, state)
    ensures Accept(s, opId, NextRecord(s, ordinal, state)).Ok?
  {
    assert WellSealed(s.latest[ordinal - 1]);
  }

  lemma {:induction false} OneMoreAdvanceIsAccepted(s: LogState, opId: string, before: seq<Record>, m: Move)
    requires Indexed(s, opId) && AcceptAll(s, opId, before).Ok? && CanAdvance(Extend(s, before), m)
    ensures var records := before + [NextRecord(Extend(s, before), m.ordinal, m.state)];
            AcceptAll(s, opId, records) == Ok(Extend(s, records))
  {
    hide AcceptAll, Accept, Extend;
    AcceptAllIsExtend(s, opId, before);
    StrictStepIsAccepted(Extend(s, before), opId, m.ordinal, m.state);
    AcceptOneMore(s, opId, before, NextRecord(Extend(s, before), m.ordinal, m.state));
  }

  lemma {:induction false} AdvancedRecordsAreAccepted(s: LogState, opId: string, moves: seq<Move>)
    requires Indexed(s, opId) && AdvanceRecords(s, moves).Ok?
    ensures var records := AdvanceRecords(s, moves).value;
            && |records| == |moves|
            && AcceptAll(s, opId, records) == Ok(Extend(s, records))
  {
    assert AcceptAll(s, opId, []) == Ok(s) && Extend(s, []) == s;
    hide AcceptAll, Extend;
    if moves != [] {
      var earlier, m := moves[..|moves| - 1], moves[|moves| - 1];
      AdvancedRecordsAreAccepted(s, opId, earlier);
      OneMoreAdvanceIsAccepted(s, opId, AdvanceRecords(s, earlier).value, m);
    }
  }

  lemma {:induction false} AdvanceContinues(s: LogState, opId: string, moves: seq<Move>, m: Move)
    requires Indexed(s, opId) && AdvanceRecords(s, moves).Ok?
    ensures var records := AdvanceRecords(s, moves).value;
            var current := Extend(s, records);
            if CanAdvance(current, m) then
              var next := NextRecord(current, m.ordinal, m.state);
              && AdvanceRecords(s, moves + [m]) == Ok(records + [next])
              && Extend(s, records + [next]) == LogState(current.latest[m.ordinal - 1 := next], Some(next))
            else AdvanceRecords(s, moves + [m]).Failed?
  {
    var records := AdvanceRecords(s, moves).value;
    var current := Extend(s, records);
    assert (moves + [m])[..|moves|] == moves;
    if CanAdvance(current, m) {
      AdvancedRecordsAreAccepted(s, opId, moves);
      AcceptAllIsExtend(s, opId, records);
      var next := NextRecord(current, m.ordinal, m.state);
      assert (records + [next])[..|records|] == records;
    }
  }

  lemma {:induction false} RollbackCleanedIsAccepted(s: LogState, opId: string, ordinal: nat)
    requires Indexed(s, opId) && RollbackCleanedRecord(s, ordinal).Ok?
    ensures var r := RollbackCleanedRecord(s, ordinal).value;
            AcceptAll(s, opId, [r]) == Ok(Extend(s, [r]))
  {
    StrictStepIsAccepted(s, opId, ordinal, CLEANED);
    AcceptOneMore(s, opId, [], RollbackCleanedRecord(s, ordinal).value);
    assert [] + [RollbackCleanedRecord(s, ordinal).value] == [RollbackCleanedRecord(s, ordinal).value];
  }

  // ---- what the writers do to the log, read off the log itself ----

  datatype Entry = Entry(intent: Intent, state: MutationState)

  /** What a log says of each ordinal. */
  function View(s: LogState): (view: seq<Entry>)
    ensures |view| == |s.latest|
    ensures forall i :: 0 <= i < |view| ==> view[i] == Entry(s.latest[i].intent, s.latest[i].state)
  {
    seq(|s.latest|, i requires 0 <= i < |s.latest| => Entry(s.latest[i].intent, s.latest[i].state))
  }

  lemma {:induction false} FoldOfGrown(opId: string, before: seq<Record>, records: seq<Record>)
    requires ValidLog(opId, before) && AcceptAll(Fold(opId, before), opId, records).Ok?
    ensures ValidLog(opId, before + records)
    ensures Fold(opId, before + records) == Extend(Fold(opId, before), records)
  {
    hide AcceptAll, Extend;
    FoldIsIndexed(opId, before);
    AcceptAllConcat(EMPTY, opId, before, records);
    AcceptAllIsExtend(Fold(opId, before), opId, records);
  }

  /** What a record needs to be written at all: a file write names its target artifact. */
  predicate Recordable(intent: Intent) {
    intent.kind == WriteFile ==> intent.targetArtifact.Some?
  }

  function Begun(intents: seq<Intent>): (view: seq<Entry>)
    ensures |view| == |intents| && forall i :: 0 <= i < |intents| ==> view[i] == Entry(intents[i], INTENT)
  {
    seq(|intents|, i requires 0 <= i < |intents| => Entry(intents[i], INTENT))
  }

  lemma {:induction false} RecordableIntentsBegin(s: LogState, opId: string, intents: seq<Intent>)
    ensures BeginRecords(s, opId, intents).Ok? <==> forall i :: 0 <= i < |intents| ==> Recordable(intents[i])
  {
    hide Extend;
    if intents != [] {
      RecordableIntentsBegin(s, opId, intents[..|intents| - 1]);
    }
  }

  /** Intents are recorded if and only if each can be; they follow what the log held, in order, at INTENT. */
  lemma {:induction false} BeginningAppends(s: LogState, opId: string, intents: seq<Intent>)
    requires Indexed(s, opId)
    ensures BeginRecords(s, opId, intents).Ok? <==> forall i :: 0 <= i < |intents| ==> Recordable(intents[i])
    ensures BeginRecords(s, opId, intents).Ok? ==>
            View(Extend(s, BeginRecords(s, opId, intents).value)) == View(s) + Begun(intents)
  {
    hide Extend, BeginRecords, AcceptAll, Indexed;
    RecordableIntentsBegin(s, opId, intents);
    if BeginRecords(s, opId, intents).Ok? {
      BegunRecordsAreAccepted(s, opId, intents);
      BegunRecordsCarryTheIntents(s, opId, intents);
    }
  }

  /** The states that the moves ask of one ordinal, in order. */
  function AskedOf(moves: seq<Move>, ordinal: nat): seq<MutationState> {
    if moves == [] then []
    else
      var earlier, m := AskedOf(moves[..|moves| - 1], ordinal), moves[|moves| - 1];
      if m.ordinal == ordinal then earlier + [m.state] else earlier
  }

  /** The states that follow a state, one after the other. */
  predicate Follow(state: MutationState, asked: seq<MutationState>) {
    forall i :: 0 <= i < |asked| ==> Rank(asked[i]) == Rank(state) + 1 + i
  }

  lemma FollowOneMore(state: MutationState, asked: seq<MutationState>, next: MutationState)
    ensures Follow(state, asked + [next]) <==> Follow(state, asked) && Rank(next) == Rank(state) + |asked| + 1
  {
    hide Rank;
    var longer := asked + [next];
    assert longer[|asked|] == next && forall i :: 0 <= i < |asked| ==> asked[i] == longer[i];
  }

  lemma {:induction false} AskedOneMore(moves: seq<Move>, m: Move, ordinal: nat)
    ensures AskedOf(moves + [m], ordinal) ==
            if m.ordinal == ordinal then AskedOf(moves, ordinal) + [m.state] else AskedOf(moves, ordinal)
  {
    assert (moves + [m])[..|moves|] == moves;
  }

  /** Each ordinal is asked to go through the states that follow its own. */
  ghost predicate Climbs(view: seq<Entry>, moves: seq<Move>) {
    && (forall m <- moves :: 1 <= m.ordinal <= |view|)
    && (forall o :: 1 <= o <= |view| ==> Follow(view[o - 1].state, AskedOf(moves, o)))
  }

  /** The ordinal is as many states on as were asked of it, and has the same intent. */
  ghost predicate ClimbedAt(view: seq<Entry>, moves: seq<Move>, after: seq<Entry>, ordinal: nat)
    requires 1 <= ordinal <= |view| == |after|
  {
    && after[ordinal - 1].intent == view[ordinal - 1].intent
    && Rank(after[ordinal - 1].state) == Rank(view[ordinal - 1].state) + |AskedOf(moves, ordinal)|
  }

  ghost predicate Climbed(view: seq<Entry>, moves: seq<Move>, after: seq<Entry>) {
    |after| == |view| && forall o :: 1 <= o <= |view| ==> ClimbedAt(view, moves, after, o)
  }

  lemma {:induction false} ClimbOneMore(view: seq<Entry>, earlier: seq<Move>, m: Move)
    ensures Climbs(view, earlier + [m]) <==>
            && Climbs(view, earlier) && 1 <= m.ordinal <= |view|
            && Rank(m.state) == Rank(view[m.ordinal - 1].state) + |AskedOf(earlier, m.ordinal)| + 1
  {
    hide AskedOf, Follow, Rank;
    forall o | 1 <= o <= |view|
      ensures Follow(view[o - 1].state, AskedOf(earlier + [m], o)) <==>
              && Follow(view[o - 1].state, AskedOf(earlier, o))
              && (o == m.ordinal ==> Rank(m.state) == Rank(view[o - 1].state) + |AskedOf(earlier, o)| + 1)
    {
      AskedOneMore(earlier, m, o);
      FollowOneMore(view[o - 1].state, AskedOf(earlier, o), m.state);
    }
    assert forall x :: x in earlier + [m] <==> x in earlier || x == m;
  }

  lemma NextRecordGoesOn(s: LogState, opId: string, m: Move)
    requires Indexed(s, opId) && CanAdvance(s, m)
    ensures NextRecord(s, m.ordinal, m.state).intent == View(s)[m.ordinal - 1].intent
    ensures NextRecord(s, m.ordinal, m.state).state == m.state
    ensures Rank(m.state) == Rank(View(s)[m.ordinal - 1].state) + 1
  {
  }

  lemma ClimbedOneMore(s: LogState, opId: string, current: LogState, earlier: seq<Move>, m: Move)
    requires Indexed(current, opId) && CanAdvance(current, m)
    requires Climbed(View(s), earlier, View(current))
    ensures var r := NextRecord(current, m.ordinal, m.state);
            Climbed(View(s), earlier + [m], View(LogState(current.latest[m.ordinal - 1 := r], Some(r))))
  {
    hide AskedOf, WellSealed, Rank, NextRecord, Indexed;
    NextRecordGoesOn(current, opId, m);
    var r := NextRecord(current, m.ordinal, m.state);
    var after := View(LogState(current.latest[m.ordinal - 1 := r], Some(r)));
    assert |View(s)| == |View(current)| == |after|;
    assert after == View(current)[m.ordinal - 1 := Entry(r.intent, m.state)];
    forall o | 1 <= o <= |View(s)|
      ensures ClimbedAt(View(s), earlier + [m], after, o)
    {
      assert ClimbedAt(View(s), earlier, View(current), o);
      AskedOneMore(earlier, m, o);
    }
  }

  /** A batch of moves is taken if and only if it asks each of its ordinals to go on strictly, state after state; then
      each ordinal is as many states on as were asked of it. */
  lemma {:induction false} AdvancingClimbs(s: LogState, opId: string, moves: seq<Move>)
    requires Indexed(s, opId)
    ensures AdvanceRecords(s, moves).Ok? <==> Climbs(View(s), moves)
    ensures AdvanceRecords(s, moves).Ok? ==>
            Climbed(View(s), moves, View(Extend(s, AdvanceRecords(s, moves).value)))
  {
    if moves == [] {
    } else {
      var earlier, m := moves[..|moves| - 1], moves[|moves| - 1];
      AdvancingClimbs(s, opId, earlier);
      assert earlier + [m] == moves;
      ClimbOneMore(View(s), earlier, m);
      if AdvanceRecords(s, earlier).Ok? {
        AdvancingOneMore(s, opId, earlier, m);
      }
    }
  }

  lemma {:induction false} CanAdvanceIffNext(view: seq<Entry>, current: LogState, earlier: seq<Move>, m: Move)
    requires Climbed(view, earlier, View(current))
    ensures CanAdvance(current, m) <==>
            && 1 <= m.ordinal <= |view|
            && Rank(m.state) == Rank(view[m.ordinal - 1].state) + |AskedOf(earlier, m.ordinal)| + 1
  {
    hide AskedOf, Rank;
    assert 1 <= m.ordinal <= |view| ==> ClimbedAt(view, earlier, View(current), m.ordinal);
  }

  lemma {:induction false} AdvancingOneMore(s: LogState, opId: string, earlier: seq<Move>, m: Move)
    requires Indexed(s, opId) && AdvanceRecords(s, earlier).Ok?
    requires Climbed(View(s), earlier, View(Extend(s, AdvanceRecords(s, earlier).value)))
    ensures AdvanceRecords(s, earlier + [m]).Ok? <==>
            && 1 <= m.ordinal <= |View(s)|
            && Rank(m.state) == Rank(View(s)[m.ordinal - 1].state) + |AskedOf(earlier, m.ordinal)| + 1
    ensures AdvanceRecords(s, earlier + [m]).Ok? ==>
            Climbed(View(s), earlier + [m], View(Extend(s, AdvanceRecords(s, earlier + [m]).value)))
  {
    hide AdvanceRecords, Extend, AskedOf, AcceptAll, CanAdvance, NextRecord, Climbed, View, Rank, Indexed;
    AdvanceContinues(s, opId, earlier, m);
    var current := Extend(s, AdvanceRecords(s, earlier).value);
    CanAdvanceIffNext(View(s), current, earlier, m);
    AdvancedRecordsAreAccepted(s, opId, earlier);
    AcceptAllIsExtend(s, opId, AdvanceRecords(s, earlier).value);
    if CanAdvance(current, m) {
      ClimbedOneMore(s, opId, current, earlier, m);
    }
  }

  /** A record can be marked cleaned if and only if it is there and is not CLEANED; then it is CLEANED with its intent,
      and nothing else has changed. */
  lemma {:induction false} RollbackCleans(s: LogState, opId: string, ordinal: nat)
    requires Indexed(s, opId)
    ensures RollbackCleanedRecord(s, ordinal).Ok? <==>
            1 <= ordinal <= |View(s)| && View(s)[ordinal - 1].state != CLEANED
    ensures RollbackCleanedRecord(s, ordinal).Ok? ==>
            View(Extend(s, [RollbackCleanedRecord(s, ordinal).value])) ==
            View(s)[ordinal - 1 := Entry(View(s)[ordinal - 1].intent, CLEANED)]
  {
    if RollbackCleanedRecord(s, ordinal).Ok? {
      var r := RollbackCleanedRecord(s, ordinal).value;
      assert [r][..0] == [] && Extend(s, []) == s;
    }
  }

  // ---- text ----

  /** The JSON encoding of records and its parser, as far as the log depends on them. */
  datatype Codec = Codec(encode: Record -> string, decode: string -> Option<Record>) {
    ghost predicate Faithful() {
      forall r: Record :: decode(encode(r)) == Some(r) && '\n' !in encode(r)
    }
  }

  function Encode(c: Codec, records: seq<Record>): string {
    if records == [] then ""
    else Encode(c, records[..|records| - 1]) + c.encode(records[|records| - 1]) + "\n"
  }

  /** A text cut at its newlines: the complete lines, and the rest that no newline ended. */
  datatype Cut = Cut(lines: seq<string>, rest: string)

  function CutLines(text: string): (cut: Cut)
    ensures |cut.rest| <= |text|
  {
    if text == "" then Cut([], "")
    else
      var before, c := CutLines(text[..|text| - 1]), text[|text| - 1];
      if c == '\n' then Cut(before.lines + [before.rest], "") else Cut(before.lines, before.rest + [c])
  }

  /** One past the last newline: `lastIndexOf(0x0a) + 1`. */
  function DurableEnd(text: string): nat {
    |text| - |CutLines(text).rest|
  }

  lemma {:induction false} CutOneMore(text: string, c: char)
    requires c != '\n'
    ensures CutLines(text + [c]) == Cut(CutLines(text).lines, CutLines(text).rest + [c])
  {
    assert (text + [c])[..|text|] == text;
  }

  lemma {:induction false} CutContinues(text: string, more: string)
    requires '\n' !in more
    ensures CutLines(text + more) == Cut(CutLines(text).lines, CutLines(text).rest + more)
  {
    hide CutLines;
    if more == "" {
      assert text + more == text;
    } else {
      var less, last := more[..|more| - 1], more[|more| - 1];
      CutContinues(text, less);
      CutOneMore(text + less, last);
      assert text + less + [last] == text + more;
      assert CutLines(text).rest + less + [last] == CutLines(text).rest + more;
    }
  }

  lemma {:induction false} LineAppended(text: string, line: string)
    requires '\n' !in line && CutLines(text).rest == ""
    ensures CutLines(text + line + "\n") == Cut(CutLines(text).lines + [line], "")
  {
    CutContinues(text, line);
    var whole := text + line + "\n";
    assert whole[..|whole| - 1] == text + line;
    assert CutLines(text + line).rest == "" + line == line;
    assert whole[|whole| - 1] == '\n';
  }

  function EncodedLines(c: Codec, records: seq<Record>): seq<string> {
    seq(|records|, i requires 0 <= i < |records| => c.encode(records[i]))
  }

  /** Reading back complete lines and ignoring the torn end gives exactly the encoded records. */
  lemma {:induction false} LinesOfEncoded(c: Codec, records: seq<Record>)
    requires c.Faithful()
    ensures CutLines(Encode(c, records)) == Cut(EncodedLines(c, records), "")
  {
    if records != [] {
      var earlier, last := records[..|records| - 1], records[|records| - 1];
      LinesOfEncoded(c, earlier);
      assert '\n' !in c.encode(last);
      LineAppended(Encode(c, earlier), c.encode(last));
      assert EncodedLines(c, records) == EncodedLines(c, earlier) + [c.encode(last)];
    }
  }

  /** Where a write torn after `k` characters leaves off: how many whole records, and the rest of a line. */
  lemma {:induction false} TornWrite(c: Codec, records: seq<Record>, k: nat) returns (j: nat, torn: string)
    requires c.Faithful() && k <= |Encode(c, records)|
    ensures j <= |records| && '\n' !in torn
    ensures Encode(c, records)[..k] == Encode(c, records[..j]) + torn
    ensures k == |Encode(c, records)| ==> j == |records| && torn == ""
  {
    if k == |Encode(c, records)| {
      j, torn := |records|, "";
      assert records[..j] == records;
    } else {
      var earlier, line := records[..|records| - 1], c.encode(records[|records| - 1]);
      var start := |Encode(c, earlier)|;
      if k <= start {
        j, torn := TornWrite(c, earlier, k);
        assert records[..j] == earlier[..j];
      } else {
        j, torn := |records| - 1, line[..k - start];
        assert '\n' !in line;
      }
    }
  }

  lemma {:induction false} EncodeConcat(c: Codec, xs: seq<Record>, ys: seq<Record>)
    ensures Encode(c, xs + ys) == Encode(c, xs) + Encode(c, ys)
  {
    if ys == [] {
      assert xs + ys == xs;
    } else {
      EncodeConcat(c, xs, ys[..|ys| - 1]);
      assert (xs + ys)[..|xs + ys| - 1] == xs + ys[..|ys| - 1];
    }
  }

  // ---- reading a file ----

  /** What `readRecords` learns from the file. */
  datatype JournalRecords = JournalRecords(state: LogState, durableEnd: nat, hasNonDurableTail: bool, fileExisted: bool)

  function AcceptLine(c: Codec, opId: string, s: LogState, line: string): Result<LogState> {
    match c.decode(line)
    case None => Failed
    case Some(r) => Accept(s, opId, r)
  }

  function AcceptLines(c: Codec, opId: string, lines: seq<string>): Result<LogState> {
    if lines == [] then Ok(EMPTY)
    else match AcceptLines(c, opId, lines[..|lines| - 1])
      case Failed => Failed
      case Ok(s) => AcceptLine(c, opId, s, lines[|lines| - 1])
  }

  function ReadText(c: Codec, opId: string, text: Option<string>): Result<JournalRecords> {
    match text
    case None => Ok(JournalRecords(EMPTY, 0, false, false))
    case Some(t) =>
      match AcceptLines(c, opId, CutLines(t).lines)
      case Failed => Failed
      case Ok(s) => Ok(JournalRecords(s, DurableEnd(t), DurableEnd(t) != |t|, true))
  }

  /** Put together again, what was cut is the text; no piece holds a newline. */
  function Joined(lines: seq<string>): string {
    if lines == [] then "" else Joined(lines[..|lines| - 1]) + lines[|lines| - 1] + "\n"
  }

  lemma {:induction false} CutsAreTheText(text: string)
    ensures var cut := CutLines(text);
            Joined(cut.lines) + cut.rest == text && '\n' !in cut.rest && forall line <- cut.lines :: '\n' !in line
  {
    if text != "" {
      var before, c := text[..|text| - 1], text[|text| - 1];
      CutsAreTheText(before);
      var cut := CutLines(before);
      assert before + [c] == text;
      if c == '\n' {
        assert (cut.lines + [cut.rest])[..|cut.lines|] == cut.lines;
      }
    }
  }

  /** The records are what the lines decode to. */
  ghost predicate Decodes(c: Codec, lines: seq<string>, records: seq<Record>) {
    |lines| == |records| && forall i :: 0 <= i < |lines| ==> c.decode(lines[i]) == Some(records[i])
  }

  /** The reader accepts complete lines if and only if they all decode, to the records of a valid log; then it has that
      log's state. */
  lemma {:induction false} LinesAreALog(c: Codec, opId: string, lines: seq<string>)
    ensures AcceptLines(c, opId, lines).Ok? <==> exists records :: Decodes(c, lines, records) && ValidLog(opId, records)
    ensures AcceptLines(c, opId, lines).Ok? ==>
              exists records :: Decodes(c, lines, records)
                && AcceptLines(c, opId, lines) == AcceptAll(EMPTY, opId, records)
  {
    hide Accept;
    if lines == [] {
      assert Decodes(c, lines, []) && AcceptAll(EMPTY, opId, []) == Ok(EMPTY);
    } else {
      var earlier, last := lines[..|lines| - 1], lines[|lines| - 1];
      LinesAreALog(c, opId, earlier);
      if records :| Decodes(c, lines, records) && ValidLog(opId, records) {
        DecodedPrefix(c, opId, lines, records);
        var kept :| Decodes(c, earlier, kept) && AcceptLines(c, opId, earlier) == AcceptAll(EMPTY, opId, kept);
        assert kept == records[..|lines| - 1];
      }
      if AcceptLines(c, opId, lines).Ok? {
        var kept :| Decodes(c, earlier, kept) && AcceptLines(c, opId, earlier) == AcceptAll(EMPTY, opId, kept);
        var records := kept + [c.decode(last).value];
        assert records[..|kept|] == kept;
        assert Decodes(c, lines, records) && AcceptLines(c, opId, lines) == AcceptAll(EMPTY, opId, records);
      }
    }
  }

  lemma DecodedPrefix(c: Codec, opId: string, lines: seq<string>, records: seq<Record>)
    requires lines != [] && Decodes(c, lines, records) && ValidLog(opId, records)
    ensures Decodes(c, lines[..|lines| - 1], records[..|lines| - 1]) && ValidLog(opId, records[..|lines| - 1])
  {
    PrefixOfValidLogIsValid(opId, records, |lines| - 1);
  }

  /** Whatever a file holds, the reader takes it if and only if its complete lines are the records of a valid log. */
  lemma {:induction false} ReadsExactlyLogs(c: Codec, opId: string, text: string)
    ensures ReadText(c, opId, Some(text)).Ok? <==>
            exists records :: Decodes(c, CutLines(text).lines, records) && ValidLog(opId, records)
    ensures ReadText(c, opId, Some(text)).Ok? ==>
            exists records ::
              && Decodes(c, CutLines(text).lines, records) && ValidLog(opId, records)
              && ReadText(c, opId, Some(text)).value.state == Fold(opId, records)
  {
    hide AcceptLines, AcceptAll;
    LinesAreALog(c, opId, CutLines(text).lines);
  }

  lemma {:induction false} AcceptEncodedLines(c: Codec, opId: string, records: seq<Record>)
    requires c.Faithful()
    ensures AcceptLines(c, opId, EncodedLines(c, records)) == AcceptAll(EMPTY, opId, records)
  {
    if records != [] {
      AcceptEncodedLines(c, opId, records[..|records| - 1]);
      var lines := EncodedLines(c, records);
      assert lines[..|lines| - 1] == EncodedLines(c, records[..|records| - 1]);
      assert c.decode(c.encode(records[|records| - 1])) == Some(records[|records| - 1]);
    }
  }

  /** The reader accepts a torn log and sees exactly its whole records. */
  lemma {:induction false} ReaderSeesTheWholeRecords(c: Codec, opId: string, records: seq<Record>, torn: string)
    requires c.Faithful() && '\n' !in torn && ValidLog(opId, records)
    ensures ReadText(c, opId, Some(Encode(c, records) + torn)) ==
            Ok(JournalRecords(Fold(opId, records), |Encode(c, records)|, torn != "", true))
  {
    hide CutLines, Encode, EncodedLines, AcceptLines, AcceptAll, Codec.Faithful;
    var text := Encode(c, records) + torn;
    assert CutLines(text) == Cut(EncodedLines(c, records), torn) by {
      LinesOfEncoded(c, records);
      CutContinues(Encode(c, records), torn);
      assert "" + torn == torn;
    }
    assert AcceptLines(c, opId, EncodedLines(c, records)) == Ok(Fold(opId, records)) by {
      AcceptEncodedLines(c, opId, records);
    }
  }
}
