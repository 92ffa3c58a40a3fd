/** The write-ahead log: a text file shared by any number of journal objects, each with its own cache of the parsed
    records. */
module MutationJournal {
  import opened Wrappers
  import opened Mutations
  import opened JournalLog

  /** Where an append stops. A crash and a failing system call leave the same file behind. */
  datatype Fault = Completes | StopsAfterOpen | StopsAfterTruncate | StopsAfterCharacters(n: nat)

  class JournalFile {
    var text: Option<string>
    /** The file's device, inode, size and times: never the same for two different contents. */
    var stamp: nat
    /** The records whose lines are complete, and what follows the last newline. */
    ghost var written: seq<Record>
    ghost var torn: string

    ghost predicate Valid(codec: Codec, opId: string)
      reads this
    {
      && '\n' !in torn && ValidLog(opId, written)
      && (text.None? ==> written == [] && torn == "")
      && (text.Some? ==> text.value == Encode(codec, written) + torn)
    }

    constructor (ghost codec: Codec, ghost opId: string)
      ensures Valid(codec, opId) && text.None? && written == []
    {
      text, stamp, written, torn := None, 0, [], "";
    }

    /** Opening for append creates a missing file. */
    method Open(ghost codec: Codec, ghost opId: string)
      requires Valid(codec, opId)
      modifies this
      ensures Valid(codec, opId) && text.Some? && stamp > old(stamp)
      ensures written == old(written) && torn == old(torn)
      ensures old(text).Some? ==> text == old(text)
    {
      stamp := stamp + 1;
      if text.None? {
        text := Some("");
      }
    }

    method Truncate(ghost codec: Codec, ghost opId: string, durableEnd: nat)
      requires Valid(codec, opId) && text.Some? && durableEnd == |Encode(codec, written)|
      modifies this
      ensures Valid(codec, opId) && text.Some? && stamp > old(stamp)
      ensures written == old(written) && torn == ""
    {
      stamp := stamp + 1;
      text := Some(text.value[..durableEnd]);
      torn := "";
      assert text.value == Encode(codec, written);
    }

    /** Write the first `n` characters of the records' lines; nothing follows the last newline beforehand. */
    method Write(codec: Codec, ghost opId: string, records: seq<Record>, n: nat)
      requires codec.Faithful() && Valid(codec, opId) && text.Some? && torn == ""
      requires ValidLog(opId, written + records) && n <= |Encode(codec, records)|
      modifies this
      ensures Valid(codec, opId) && text.Some? && stamp > old(stamp)
      ensures old(written) <= written <= old(written) + records
      ensures n == |Encode(codec, records)| ==> written == old(written) + records && torn == ""
    {
      hide AcceptAll, Encode, Codec.Faithful;
      ghost var j, rest := TornWrite(codec, records, n);
      ghost var before := written;
      EncodeConcat(codec, before, records[..j]);
      PrefixOfValidLogIsValid(opId, before + records, |before| + j);
      assert (before + records)[..|before| + j] == before + records[..j];
      var lines := Encode(codec, records);
      stamp := stamp + 1;
      text := Some(text.value + lines[..n]);
      written, torn := before + records[..j], rest;
      assert text.value == Encode(codec, before) + (Encode(codec, records[..j]) + rest);
      assert n == |Encode(codec, records)| ==> records[..j] == records;
    }
  }

  datatype Cached = Cached(records: JournalRecords, stamp: nat)

  /** A cache is either stale, and known to be so, or holds what a fresh read would return. */
  ghost predicate CacheAgrees(codec: Codec, opId: string, cached: Option<Cached>, text: Option<string>, stamp: nat) {
    cached.Some? ==>
      && cached.value.stamp <= stamp
      && (cached.value.stamp == stamp ==> text.Some? && ReadText(codec, opId, text) == Ok(cached.value.records))
  }

  datatype Advance = Advance(ordinal: nat, states: seq<MutationState>)

  function MovesOf(a: Advance): seq<Move> {
    seq(|a.states|, i requires 0 <= i < |a.states| => Move(a.ordinal, a.states[i]))
  }

  function Flatten(advances: seq<Advance>): seq<Move> {
    if advances == [] then [] else Flatten(advances[..|advances| - 1]) + MovesOf(advances[|advances| - 1])
  }

  /** The states that a batch asks of one ordinal, in order. */
  function Requested(advances: seq<Advance>, ordinal: nat): seq<MutationState> {
    if advances == [] then []
    else
      var earlier, a := Requested(advances[..|advances| - 1], ordinal), advances[|advances| - 1];
      if a.ordinal == ordinal then earlier + a.states else earlier
  }

  /** A batch that can be taken: each advance asks something of a known ordinal, and what is asked of an ordinal are the
      states that follow its own, one after the other. */
  ghost predicate Takes(view: seq<Entry>, advances: seq<Advance>) {
    && (forall a <- advances :: a.states != [] && 1 <= a.ordinal <= |view|)
    && (forall o :: 1 <= o <= |view| ==> Follow(view[o - 1].state, Requested(advances, o)))
  }

  /** The ordinal has its old intent, and is as many states on as the batch asks of it. */
  ghost predicate AdvancedAt(view: seq<Entry>, advances: seq<Advance>, after: seq<Entry>, ordinal: nat)
    requires 1 <= ordinal <= |view| == |after|
  {
    && after[ordinal - 1].intent == view[ordinal - 1].intent
    && Rank(after[ordinal - 1].state) == Rank(view[ordinal - 1].state) + |Requested(advances, ordinal)|
  }

  ghost predicate Advanced(view: seq<Entry>, advances: seq<Advance>, after: seq<Entry>) {
    |after| == |view| && forall o :: 1 <= o <= |view| ==> AdvancedAt(view, advances, after, o)
  }

  lemma {:induction false} AskedOfConcat(xs: seq<Move>, ys: seq<Move>, ordinal: nat)
    ensures AskedOf(xs + ys, ordinal) == AskedOf(xs, ordinal) + AskedOf(ys, ordinal)
  {
    if ys == [] {
      assert xs + ys == xs;
    } else {
      AskedOfConcat(xs, ys[..|ys| - 1], ordinal);
      assert (xs + ys)[..|xs + ys| - 1] == xs + ys[..|ys| - 1];
    }
  }

  lemma {:induction false} AskedByOne(a: Advance, ordinal: nat)
    ensures AskedOf(MovesOf(a), ordinal) == if a.ordinal == ordinal then a.states else []
    decreases |a.states|
  {
    if a.states != [] {
      var fewer := Advance(a.ordinal, a.states[..|a.states| - 1]);
      AskedByOne(fewer, ordinal);
      assert MovesOf(a) == MovesOf(fewer) + [Move(a.ordinal, a.states[|a.states| - 1])];
      AskedOneMore(MovesOf(fewer), Move(a.ordinal, a.states[|a.states| - 1]), ordinal);
      assert a.states[..|a.states| - 1] + [a.states[|a.states| - 1]] == a.states;
    }
  }

  /** Flattened, a batch asks the same of every ordinal, and names the same ordinals. */
  lemma {:induction false} FlattenAsks(advances: seq<Advance>, ordinal: nat)
    ensures AskedOf(Flatten(advances), ordinal) == Requested(advances, ordinal)
  {
    hide MovesOf;
    if advances != [] {
      FlattenAsks(advances[..|advances| - 1], ordinal);
      AskedOfConcat(Flatten(advances[..|advances| - 1]), MovesOf(advances[|advances| - 1]), ordinal);
      AskedByOne(advances[|advances| - 1], ordinal);
    }
  }

  lemma {:induction false} FlattenNames(advances: seq<Advance>, bound: nat)
    requires forall a <- advances :: a.states != []
    ensures (forall m <- Flatten(advances) :: 1 <= m.ordinal <= bound) <==>
            (forall a <- advances :: 1 <= a.ordinal <= bound)
  {
    if advances != [] {
      var earlier, a := advances[..|advances| - 1], advances[|advances| - 1];
      FlattenNames(earlier, bound);
      assert MovesOf(a)[0] in Flatten(advances) && MovesOf(a)[0].ordinal == a.ordinal;
      assert forall m <- MovesOf(a) :: m.ordinal == a.ordinal;
      assert forall x :: x in advances <==> x in earlier || x == a;
    }
  }

  lemma {:induction false} TakesIffClimbs(view: seq<Entry>, advances: seq<Advance>)
    requires forall a <- advances :: a.states != []
    ensures Climbs(view, Flatten(advances)) <==> Takes(view, advances)
  {
    hide Follow, AskedOf, Requested, Flatten;
    FlattenNames(advances, |view|);
    forall o | 1 <= o <= |view|
      ensures AskedOf(Flatten(advances), o) == Requested(advances, o)
    {
      FlattenAsks(advances, o);
    }
  }

  lemma {:induction false} ClimbedIsAdvanced(view: seq<Entry>, advances: seq<Advance>, after: seq<Entry>)
    requires Climbed(view, Flatten(advances), after)
    ensures Advanced(view, advances, after)
  {
    hide Rank, AskedOf, Requested, Flatten;
    forall o | 1 <= o <= |view|
      ensures AdvancedAt(view, advances, after, o)
    {
      assert ClimbedAt(view, Flatten(advances), after, o);
      FlattenAsks(advances, o);
    }
  }

  /** What a batch of advances does to a log, read off the log. */
  lemma {:induction false} BatchAdvances(opId: string, before: seq<Record>, advances: seq<Advance>)
    requires ValidLog(opId, before) && forall a <- advances :: a.states != []
    ensures var planned := AdvanceRecords(Fold(opId, before), Flatten(advances));
            && (planned.Ok? <==> Takes(View(Fold(opId, before)), advances))
            && (planned.Ok? ==>
                  && ValidLog(opId, before + planned.value)
                  && Advanced(View(Fold(opId, before)), advances, View(Fold(opId, before + planned.value))))
  {
    hide AcceptAll, AdvanceRecords, Extend, Flatten, Climbs, Climbed, Takes, Advanced, View, Indexed;
    var s := Fold(opId, before);
    FoldedIsIndexed(opId, before);
    AdvancingClimbs(s, opId, Flatten(advances));
    TakesIffClimbs(View(s), advances);
    if AdvanceRecords(s, Flatten(advances)).Ok? {
      var records := AdvanceRecords(s, Flatten(advances)).value;
      AdvancedRecordsAreAccepted(s, opId, Flatten(advances));
      FoldOfGrown(opId, before, records);
      ClimbedIsAdvanced(View(s), advances, View(Extend(s, records)));
    }
  }

  /** What a batch of intents does to a log. */
  lemma {:induction false} BatchBegins(opId: string, before: seq<Record>, intents: seq<Intent>)
    requires ValidLog(opId, before)
    ensures var planned := BeginRecords(Fold(opId, before), opId, intents);
            && (planned.Ok? <==> forall intent <- intents :: Recordable(intent))
            && (planned.Ok? ==>
                  && ValidLog(opId, before + planned.value)
                  && View(Fold(opId, before + planned.value)) == View(Fold(opId, before)) + Begun(intents))
  {
    hide AcceptAll, BeginRecords, Extend, View, Indexed;
    var s := Fold(opId, before);
    FoldedIsIndexed(opId, before);
    BeginningAppends(s, opId, intents);
    if BeginRecords(s, opId, intents).Ok? {
      BegunRecordsAreAccepted(s, opId, intents);
      FoldOfGrown(opId, before, BeginRecords(s, opId, intents).value);
    }
  }

  /** What closing a rolled back record does to a log. */
  lemma RollbackCloses(opId: string, before: seq<Record>, ordinal: nat)
    requires ValidLog(opId, before)
    ensures var view, planned := View(Fold(opId, before)), RollbackCleanedRecord(Fold(opId, before), ordinal);
            && (planned.Ok? <==> 1 <= ordinal <= |view| && view[ordinal - 1].state != CLEANED)
            && (planned.Ok? ==>
                  && ValidLog(opId, before + [planned.value])
                  && View(Fold(opId, before + [planned.value])) ==
                     view[ordinal - 1 := Entry(view[ordinal - 1].intent, CLEANED)])
  {
    hide AcceptAll, RollbackCleanedRecord, Extend, Indexed;
    var s := Fold(opId, before);
    FoldedIsIndexed(opId, before);
    RollbackCleans(s, opId, ordinal);
    if RollbackCleanedRecord(s, ordinal).Ok? {
      RollbackCleanedIsAccepted(s, opId, ordinal);
      FoldOfGrown(opId, before, [RollbackCleanedRecord(s, ordinal).value]);
    }
  }

  lemma FoldedIsIndexed(opId: string, records: seq<Record>)
    requires ValidLog(opId, records)
    ensures Indexed(Fold(opId, records), opId)
  {
    FoldIsIndexed(opId, records);
  }

  lemma {:induction false} ValidFileReads(codec: Codec, opId: string, file: JournalFile)
    requires codec.Faithful() && file.Valid(codec, opId)
    ensures ReadText(codec, opId, file.text) ==
            Ok(JournalRecords(Fold(opId, file.written), |Encode(codec, file.written)|, file.torn != "",
                              file.text.Some?))
    ensures Indexed(Fold(opId, file.written), opId)
  {
    FoldIsIndexed(opId, file.written);
    if file.text.Some? {
      ReaderSeesTheWholeRecords(codec, opId, file.written, file.torn);
    }
  }

  /** What a writer may rely on before it appends records that follow from the state it read. */
  lemma {:induction false} FileMayGrow(codec: Codec, opId: string, file: JournalFile, current: JournalRecords,
                                       records: seq<Record>)
    requires codec.Faithful() && file.Valid(codec, opId) && ReadText(codec, opId, file.text) == Ok(current)
    requires AcceptAll(current.state, opId, records).Ok?
    ensures current == JournalRecords(Fold(opId, file.written), |Encode(codec, file.written)|, file.torn != "",
                                      file.text.Some?)
    ensures ValidLog(opId, file.written + records)
  {
    ValidFileReads(codec, opId, file);
    AcceptAllConcat(EMPTY, opId, file.written, records);
  }

  /** After a complete append a fresh read gives what the writer computed from the state it had read. */
  lemma {:induction false} GrownFileReads(codec: Codec, opId: string, file: JournalFile, before: seq<Record>,
                                          records: seq<Record>)
    requires codec.Faithful() && file.Valid(codec, opId) && file.text.Some?
    requires ValidLog(opId, before) && file.written == before + records && file.torn == ""
    ensures ReadText(codec, opId, file.text) ==
            Ok(JournalRecords(Extend(Fold(opId, before), records), |Encode(codec, before)|
                              + |Encode(codec, records)|, false, true))
  {
    hide AcceptAll, Extend, ReadText, Encode;
    EncodeConcat(codec, before, records);
    ValidFileReads(codec, opId, file);
    FoldIsIndexed(opId, before);
    AcceptAllConcat(EMPTY, opId, before, records);
    AcceptAllIsExtend(Fold(opId, before), opId, records);
  }

  /** Cached results stay right whoever else appends: a change of the file is a change of its stamp. */
  lemma OtherWritersOnlyOutdateTheCache(codec: Codec, opId: string, cached: Option<Cached>,
                                        text: Option<string>, stamp: nat, nextText: Option<string>, nextStamp: nat)
    requires CacheAgrees(codec, opId, cached, text, stamp)
    requires nextStamp > stamp || (nextStamp == stamp && nextText == text)
    ensures CacheAgrees(codec, opId, cached, nextText, nextStamp)
  {
  }

  class MutationJournal {
    const file: JournalFile
    const codec: Codec
    const opId: string
    var cached: Option<Cached>

    ghost predicate Valid()
      reads this, file
    {
      codec.Faithful() && file.Valid(codec, opId) && CacheAgrees(codec, opId, cached, file.text, file.stamp)
    }

    constructor (file: JournalFile, codec: Codec, opId: string)
      requires codec.Faithful() && file.Valid(codec, opId)
      ensures Valid() && this.file == file && this.codec == codec && this.opId == opId
    {
      this.file, this.codec, this.opId, this.cached := file, codec, opId, None;
    }

    /** `readRecords`, on whatever the file holds: the cached result is the one a fresh read gives, errors included. */
    method ReadRecords() returns (r: Result<JournalRecords>)
      requires CacheAgrees(codec, opId, cached, file.text, file.stamp)
      modifies this`cached
      ensures r == ReadText(codec, opId, file.text)
      ensures CacheAgrees(codec, opId, cached, file.text, file.stamp)
    {
      if file.text.Some? && cached.Some? && cached.value.stamp == file.stamp {
        return Ok(cached.value.records);
      }
      if file.text.None? {
        cached := None;
        return Ok(JournalRecords(EMPTY, 0, false, false));
      }
      var lines := CutLines(file.text.value).lines;
      var latest: seq<Record>, tail: Option<Record> := [], None;
      for i := 0 to |lines|
        invariant cached == old(cached)
        invariant AcceptLines(codec, opId, lines[..i]) == Ok(LogState(latest, tail))
      {
        LineDecides(codec, opId, lines, i);
        var parsed := codec.decode(lines[i]);
        if parsed.None? || !WellSealed(parsed.value) || parsed.value.opId != opId {
          return Failed;
        }
        var record := parsed.value;
        if record.previous != (if tail.None? then Genesis else tail.value.checksum) {
          return Failed;
        }
        if record.ordinal > |latest| {
          if record.ordinal != |latest| + 1 || record.state != INTENT {
            return Failed;
          }
          latest := latest + [record];
        } else {
          var previous := latest[record.ordinal - 1];
          if previous.intent != record.intent || !ValidDurableTransition(previous.state, record.state) {
            return Failed;
          }
          latest := latest[record.ordinal - 1 := record];
        }
        tail := Some(record);
      }
      assert lines[..|lines|] == lines;
      var durableEnd := DurableEnd(file.text.value);
      var records := JournalRecords(LogState(latest, tail), durableEnd, durableEnd != |file.text.value|, true);
      cached := Some(Cached(records, file.stamp));
      return Ok(records);
    }

    /** `append`: drop a torn end, write the new lines, and carry the cache forward without reading the file again. */
    method Append(records: seq<Record>, current: JournalRecords, fault: Fault) returns (ok: bool)
      requires Valid() && ReadText(codec, opId, file.text) == Ok(current)
      requires AcceptAll(current.state, opId, records).Ok?
      modifies this`cached, file
      ensures Valid() && file.stamp > old(file.stamp)
      ensures ok <==> fault == Completes
      ensures ok ==> file.written == old(file.written) + records && file.torn == ""
      ensures old(file.written) <= file.written <= old(file.written) + records
    {
      hide AcceptAll, Extend, ReadText, Encode;
      ghost var before := file.written;
      FileMayGrow(codec, opId, file, current, records);
      ok := false;
      file.Open(codec, opId);
      if fault == StopsAfterOpen { return; }
      if current.hasNonDurableTail {
        file.Truncate(codec, opId, current.durableEnd);
      }
      if fault == StopsAfterTruncate { return; }
      var lines := Encode(codec, records);
      file.Write(codec, opId, records, if fault.StopsAfterCharacters? && fault.n <= |lines| then fault.n else |lines|);
      if fault.StopsAfterCharacters? { return; }
      var state := CarryForward(current.state, records);
      GrownFileReads(codec, opId, file, before, records);
      cached := Some(Cached(JournalRecords(state, current.durableEnd + |lines|, false, true), file.stamp));
      ok := true;
    }

    /** `beginMany`. */
    method BeginMany(intents: seq<Intent>, fault: Fault) returns (r: Result<seq<Record>>)
      requires Valid()
      modifies this`cached, file
      ensures Valid() && file.stamp >= old(file.stamp)
      ensures r.Ok? <==> fault == Completes && intents != [] && forall intent <- intents :: Recordable(intent)
      ensures r.Ok? ==>
              && file.written == old(file.written) + r.value
              && View(Fold(opId, file.written)) == View(Fold(opId, old(file.written))) + Begun(intents)
      ensures var planned := BeginRecords(Fold(opId, old(file.written)), opId, intents);
              if intents == [] || planned.Failed? then
                r == Failed && unchanged(file)
              else
                && r == (if fault == Completes then planned else Failed)
                && (fault == Completes ==> file.written == old(file.written) + planned.value && file.torn == "")
                && old(file.written) <= file.written <= old(file.written) + planned.value
    {
      hide AcceptAll, BeginRecords, Extend, ReadText, Encode, View, Indexed;
      BatchBegins(opId, file.written, intents);
      if intents == [] { return Failed; }
      ValidFileReads(codec, opId, file);
      var read := ReadRecords();
      var current := read.value;
      r := PlanIntents(current.state, opId, intents);
      if r.Failed? { return; }
      BegunRecordsAreAccepted(current.state, opId, intents);
      var ok := Append(r.value, current, fault);
      if !ok { r := Failed; }
    }

    /** `advanceBatch`. */
    method AdvanceBatch(advances: seq<Advance>, fault: Fault) returns (r: Result<seq<Record>>)
      requires Valid()
      modifies this`cached, file
      ensures Valid() && file.stamp >= old(file.stamp)
      ensures r.Ok? <==>
              fault == Completes && advances != [] && Takes(View(Fold(opId, old(file.written))), advances)
      ensures r.Ok? ==>
              && file.written == old(file.written) + r.value
              && Advanced(View(Fold(opId, old(file.written))), advances, View(Fold(opId, file.written)))
      ensures var planned := AdvanceRecords(Fold(opId, old(file.written)), Flatten(advances));
              if advances == [] || (exists i :: 0 <= i < |advances| && advances[i].states == []) || planned.Failed? then
                r == Failed && unchanged(file)
              else
                && r == (if fault == Completes then planned else Failed)
                && (fault == Completes ==> file.written == old(file.written) + planned.value && file.torn == "")
                && old(file.written) <= file.written <= old(file.written) + planned.value
    {
      hide AcceptAll, AdvanceRecords, Extend, ReadText, Encode, View, Indexed, Flatten, Advanced;
      if advances == [] || exists i :: 0 <= i < |advances| && advances[i].states == [] { return Failed; }
      BatchAdvances(opId, file.written, advances);
      ValidFileReads(codec, opId, file);
      var read := ReadRecords();
      var current := read.value;
      r := PlanAdvances(current.state, opId, advances);
      if r.Failed? { return; }
      AdvancedRecordsAreAccepted(current.state, opId, Flatten(advances));
      var ok := Append(r.value, current, fault);
      if !ok { r := Failed; }
    }

    /** `markRollbackCleaned`: the one writer that may skip states. */
    method MarkRollbackCleaned(ordinal: nat, fault: Fault) returns (r: Result<Record>)
      requires Valid()
      modifies this`cached, file
      ensures Valid() && file.stamp >= old(file.stamp)
      ensures var view := View(Fold(opId, old(file.written)));
              r.Ok? <==> fault == Completes && 1 <= ordinal <= |view| && view[ordinal - 1].state != CLEANED
      ensures r.Ok? ==>
              && file.written == old(file.written) + [r.value]
              && var view := View(Fold(opId, old(file.written)));
                 View(Fold(opId, file.written)) == view[ordinal - 1 := Entry(view[ordinal - 1].intent, CLEANED)]
      ensures var planned := RollbackCleanedRecord(Fold(opId, old(file.written)), ordinal);
              if planned.Failed? then
                r == Failed && unchanged(file)
              else
                && r == (if fault == Completes then planned else Failed)
                && (fault == Completes ==> file.written == old(file.written) + [planned.value] && file.torn == "")
                && old(file.written) <= file.written <= old(file.written) + [planned.value]
    {
      RollbackCloses(opId, file.written, ordinal);
      ValidFileReads(codec, opId, file);
      var read := ReadRecords();
      var current := read.value;
      if !(1 <= ordinal <= |current.state.latest|) || current.state.latest[ordinal - 1].state == CLEANED {
        return Failed;
      }
      var record := NextRecord(current.state, ordinal, CLEANED);
      RollbackCleanedIsAccepted(current.state, opId, ordinal);
      var ok := Append([record], current, fault);
      return if ok then Ok(record) else Failed;
    }
  }

  /** The loop with which `append` updates its copy of the latest records. */
  method CarryForward(s: LogState, records: seq<Record>) returns (next: LogState)
    ensures next == Extend(s, records)
  {
    var latest, tail := s.latest, s.tail;
    for i := 0 to |records|
      invariant LogState(latest, tail) == Extend(s, records[..i])
    {
      assert records[..i + 1][..i] == records[..i];
      var record := records[i];
      latest := if 1 <= record.ordinal <= |latest| then latest[record.ordinal - 1 := record] else latest + [record];
      tail := Some(record);
    }
    assert records[..|records|] == records;
    next := LogState(latest, tail);
  }

  lemma {:induction false} BeginStep(s: LogState, opId: string, intents: seq<Intent>, records: seq<Record>,
                                     last: Intent)
    requires BeginRecords(s, opId, intents) == Ok(records)
    ensures var r := IntentRecord(Extend(s, records), opId, last);
            BeginRecords(s, opId, intents + [last]) == if WellSealed(r) then Ok(records + [r]) else Failed
  {
    assert (intents + [last])[..|intents|] == intents;
  }

  lemma {:induction false} TailOfExtend(s: LogState, records: seq<Record>, r: Record)
    ensures TailDigest(Extend(s, records + [r])) == r.checksum
  {
  }

  lemma {:induction false} BegunOrdinals(s: LogState, opId: string, intents: seq<Intent>)
    requires Indexed(s, opId) && BeginRecords(s, opId, intents).Ok?
    ensures |Extend(s, BeginRecords(s, opId, intents).value).latest| == |s.latest| + |intents|
  {
    BegunRecordsAreAccepted(s, opId, intents);
  }

  lemma {:induction false} BeginContinues(s: LogState, opId: string, intents: seq<Intent>, records: seq<Record>, i: nat)
    requires Indexed(s, opId) && i < |intents| && BeginRecords(s, opId, intents[..i]) == Ok(records)
    ensures var r := IntentRecord(Extend(s, records), opId, intents[i]);
            && r == Seal(opId, |s.latest| + i + 1, INTENT, intents[i], TailDigest(Extend(s, records)))
            && BeginRecords(s, opId, intents[..i + 1]) == (if WellSealed(r) then Ok(records + [r]) else Failed)
            && (!WellSealed(r) ==> BeginRecords(s, opId, intents).Failed?)
  {
    hide BeginRecords, Extend, WellSealed;
    BegunOrdinals(s, opId, intents[..i]);
    BeginStep(s, opId, intents[..i], records, intents[i]);
    assert intents[..i] + [intents[i]] == intents[..i + 1];
    if BeginRecords(s, opId, intents[..i + 1]).Failed? {
      BeginFailsOnAnyPrefix(s, opId, intents, i + 1);
    }
  }

  /** The loop of `beginManyMutation`. */
  method PlanIntents(s: LogState, opId: string, intents: seq<Intent>) returns (r: Result<seq<Record>>)
    requires Indexed(s, opId)
    ensures r == BeginRecords(s, opId, intents)
  {
    var tail := TailDigest(s);
    var records: seq<Record> := [];
    for i := 0 to |intents|
      invariant BeginRecords(s, opId, intents[..i]) == Ok(records)
      invariant tail == TailDigest(Extend(s, records))
    {
      BeginContinues(s, opId, intents, records, i);
      var record := Seal(opId, |s.latest| + i + 1, INTENT, intents[i], tail);
      if !WellSealed(record) {
        return Failed;
      }
      TailOfExtend(s, records, record);
      records := records + [record];
      tail := record.checksum;
    }
    assert intents[..|intents|] == intents;
    return Ok(records);
  }

  /** One turn of the inner loop of `advanceBatchMutation`. */
  method PlanStep(latest: seq<Record>, tail: Option<Record>, ordinal: nat, state: MutationState)
    returns (r: Result<Record>)
    ensures var s := LogState(latest, tail);
            r == if CanAdvance(s, Move(ordinal, state)) then Ok(NextRecord(s, ordinal, state)) else Failed
  {
    if !(1 <= ordinal <= |latest|) || Rank(state) != Rank(latest[ordinal - 1].state) + 1 {
      return Failed;
    }
    var previous := latest[ordinal - 1];
    return Ok(Seal(previous.opId, previous.ordinal, state, previous.intent,
                   if tail.None? then Genesis else tail.value.checksum));
  }

  lemma TakeOneMore(start: seq<Move>, here: seq<Move>, k: nat)
    requires k < |here|
    ensures start + here[..k] + [here[k]] == start + here[..k + 1]
  {
  }

  lemma MovesAreSteps(a: Advance, start: seq<Move>)
    ensures |MovesOf(a)| == |a.states| && forall k :: 0 <= k < |a.states| ==>
            MovesOf(a)[k] == Move(a.ordinal, a.states[k])
    ensures start + MovesOf(a)[..0] == start && MovesOf(a)[..|a.states|] == MovesOf(a)
  {
  }

  /** The inner loop: all states of one advance, after the moves already planned. */
  method PlanStates(s: LogState, opId: string, ghost start: seq<Move>, planned: seq<Record>,
                    latest: seq<Record>, tail: Option<Record>, advance: Advance)
    returns (r: Result<seq<Record>>, latest': seq<Record>, tail': Option<Record>)
    requires Indexed(s, opId)
    requires AdvanceRecords(s, start) == Ok(planned) && LogState(latest, tail) == Extend(s, planned)
    ensures r.Ok? ==> AdvanceRecords(s, start + MovesOf(advance)) == r && LogState(latest', tail') == Extend(s, r.value)
    ensures r.Failed? ==>
            exists n :: 0 <= n <= |MovesOf(advance)| && AdvanceRecords(s, start + MovesOf(advance)[..n]).Failed?
  {
    hide Extend, AdvanceRecords, Indexed, NextRecord, MovesOf;
    latest', tail' := latest, tail;
    var records := planned;
    ghost var here := MovesOf(advance);
    MovesAreSteps(advance, start);
    for k := 0 to |advance.states|
      invariant AdvanceRecords(s, start + here[..k]) == Ok(records)
      invariant LogState(latest', tail') == Extend(s, records)
    {
      AdvanceContinues(s, opId, start + here[..k], here[k]);
      TakeOneMore(start, here, k);
      var step := PlanStep(latest', tail', advance.ordinal, advance.states[k]);
      if step.Failed? {
        r := Failed;
        return;
      }
      records := records + [step.value];
      latest' := latest'[advance.ordinal - 1 := step.value];
      tail' := Some(step.value);
    }
    r := Ok(records);
  }

  /** The outer loop of `advanceBatchMutation`. */
  method PlanAdvances(s: LogState, opId: string, advances: seq<Advance>) returns (r: Result<seq<Record>>)
    requires Indexed(s, opId)
    ensures r == AdvanceRecords(s, Flatten(advances))
  {
    assert Extend(s, []) == s && AdvanceRecords(s, []) == Ok([]);
    hide Extend, CanAdvance, AdvanceRecords;
    var latest, tail := s.latest, s.tail;
    r := Ok([]);
    for i := 0 to |advances|
      invariant r.Ok? && AdvanceRecords(s, Flatten(advances[..i])) == r
      invariant LogState(latest, tail) == Extend(s, r.value)
    {
      ghost var start, here := Flatten(advances[..i]), MovesOf(advances[i]);
      r, latest, tail := PlanStates(s, opId, start, r.value, latest, tail, advances[i]);
      if r.Failed? {
        ghost var n :| 0 <= n <= |here| && AdvanceRecords(s, start + here[..n]).Failed?;
        OneFailureFailsAll(s, advances, i, n);
        return;
      }
      assert advances[..i + 1][..i] == advances[..i];
    }
    assert advances[..|advances|] == advances;
  }

  lemma {:induction false} OneFailureFailsAll(s: LogState, advances: seq<Advance>, i: nat, n: nat)
    requires i < |advances| && n <= |MovesOf(advances[i])|
    requires AdvanceRecords(s, Flatten(advances[..i]) + MovesOf(advances[i])[..n]).Failed?
    ensures AdvanceRecords(s, Flatten(advances)).Failed?
  {
    hide AdvanceRecords, Flatten, MovesOf;
    FlattenGrows(advances, i);
    var start, here := Flatten(advances[..i]), MovesOf(advances[i]);
    assert start + here[..n] == (start + here)[..|start| + n] == Flatten(advances)[..|start| + n];
    AdvanceFailsOnAnyPrefix(s, Flatten(advances), |start| + n);
  }

  lemma {:induction false} LineDecides(codec: Codec, opId: string, lines: seq<string>, i: nat)
    requires i < |lines| && AcceptLines(codec, opId, lines[..i]).Ok?
    ensures AcceptLines(codec, opId, lines[..i + 1]) ==
            AcceptLine(codec, opId, AcceptLines(codec, opId, lines[..i]).value, lines[i])
    ensures AcceptLines(codec, opId, lines[..i + 1]).Failed? ==> AcceptLines(codec, opId, lines).Failed?
  {
    assert lines[..i + 1][..i] == lines[..i];
    if AcceptLines(codec, opId, lines[..i + 1]).Failed? {
      ReadFailsOnAnyPrefix(codec, opId, lines, i + 1);
    }
  }

  lemma {:induction false} ReadFailsOnAnyPrefix(codec: Codec, opId: string, lines: seq<string>, n: nat)
    requires n <= |lines| && AcceptLines(codec, opId, lines[..n]).Failed?
    ensures AcceptLines(codec, opId, lines).Failed?
  {
    if n == |lines| {
      assert lines[..n] == lines;
    } else {
      assert lines[..|lines| - 1][..n] == lines[..n];
      ReadFailsOnAnyPrefix(codec, opId, lines[..|lines| - 1], n);
    }
  }

  lemma {:induction false} BeginFailsOnAnyPrefix(s: LogState, opId: string, intents: seq<Intent>, n: nat)
    requires n <= |intents| && BeginRecords(s, opId, intents[..n]).Failed?
    ensures BeginRecords(s, opId, intents).Failed?
  {
    if n == |intents| {
      assert intents[..n] == intents;
    } else {
      assert intents[..|intents| - 1][..n] == intents[..n];
      BeginFailsOnAnyPrefix(s, opId, intents[..|intents| - 1], n);
    }
  }

  lemma {:induction false} AdvanceFailsOnAnyPrefix(s: LogState, moves: seq<Move>, n: nat)
    requires n <= |moves| && AdvanceRecords(s, moves[..n]).Failed?
    ensures AdvanceRecords(s, moves).Failed?
  {
    if n == |moves| {
      assert moves[..n] == moves;
    } else {
      assert moves[..|moves| - 1][..n] == moves[..n];
      AdvanceFailsOnAnyPrefix(s, moves[..|moves| - 1], n);
    }
  }

  lemma {:induction false} FlattenGrows(advances: seq<Advance>, i: nat)
    requires i < |advances|
    ensures Flatten(advances[..i]) + MovesOf(advances[i]) <= Flatten(advances)
  {
    if i == |advances| - 1 {
      assert advances[..i + 1] == advances;
    } else {
      var shorter := advances[..|advances| - 1];
      assert shorter[..i] == advances[..i] && shorter[i] == advances[i];
      FlattenGrows(shorter, i);
    }
  }
}
