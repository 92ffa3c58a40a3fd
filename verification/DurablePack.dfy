/** The durable pack: written whatever short writes the system makes, and read back as the pack kept in memory. */
module DurablePack {
  import opened Wrappers

  newtype Byte = b: int | 0 <= b < 256

  type Bytes = seq<Byte>

  const WRITE_BATCH_MAX_BYTES := 4 * 1024 * 1024
  const WRITE_BATCH_MAX_BUFFERS := 256

  // ---- writing ----

  function Concat(buffers: seq<Bytes>): Bytes {
    if buffers == [] then [] else Concat(buffers[..|buffers| - 1]) + buffers[|buffers| - 1]
  }

  lemma {:induction false} ConcatSplits(xs: seq<Bytes>, ys: seq<Bytes>)
    ensures Concat(xs + ys) == Concat(xs) + Concat(ys)
  {
    if ys == [] {
      assert xs + ys == xs;
    } else {
      ConcatSplits(xs, ys[..|ys| - 1]);
      assert (xs + ys)[..|xs + ys| - 1] == xs + ys[..|ys| - 1];
    }
  }

  lemma {:induction false} ConcatFirst(buffers: seq<Bytes>)
    requires buffers != []
    ensures Concat(buffers) == buffers[0] + Concat(buffers[1..])
  {
    ConcatSplits([buffers[0]], buffers[1..]);
    assert [buffers[0]] + buffers[1..] == buffers;
    assert Concat([buffers[0]]) == Concat([]) + buffers[0] by { assert [buffers[0]][..0] == []; }
  }

  /** One call of `writev`: how many bytes it was given, and how many it reported as written. */
  datatype Call = Call(asked: nat, reported: int) {
    predicate InRange() { 0 < reported <= asked }
  }

  /** Every call from number `start` on reported some of its bytes, and no more than it was given. */
  ghost predicate InRangeFrom(calls: seq<Call>, start: nat) {
    forall k :: start <= k < |calls| ==> calls[k].InRange()
  }

  /** An open file. The system answers the calls of `writev` in turn with `reports`, and then with all they ask for. */
  class FileHandle {
    var content: Bytes
    const reports: seq<int>
    var served: nat
    ghost var calls: seq<Call>

    ghost predicate Valid()
      reads this
    {
      && served == |calls|
      && forall k :: 0 <= k < |calls| ==>
           && 0 < calls[k].asked <= WRITE_BATCH_MAX_BYTES
           && calls[k].reported == if k < |reports| then reports[k] else calls[k].asked
    }

    constructor (reports: seq<int>)
      ensures Valid() && content == [] && calls == [] && this.reports == reports
    {
      content, this.reports, served, calls := [], reports, 0, [];
    }

    /** The system writes as much as it reports, and nothing when it reports nonsense. */
    method Writev(buffers: seq<Bytes>) returns (written: int)
      requires Valid() && 0 < |buffers| <= WRITE_BATCH_MAX_BUFFERS && 0 < |Concat(buffers)| <= WRITE_BATCH_MAX_BYTES
      modifies this
      ensures Valid() && calls == old(calls) + [Call(|Concat(buffers)|, written)]
      ensures content == old(content) + (if 0 < written <= |Concat(buffers)| then Concat(buffers)[..written] else [])
    {
      written := if served < |reports| then reports[served] else |Concat(buffers)|;
      served, calls := served + 1, calls + [Call(|Concat(buffers)|, written)];
      if 0 < written <= |Concat(buffers)| {
        content := content + Concat(buffers)[..written];
      } else {
        assert content + [] == content;
      }
    }
  }

  ghost predicate NoneEmpty(buffers: seq<Bytes>) {
    forall i :: 0 <= i < |buffers| ==> buffers[i] != []
  }

  /** Drop the first `written` bytes, wherever in the buffers they end. */
  method Advance(buffers: seq<Bytes>, written: nat) returns (remaining: seq<Bytes>)
    requires written <= |Concat(buffers)| && NoneEmpty(buffers)
    ensures Concat(remaining) == Concat(buffers)[written..] && |remaining| <= |buffers| && NoneEmpty(remaining)
  {
    remaining := buffers;
    var consumed := written;
    while |remaining| > 0 && consumed >= |remaining[0]|
      invariant 0 <= consumed <= |Concat(remaining)| && |remaining| <= |buffers| && NoneEmpty(remaining)
      invariant Concat(remaining)[consumed..] == Concat(buffers)[written..]
      decreases |remaining|
    {
      ConcatFirst(remaining);
      consumed := consumed - |remaining[0]|;
      remaining := remaining[1..];
    }
    if consumed > 0 {
      ConcatFirst(remaining);
      var rest := remaining[0][consumed..];
      ConcatFirst([rest] + remaining[1..]);
      assert ([rest] + remaining[1..])[1..] == remaining[1..];
      remaining := [rest] + remaining[1..];
    }
  }

  /** What a write has done so far: a prefix of what it was asked to write, all of it when it succeeded. */
  ghost predicate Emitted(before: Bytes, after: Bytes, wanted: Bytes, all: bool) {
    before <= after <= before + wanted && (all ==> after == before + wanted)
  }

  /** `flush`: call `writev` until the batch is written. It raises exactly when a call reports nothing or too much. */
  method Flush(file: FileHandle, batch: seq<Bytes>) returns (ok: bool)
    requires file.Valid() && |batch| <= WRITE_BATCH_MAX_BUFFERS && |Concat(batch)| <= WRITE_BATCH_MAX_BYTES
             && NoneEmpty(batch)
    modifies file
    ensures file.Valid() && old(file.calls) <= file.calls && (ok <==> InRangeFrom(file.calls, |old(file.calls)|))
    ensures Emitted(old(file.content), file.content, Concat(batch), ok)
  {
    var remaining := batch;
    assert old(file.content) + [] == old(file.content);
    while |remaining| > 0
      invariant file.Valid() && old(file.calls) <= file.calls && InRangeFrom(file.calls, |old(file.calls)|)
      invariant |remaining| <= |batch| && |Concat(remaining)| <= |Concat(batch)| && NoneEmpty(remaining)
      invariant file.content + Concat(remaining) == old(file.content) + Concat(batch)
      invariant old(file.content) <= file.content
      decreases |Concat(remaining)|, |remaining|
    {
      var wanted := Concat(remaining);
      ConcatFirst(remaining);
      var written := file.Writev(remaining);
      if written <= 0 || written > |wanted| {
        assert !file.calls[|file.calls| - 1].InRange();
        return false;
      }
      remaining := Advance(remaining, written);
      assert wanted == wanted[..written] + Concat(remaining);
    }
    return true;
  }

  /** `writeAll`: it ends whatever the system reports and never asks for more than the batch limits allow. It raises
      exactly when a call reports nothing or too much, and otherwise emits exactly the buffers in order. */
  method WriteAll(file: FileHandle, buffers: seq<Bytes>) returns (ok: bool)
    requires file.Valid()
    modifies file
    ensures file.Valid() && old(file.calls) <= file.calls && (ok <==> InRangeFrom(file.calls, |old(file.calls)|))
    ensures Emitted(old(file.content), file.content, Concat(buffers), ok)
  {
    hide Concat, FileHandle.Valid;
    var batch: seq<Bytes> := [];
    assert Concat([]) == [] by { EmptyConcat(); }
    ghost var start := file.content;
    assert start + [] == start;
    for i := 0 to |buffers|
      invariant file.Valid() && old(file.calls) <= file.calls && InRangeFrom(file.calls, |old(file.calls)|)
      invariant |batch| < WRITE_BATCH_MAX_BUFFERS && |Concat(batch)| < WRITE_BATCH_MAX_BYTES && NoneEmpty(batch)
      invariant start <= file.content && file.content + Concat(batch) == start + Concat(buffers[..i])
    {
      batch, ok := WriteBuffer(file, batch, buffers[i], start + Concat(buffers[..i]));
      NextBuffer(buffers, i);
      assert start + Concat(buffers[..i]) + buffers[i] == start + Concat(buffers[..i + 1]);
      if !ok {
        PartOfAll(start, buffers, i + 1);
        return false;
      }
    }
    assert buffers[..|buffers|] == buffers;
    ok := Flush(file, batch);
  }

  /** One buffer of `writeAll`, split over as many batches as it needs; `earlier` is what comes before it. */
  method WriteBuffer(file: FileHandle, pending: seq<Bytes>, buffer: Bytes, ghost earlier: Bytes)
    returns (batch: seq<Bytes>, ok: bool)
    requires file.Valid() && NoneEmpty(pending) && |pending| < WRITE_BATCH_MAX_BUFFERS
             && |Concat(pending)| < WRITE_BATCH_MAX_BYTES
    requires file.content + Concat(pending) == earlier
    modifies file
    ensures file.Valid() && old(file.calls) <= file.calls && (ok <==> InRangeFrom(file.calls, |old(file.calls)|))
    ensures NoneEmpty(batch) && |batch| < WRITE_BATCH_MAX_BUFFERS && |Concat(batch)| < WRITE_BATCH_MAX_BYTES
    ensures old(file.content) <= file.content <= earlier + buffer
            && (ok ==> file.content + Concat(batch) == earlier + buffer)
  {
    hide Concat, FileHandle.Valid;
    batch := pending;
    var offset := 0;
    assert earlier + buffer[..0] == earlier;
    while offset < |buffer|
      invariant offset <= |buffer| && file.Valid() && old(file.calls) <= file.calls
                && InRangeFrom(file.calls, |old(file.calls)|)
      invariant NoneEmpty(batch) && |batch| < WRITE_BATCH_MAX_BUFFERS && |Concat(batch)| < WRITE_BATCH_MAX_BYTES
      invariant old(file.content) <= file.content && file.content + Concat(batch) == earlier + buffer[..offset]
    {
      var room := WRITE_BATCH_MAX_BYTES - |Concat(batch)|;
      var length := if |buffer| - offset < room then |buffer| - offset else room;
      var piece := buffer[offset..offset + length];
      PieceAdded(file.content, batch, piece, earlier, buffer, offset, length);
      batch := batch + [piece];
      offset := offset + length;
      if |Concat(batch)| == WRITE_BATCH_MAX_BYTES || |batch| == WRITE_BATCH_MAX_BUFFERS {
        ok := Flush(file, batch);
        batch := [];
        EmptyConcat();
        assert file.content + [] == file.content;
        assert earlier + buffer[..offset] <= earlier + buffer;
        if !ok { return; }
      }
    }
    assert buffer[..|buffer|] == buffer;
    assert file.content + Concat(batch) == earlier + buffer;
    ok := true;
  }

  lemma EmptyConcat()
    ensures Concat([]) == []
  {
  }

  lemma NextBuffer(buffers: seq<Bytes>, i: nat)
    requires i < |buffers|
    ensures Concat(buffers[..i + 1]) == Concat(buffers[..i]) + buffers[i]
  {
    assert buffers[..i + 1][..i] == buffers[..i];
  }

  lemma {:induction false} PieceAdded(content: Bytes, batch: seq<Bytes>, piece: Bytes, earlier: Bytes, buffer: Bytes,
                                      offset: nat, length: nat)
    requires offset + length <= |buffer| && piece == buffer[offset..offset + length]
    requires content + Concat(batch) == earlier + buffer[..offset]
    ensures content + Concat(batch + [piece]) == earlier + buffer[..offset + length]
    ensures |Concat(batch + [piece])| == |Concat(batch)| + length
  {
    assert (batch + [piece])[..|batch|] == batch;
    assert content + (Concat(batch) + piece) == content + Concat(batch) + piece;
    assert buffer[..offset + length] == buffer[..offset] + piece;
  }

  lemma {:induction false} PartOfAll(start: Bytes, buffers: seq<Bytes>, i: nat)
    requires i <= |buffers|
    ensures start + Concat(buffers[..i]) <= start + Concat(buffers)
  {
    hide Concat;
    assert buffers[..i] + buffers[i..] == buffers;
    ConcatSplits(buffers[..i], buffers[i..]);
    PartOfSum(start, Concat(buffers[..i]), Concat(buffers[i..]));
  }

  lemma PartOfSum(start: Bytes, first: Bytes, rest: Bytes)
    ensures start + first <= start + (first + rest)
  {
  }

  // ---- what a pack holds ----

  datatype Content = AbsentContent | SymlinkContent(text: string) | FileContent(bytes: Bytes, executable: bool)

  /** SHA-256 taken as injective, here and for the payload checksums: the hashed value itself. */
  datatype Fingerprint = Fingerprint(path: string, content: Content)

  datatype Variant = Variant(fingerprint: Fingerprint, content: Content)

  datatype Entry = Entry(
    path: string, sourceArtifact: string, targetArtifact: Option<string>,
    source: Fingerprint, target: Option<Fingerprint>, variants: seq<Variant>)

  datatype HeaderVariant =
    | HeaderAbsent(fingerprint: Fingerprint)
    | HeaderSymlink(fingerprint: Fingerprint, text: string)
    | HeaderFile(fingerprint: Fingerprint, executable: bool, offset: int, length: int, dataChecksum: Bytes)

  datatype HeaderEntry = HeaderEntry(
    path: string, sourceArtifact: string, targetArtifact: Option<string>,
    source: Fingerprint, target: Option<Fingerprint>, variants: seq<HeaderVariant>)

  datatype Packed = Packed(
    sourceArtifact: string, targetArtifact: Option<string>,
    source: Fingerprint, target: Option<Fingerprint>, variants: map<Fingerprint, Content>)

  /** The canonical JSON of a header and its parser. */
  datatype HeaderCodec = HeaderCodec(encode: seq<HeaderEntry> -> Bytes, decode: Bytes -> Option<seq<HeaderEntry>>) {
    ghost predicate Faithful() {
      forall h: seq<HeaderEntry> :: decode(encode(h)) == Some(h) && encode(h) != []
    }
  }

  /** `canonicalEntries`, but for sorting and for the form of paths, artifact names and digests. */
  predicate Canonical(entries: seq<Entry>) {
    && (forall i :: 0 <= i < |entries| ==> CanonicalEntry(entries[i]))
    && (forall i, j :: 0 <= i < j < |entries| ==> entries[i].path != entries[j].path)
  }

  /** Each variant carries the fingerprint of its content at this path, once; source and target are among them. */
  predicate CanonicalEntry(e: Entry) {
    && (forall k :: 0 <= k < |e.variants| ==> e.variants[k].fingerprint == Fingerprint(e.path, e.variants[k].content))
    && (forall j, k :: 0 <= j < k < |e.variants| ==> e.variants[j].fingerprint != e.variants[k].fingerprint)
    && (exists k :: 0 <= k < |e.variants| && e.variants[k].fingerprint == e.source)
    && (e.target.Some? ==> exists k :: 0 <= k < |e.variants| && e.variants[k].fingerprint == e.target.value)
  }

  function PayloadOf(variants: seq<Variant>): seq<Bytes> {
    if variants == [] then []
    else
      var last := variants[|variants| - 1].content;
      PayloadOf(variants[..|variants| - 1]) + if last.FileContent? then [last.bytes] else []
  }

  function Payload(entries: seq<Entry>): seq<Bytes> {
    if entries == [] then [] else Payload(entries[..|entries| - 1]) + PayloadOf(entries[|entries| - 1].variants)
  }

  function HeaderOf(v: Variant, offset: int): HeaderVariant {
    match v.content
    case AbsentContent => HeaderAbsent(v.fingerprint)
    case SymlinkContent(text) => HeaderSymlink(v.fingerprint, text)
    case FileContent(bytes, executable) => HeaderFile(v.fingerprint, executable, offset, |bytes|, bytes)
  }

  function VariantHeaders(variants: seq<Variant>, start: int): (headers: seq<HeaderVariant>)
    ensures |headers| == |variants|
  {
    if variants == [] then []
    else
      var earlier := variants[..|variants| - 1];
      VariantHeaders(earlier, start) + [HeaderOf(variants[|variants| - 1], start + |Concat(PayloadOf(earlier))|)]
  }

  function Header(entries: seq<Entry>): (headers: seq<HeaderEntry>)
    ensures |headers| == |entries|
  {
    if entries == [] then []
    else
      var earlier, e := entries[..|entries| - 1], entries[|entries| - 1];
      Header(earlier) + [HeaderEntry(e.path, e.sourceArtifact, e.targetArtifact, e.source, e.target,
                                     VariantHeaders(e.variants, |Concat(Payload(earlier))|))]
  }

  function Variants(variants: seq<Variant>): map<Fingerprint, Content> {
    if variants == [] then map[]
    else
      var last := variants[|variants| - 1];
      Variants(variants[..|variants| - 1])[last.fingerprint := last.content]
  }

  /** The pack kept in memory. */
  function Resident(entries: seq<Entry>): map<string, Packed> {
    if entries == [] then map[]
    else
      var e := entries[|entries| - 1];
      Resident(entries[..|entries| - 1])[e.path := Packed(e.sourceArtifact, e.targetArtifact, e.source, e.target,
                                                          Variants(e.variants))]
  }

  lemma {:induction false} VariantsHold(variants: seq<Variant>)
    requires forall j, k :: 0 <= j < k < |variants| ==> variants[j].fingerprint != variants[k].fingerprint
    ensures forall f :: f in Variants(variants) <==> exists k :: 0 <= k < |variants| && variants[k].fingerprint == f
    ensures forall k :: 0 <= k < |variants| ==>
              variants[k].fingerprint in Variants(variants)
              && Variants(variants)[variants[k].fingerprint] == variants[k].content
  {
    if variants != [] {
      VariantsHold(variants[..|variants| - 1]);
    }
  }

  /** What a pack answers for an entry is that entry: its artifacts, its fingerprints, and under each fingerprint of a
      variant that variant's content. */
  ghost predicate Answers(pack: map<string, Packed>, e: Entry) {
    && e.path in pack
    && var p := pack[e.path];
       && p.sourceArtifact == e.sourceArtifact && p.targetArtifact == e.targetArtifact
       && p.source == e.source && p.target == e.target
       && (forall f :: f in p.variants <==> exists k :: 0 <= k < |e.variants| && e.variants[k].fingerprint == f)
       && (forall k :: 0 <= k < |e.variants| ==> e.variants[k].fingerprint in p.variants
                                                 && p.variants[e.variants[k].fingerprint] == e.variants[k].content)
  }

  /** The pack in memory answers for every entry, and for nothing else. */
  lemma {:induction false} ResidentAnswers(entries: seq<Entry>)
    requires Canonical(entries)
    ensures forall i :: 0 <= i < |entries| ==> Answers(Resident(entries), entries[i])
    ensures forall p :: p in Resident(entries) <==> exists i :: 0 <= i < |entries| && entries[i].path == p
  {
    hide Variants, Answers;
    if entries != [] {
      var earlier, last := entries[..|entries| - 1], entries[|entries| - 1];
      ResidentAnswers(earlier);
      forall i | 0 <= i < |entries|
        ensures Answers(Resident(entries), entries[i])
      {
        if i < |earlier| {
          StillAnswers(Resident(earlier), Resident(entries), earlier[i]);
        } else {
          LastAnswers(entries);
        }
      }
    }
  }

  lemma StillAnswers(before: map<string, Packed>, after: map<string, Packed>, e: Entry)
    requires Answers(before, e) && e.path in after && after[e.path] == before[e.path]
    ensures Answers(after, e)
  {
  }

  lemma {:induction false} LastAnswers(entries: seq<Entry>)
    requires Canonical(entries) && entries != []
    ensures Answers(Resident(entries), entries[|entries| - 1])
  {
    VariantsHold(entries[|entries| - 1].variants);
  }

  /** So the source of every entry, and its target if it has one, can be looked up and are what their fingerprints say:
      the leaf with which a rollback or a roll-forward works. */
  lemma {:induction false} SourceAndTargetAreThere(entries: seq<Entry>, i: nat)
    requires Canonical(entries) && i < |entries|
    ensures var e := entries[i];
            && e.path in Resident(entries)
            && var variants := Resident(entries)[e.path].variants;
               && e.source in variants && e.source == Fingerprint(e.path, variants[e.source])
               && (e.target.Some? ==>
                   e.target.value in variants && e.target.value == Fingerprint(e.path, variants[e.target.value]))
  {
    ResidentAnswers(entries);
    assert Answers(Resident(entries), entries[i]) && CanonicalEntry(entries[i]);
  }

  // ---- the file ----

  /** "PIUNDO-PACK-V1" and a zero byte. */
  const MAGIC: Bytes := [80, 73, 85, 78, 68, 79, 45, 80, 65, 67, 75, 45, 86, 49, 0]
  const MAX_HEADER_BYTES := 16 * 1024 * 1024

  /** `writeUInt32BE`. */
  function U32(n: nat): (b: Bytes)
    requires n < 0x1_0000_0000
    ensures |b| == 4
  {
    [(n / 0x100_0000) as Byte, (n / 0x1_0000 % 0x100) as Byte, (n / 0x100 % 0x100) as Byte, (n % 0x100) as Byte]
  }

  /** `readUInt32BE`. */
  function ReadU32(b: Bytes): (n: nat)
    requires |b| == 4
  {
    b[0] as nat * 0x100_0000 + b[1] as nat * 0x1_0000 + b[2] as nat * 0x100 + b[3] as nat
  }

  lemma U32RoundTrip(n: nat)
    requires n < 0x1_0000_0000
    ensures ReadU32(U32(n)) == n
  {
    assert n / 0x100_0000 == n / 0x100 / 0x100 / 0x100 && n / 0x1_0000 == n / 0x100 / 0x100;
  }

  function PackFile(codec: HeaderCodec, entries: seq<Entry>): Bytes
    requires |codec.encode(Header(entries))| <= MAX_HEADER_BYTES
  {
    var header := codec.encode(Header(entries));
    MAGIC + U32(|header|) + header + Concat(Payload(entries))
  }

  /** One variant, read from its header and the payload. */
  function LoadVariant(path: string, h: HeaderVariant, payload: Bytes): Result<Content> {
    var content :=
      match h
      case HeaderAbsent(_) => Ok(AbsentContent)
      case HeaderSymlink(_, text) => Ok(SymlinkContent(text))
      case HeaderFile(_, executable, offset, length, dataChecksum) =>
        if offset < 0 || length < 0 || offset + length > |payload|
           || payload[offset..offset + length] != dataChecksum then Failed
        else Ok(FileContent(payload[offset..offset + length], executable));
    if content.Ok? && h.fingerprint == Fingerprint(path, content.value) then content else Failed
  }

  function BytesOf(content: Content): Bytes {
    if content.FileContent? then content.bytes else []
  }

  /** A variant is read from behind what comes before it if and only if its bytes are there. */
  lemma VariantLoads(path: string, v: Variant, before: Bytes, payload: Bytes)
    requires v.fingerprint == Fingerprint(path, v.content) && before <= payload
    ensures LoadVariant(path, HeaderOf(v, |before|), payload) ==
            if before + BytesOf(v.content) <= payload then Ok(v.content) else Failed
  {
    var end := |before| + |BytesOf(v.content)|;
    if end <= |payload| {
      assert payload[..end] == before + payload[|before|..end];
    }
  }

  lemma SingleConcat(b: Bytes)
    ensures Concat([b]) == b
  {
    assert [b][..0] == [];
  }

  lemma PayloadGrows(entries: seq<Entry>, i: nat)
    requires i < |entries|
    ensures Concat(Payload(entries[..i + 1])) ==
            Concat(Payload(entries[..i])) + Concat(PayloadOf(entries[i].variants))
  {
    assert entries[..i + 1][..i] == entries[..i];
    ConcatSplits(Payload(entries[..i]), PayloadOf(entries[i].variants));
  }

  lemma PayloadOfGrows(variants: seq<Variant>, k: nat)
    requires k < |variants|
    ensures Concat(PayloadOf(variants[..k + 1])) == Concat(PayloadOf(variants[..k])) + BytesOf(variants[k].content)
  {
    assert variants[..k + 1][..k] == variants[..k];
    var last := variants[k].content;
    ConcatSplits(PayloadOf(variants[..k]), if last.FileContent? then [last.bytes] else []);
    SingleConcat(BytesOf(last));
  }

  lemma {:induction false} PayloadsBegin(entries: seq<Entry>, i: nat)
    requires i <= |entries|
    ensures Concat(Payload(entries[..i])) <= Concat(Payload(entries))
    decreases |entries| - i
  {
    if i == |entries| {
      assert entries[..i] == entries;
    } else {
      PayloadsBegin(entries, i + 1);
      PayloadGrows(entries, i);
    }
  }

  lemma {:induction false} PayloadsOfBegin(variants: seq<Variant>, k: nat)
    requires k <= |variants|
    ensures Concat(PayloadOf(variants[..k])) <= Concat(PayloadOf(variants))
    decreases |variants| - k
  {
    if k == |variants| {
      assert variants[..k] == variants;
    } else {
      PayloadsOfBegin(variants, k + 1);
      PayloadOfGrows(variants, k);
    }
  }

  /** The headers are those of `e` behind `before`, and the payload begins with `before`. */
  ghost predicate FromEntry(e: Entry, before: Bytes, path: string, headers: seq<HeaderVariant>, payload: Bytes) {
    CanonicalEntry(e) && path == e.path && before <= payload && headers == VariantHeaders(e.variants, |before|)
  }

  lemma NextVariant(e: Entry, before: Bytes, path: string, headers: seq<HeaderVariant>, payload: Bytes, k: nat)
    requires FromEntry(e, before, path, headers, payload) && k < |headers|
    requires before + Concat(PayloadOf(e.variants[..k])) <= payload
    ensures |headers| == |e.variants| && headers[k].fingerprint == e.variants[k].fingerprint
    ensures LoadVariant(path, headers[k], payload) ==
            if before + Concat(PayloadOf(e.variants[..k + 1])) <= payload then Ok(e.variants[k].content) else Failed
    ensures Variants(e.variants[..k + 1]) ==
            Variants(e.variants[..k])[e.variants[k].fingerprint := e.variants[k].content]
    ensures before + Concat(PayloadOf(e.variants)) <= payload ==>
            before + Concat(PayloadOf(e.variants[..k + 1])) <= payload
  {
    hide Concat, Payload, PayloadOf, VariantHeaders, LoadVariant;
    var earlier := before + Concat(PayloadOf(e.variants[..k]));
    HeaderAt(e.variants, |before|, k);
    VariantLoads(path, e.variants[k], earlier, payload);
    PayloadOfGrows(e.variants, k);
    PayloadsOfBegin(e.variants, k + 1);
    assert earlier + BytesOf(e.variants[k].content) == before + Concat(PayloadOf(e.variants[..k + 1]));
    assert e.variants[..k + 1][..k] == e.variants[..k];
  }

  /** The fingerprints under which contents are found are theirs. */
  ghost predicate Faithful(path: string, variants: map<Fingerprint, Content>) {
    forall f :: f in variants ==> f == Fingerprint(path, variants[f])
  }

  lemma NothingLoadedYet(e: Entry, before: Bytes, payload: Bytes)
    ensures Variants(e.variants[..0]) == map[]
    ensures before + Concat(PayloadOf(e.variants[..0])) == before
  {
  }

  /** The bytes that a header announces are there and have its checksum. */
  ghost predicate BytesAreThere(h: HeaderVariant, payload: Bytes) {
    h.HeaderFile? ==>
      && 0 <= h.offset && 0 <= h.length && h.offset + h.length <= |payload|
      && payload[h.offset..h.offset + h.length] == h.dataChecksum
  }

  ghost predicate AllBytesAreThere(headers: seq<HeaderVariant>, payload: Bytes) {
    forall h <- headers :: BytesAreThere(h, payload)
  }

  lemma LoadsWhatIsThere(path: string, h: HeaderVariant, payload: Bytes)
    requires LoadVariant(path, h, payload).Ok?
    ensures BytesAreThere(h, payload) && h.fingerprint == Fingerprint(path, LoadVariant(path, h, payload).value)
  {
  }

  /** The loop over the variants of one header entry. */
  method LoadVariants(path: string, headers: seq<HeaderVariant>, payload: Bytes, ghost e: Entry, ghost before: Bytes)
    returns (r: Result<map<Fingerprint, Content>>)
    ensures r.Ok? ==> Faithful(path, r.value) && AllBytesAreThere(headers, payload)
    ensures FromEntry(e, before, path, headers, payload) ==>
            r == if before + Concat(PayloadOf(e.variants)) <= payload then Ok(Variants(e.variants)) else Failed
  {
    ghost var usual := FromEntry(e, before, path, headers, payload);
    assert usual ==> before <= payload && |headers| == |e.variants|;
    NothingLoadedYet(e, before, payload);
    var variants: map<Fingerprint, Content> := map[];
    hide FromEntry, Variants, Concat, PayloadOf, LoadVariant, BytesAreThere;
    for k := 0 to |headers|
      invariant Faithful(path, variants) && AllBytesAreThere(headers[..k], payload)
      invariant usual ==> variants == Variants(e.variants[..k])
      invariant usual ==> before + Concat(PayloadOf(e.variants[..k])) <= payload
    {
      var content := LoadVariant(path, headers[k], payload);
      if usual { NextVariant(e, before, path, headers, payload, k); }
      if content.Failed? { return Failed; }
      LoadsWhatIsThere(path, headers[k], payload);
      assert headers[..k + 1] == headers[..k] + [headers[k]];
      variants := variants[headers[k].fingerprint := content.value];
    }
    assert headers[..|headers|] == headers;
    assert usual ==> e.variants[..|headers|] == e.variants;
    return Ok(variants);
  }

  lemma {:induction false} HeaderAt(variants: seq<Variant>, start: int, k: nat)
    requires k < |variants|
    ensures VariantHeaders(variants, start)[k] == HeaderOf(variants[k], start + |Concat(PayloadOf(variants[..k]))|)
  {
    if k < |variants| - 1 {
      var earlier := variants[..|variants| - 1];
      HeaderAt(earlier, start, k);
      assert earlier[..k] == variants[..k];
    }
  }

  lemma {:induction false} EntryAt(entries: seq<Entry>, i: nat)
    requires i < |entries|
    ensures var e := entries[i];
            Header(entries)[i] == HeaderEntry(e.path, e.sourceArtifact, e.targetArtifact, e.source, e.target,
                                              VariantHeaders(e.variants, |Concat(Payload(entries[..i]))|))
  {
    if i < |entries| - 1 {
      var earlier := entries[..|entries| - 1];
      EntryAt(earlier, i);
      assert earlier[..i] == entries[..i];
    }
  }

  /** The part of a pack file before its payload. */
  function Front(codec: HeaderCodec, entries: seq<Entry>): Bytes
    requires |codec.encode(Header(entries))| <= MAX_HEADER_BYTES
  {
    MAGIC + U32(|codec.encode(Header(entries))|) + codec.encode(Header(entries))
  }

  /** `file` begins as the pack file of `entries` does. */
  ghost predicate Begins(codec: HeaderCodec, entries: seq<Entry>, file: Bytes) {
    && codec.Faithful() && Canonical(entries) && |codec.encode(Header(entries))| <= MAX_HEADER_BYTES
    && Front(codec, entries) <= file
  }

  lemma {:induction false} FrontParses(codec: HeaderCodec, entries: seq<Entry>, file: Bytes)
    requires Begins(codec, entries, file)
    ensures var header := codec.encode(Header(entries));
            && |Front(codec, entries)| == |MAGIC| + 4 + |header| <= |file|
            && file[..|MAGIC|] == MAGIC && ReadU32(file[|MAGIC|..|MAGIC| + 4]) == |header| > 0
            && file[|MAGIC| + 4..|MAGIC| + 4 + |header|] == header && codec.decode(header) == Some(Header(entries))
  {
    hide Canonical, Header;
    var header := codec.encode(Header(entries));
    U32RoundTrip(|header|);
    assert file[..|Front(codec, entries)|] == Front(codec, entries);
    assert file[|MAGIC|..|MAGIC| + 4] == U32(|header|);
    assert file[|MAGIC| + 4..|MAGIC| + 4 + |header|] == header;
  }

  /** A file cut short inside its front is too short for the length it announces. */
  lemma {:induction false} CutFrontIsShort(codec: HeaderCodec, entries: seq<Entry>, file: Bytes)
    requires |codec.encode(Header(entries))| <= MAX_HEADER_BYTES
    requires file < Front(codec, entries) && |file| >= |MAGIC| + 4
    ensures |MAGIC| + 4 + ReadU32(file[|MAGIC|..|MAGIC| + 4]) > |file|
  {
    hide Header;
    var front, header := Front(codec, entries), codec.encode(Header(entries));
    U32RoundTrip(|header|);
    assert file == front[..|file|];
    assert file[|MAGIC|..|MAGIC| + 4] == front[|MAGIC|..|MAGIC| + 4] == U32(|header|);
  }

  /** `loadDurablePack`. Whatever the file holds, a pack that loads answers with contents that have the fingerprints
      asked for. A file with the front of a pack loads if and only if the pack's payload follows, and then as what the
      pack's creator kept in memory; cut short anywhere, a pack file does not load. */
  method LoadPack(codec: HeaderCodec, file: Bytes, ghost entries: seq<Entry>) returns (r: Result<map<string, Packed>>)
    ensures r.Ok? ==> AllFaithful(r.value)
    ensures Begins(codec, entries, file) ==>
            r == if Front(codec, entries) + Concat(Payload(entries)) <= file then Ok(Resident(entries)) else Failed
    ensures codec.Faithful() && Canonical(entries) && |codec.encode(Header(entries))| <= MAX_HEADER_BYTES
            && file < PackFile(codec, entries) ==>
              r.Failed?
  {
    hide Canonical, Concat, Payload, Header, Resident, HeaderCodec.Faithful;
    ghost var usual := Begins(codec, entries, file);
    ghost var cut := codec.Faithful() && Canonical(entries) && |codec.encode(Header(entries))| <= MAX_HEADER_BYTES
                     && file < PackFile(codec, entries);
    if cut && |file| >= |Front(codec, entries)| { CutPayload(codec, entries, file); }
    if usual { FrontParses(codec, entries, file); }
    hide Begins, Front, PackFile, U32, ReadU32;
    if |file| < |MAGIC| + 4 || file[..|MAGIC|] != MAGIC { return Failed; }
    var length := ReadU32(file[|MAGIC|..|MAGIC| + 4]);
    if cut && !usual { CutFront(codec, entries, file); }
    if length == 0 || length > MAX_HEADER_BYTES { return Failed; }
    var start := |MAGIC| + 4;
    if start + length > |file| { return Failed; }
    var parsed := codec.decode(file[start..start + length]);
    if parsed.None? { return Failed; }
    var payload := file[start + length..];
    if usual { FrontThenPayload(codec, entries, file, payload); }
    r := LoadEntries(parsed.value, payload, entries);
  }

  lemma {:induction false} CutPayload(codec: HeaderCodec, entries: seq<Entry>, file: Bytes)
    requires codec.Faithful() && Canonical(entries) && |codec.encode(Header(entries))| <= MAX_HEADER_BYTES
    requires file < PackFile(codec, entries) && |file| >= |Front(codec, entries)|
    ensures Begins(codec, entries, file) && !(Front(codec, entries) + Concat(Payload(entries)) <= file)
  {
    hide Canonical, Concat, Header, Payload, HeaderCodec.Faithful;
    assert PackFile(codec, entries) == Front(codec, entries) + Concat(Payload(entries));
    assert file == PackFile(codec, entries)[..|file|];
  }

  lemma {:induction false} CutFront(codec: HeaderCodec, entries: seq<Entry>, file: Bytes)
    requires codec.Faithful() && Canonical(entries) && |codec.encode(Header(entries))| <= MAX_HEADER_BYTES
    requires file < PackFile(codec, entries) && !Begins(codec, entries, file) && |file| >= |MAGIC| + 4
    ensures |MAGIC| + 4 + ReadU32(file[|MAGIC|..|MAGIC| + 4]) > |file|
  {
    hide Canonical, Concat, Header, Payload, HeaderCodec.Faithful;
    if |file| >= |Front(codec, entries)| { CutPayload(codec, entries, file); }
    assert PackFile(codec, entries) == Front(codec, entries) + Concat(Payload(entries));
    assert file == Front(codec, entries)[..|file|];
    CutFrontIsShort(codec, entries, file);
  }

  lemma {:induction false} FrontThenPayload(codec: HeaderCodec, entries: seq<Entry>, file: Bytes, payload: Bytes)
    requires Begins(codec, entries, file) && payload == file[|Front(codec, entries)|..]
    ensures Front(codec, entries) + Concat(Payload(entries)) <= file <==> Concat(Payload(entries)) <= payload
    ensures Canonical(entries)
  {
    hide Canonical, Concat, Header, Payload, HeaderCodec.Faithful;
    assert file == Front(codec, entries) + payload;
  }

  /** Every content in the pack has the fingerprint under which it is found. */
  ghost predicate AllFaithful(packed: map<string, Packed>) {
    forall p :: p in packed ==> Faithful(p, packed[p].variants)
  }

  /** The bytes that the first `n` entries of a header announce are there. */
  ghost predicate EntriesAreThere(headers: seq<HeaderEntry>, n: nat, payload: Bytes) {
    forall i :: 0 <= i < n && i < |headers| ==> AllBytesAreThere(headers[i].variants, payload)
  }

  lemma OneMoreEntry(packed: map<string, Packed>, headers: seq<HeaderEntry>, i: nat, payload: Bytes, p: Packed)
    requires AllFaithful(packed) && EntriesAreThere(headers, i, payload) && i < |headers|
    requires Faithful(headers[i].path, p.variants) && AllBytesAreThere(headers[i].variants, payload)
    ensures AllFaithful(packed[headers[i].path := p]) && EntriesAreThere(headers, i + 1, payload)
  {
  }

  /** The next entry of a header, with what comes before it in the payload. */
  lemma {:induction false} NextEntry(headers: seq<HeaderEntry>, payload: Bytes, entries: seq<Entry>, i: nat)
    requires Canonical(entries) && headers == Header(entries) && i < |headers|
    requires Concat(Payload(entries[..i])) <= payload
    ensures var e, h, before := entries[i], headers[i], Concat(Payload(entries[..i]));
            && FromEntry(e, before, h.path, h.variants, payload)
            && Concat(Payload(entries[..i + 1])) == before + Concat(PayloadOf(e.variants))
            && Concat(Payload(entries[..i + 1])) <= Concat(Payload(entries))
            && Resident(entries[..i + 1]) ==
               Resident(entries[..i])[h.path := Packed(h.sourceArtifact, h.targetArtifact, h.source, h.target,
                                                       Variants(e.variants))]
  {
    hide Concat, Payload, PayloadOf, Header, VariantHeaders, Variants, CanonicalEntry;
    EntryAt(entries, i);
    PayloadGrows(entries, i);
    PayloadsBegin(entries, i + 1);
    assert entries[..i + 1][..i] == entries[..i];
  }

  /** The loop over the entries of a header. */
  method LoadEntries(headers: seq<HeaderEntry>, payload: Bytes, ghost entries: seq<Entry>)
    returns (r: Result<map<string, Packed>>)
    ensures r.Ok? ==> AllFaithful(r.value) && EntriesAreThere(headers, |headers|, payload)
    ensures Canonical(entries) && headers == Header(entries) ==>
            r == if Concat(Payload(entries)) <= payload then Ok(Resident(entries)) else Failed
  {
    ghost var usual := Canonical(entries) && headers == Header(entries);
    var packed: map<string, Packed> := map[];
    EmptyConcat();
    assert usual ==> |headers| == |entries| && Resident(entries[..0]) == packed && Payload(entries[..0]) == [];
    hide Concat, Payload, PayloadOf, Header, Canonical, Resident, FromEntry, Faithful, AllFaithful, Variants,
      AllBytesAreThere, EntriesAreThere;
    for i := 0 to |headers|
      invariant AllFaithful(packed) && EntriesAreThere(headers, i, payload)
      invariant usual ==> packed == Resident(entries[..i]) && Concat(Payload(entries[..i])) <= payload
    {
      var h := headers[i];
      ghost var e, before := if usual then entries[i]
                             else Entry("", "", None, Fingerprint("", AbsentContent), None, []),
                             if usual then Concat(Payload(entries[..i])) else [];
      if usual { NextEntry(headers, payload, entries, i); }
      var variants := LoadVariants(h.path, h.variants, payload, e, before);
      if variants.Failed? { return Failed; }
      var p := Packed(h.sourceArtifact, h.targetArtifact, h.source, h.target, variants.value);
      OneMoreEntry(packed, headers, i, payload, p);
      packed := packed[h.path := p];
    }
    assert usual ==> entries[..|headers|] == entries;
    return Ok(packed);
  }

  /** `createDurablePack`: one pass lays out header and payload, the file is written, and the pack is kept in memory
      without reading the file again. It succeeds exactly for canonical entries whose header fits, when every write
      reports some progress and no more than it was given. */
  method CreatePack(codec: HeaderCodec, entries: seq<Entry>, file: FileHandle) returns (r: Result<map<string, Packed>>)
    requires file.Valid() && file.content == [] && file.calls == []
    modifies file
    ensures r.Ok? <==>
            Canonical(entries) && |codec.encode(Header(entries))| <= MAX_HEADER_BYTES && InRangeFrom(file.calls, 0)
    ensures r.Ok? ==> file.content == PackFile(codec, entries) && r.value == Resident(entries)
    ensures file.Valid() && (!Canonical(entries) ==> file.content == [])
  {
    if !Canonical(entries) { return Failed; }
    hide Canonical, Concat, Header, Payload, Resident, FileHandle.Valid;
    var headers, payloads := LayOut(entries);
    var header := codec.encode(headers);
    if |header| > MAX_HEADER_BYTES { return Failed; }
    var buffers := [MAGIC, U32(|header|), header] + payloads;
    var written := WriteAll(file, buffers);
    if !written { return Failed; }
    ConcatSplits([MAGIC, U32(|header|), header], payloads);
    ThreeBuffers(MAGIC, U32(|header|), header);
    var packed := Keep(entries);
    return Ok(packed);
  }

  /** `durablePackFromOwnedEntries`. */
  method Keep(entries: seq<Entry>) returns (packed: map<string, Packed>)
    ensures packed == Resident(entries)
  {
    packed := map[];
    for i := 0 to |entries|
      invariant packed == Resident(entries[..i])
    {
      assert entries[..i + 1][..i] == entries[..i];
      var e := entries[i];
      packed := packed[e.path := Packed(e.sourceArtifact, e.targetArtifact, e.source, e.target, Variants(e.variants))];
    }
    assert entries[..|entries|] == entries;
  }

  lemma ThreeBuffers(a: Bytes, b: Bytes, c: Bytes)
    ensures Concat([a, b, c]) == a + b + c
  {
    ConcatFirst([a, b, c]);
    ConcatFirst([b, c]);
    SingleConcat(c);
    assert [a, b, c][1..] == [b, c] && [b, c][1..] == [c];
    assert a + (b + c) == a + b + c;
  }

  /** The map over the entries and their variants, with its running offset. */
  method LayOut(entries: seq<Entry>) returns (headers: seq<HeaderEntry>, payloads: seq<Bytes>)
    ensures headers == Header(entries) && payloads == Payload(entries)
  {
    headers, payloads := [], [];
    var offset := 0;
    for i := 0 to |entries|
      invariant headers == Header(entries[..i]) && payloads == Payload(entries[..i]) && offset == |Concat(payloads)|
    {
      assert entries[..i + 1][..i] == entries[..i];
      var e := entries[i];
      var variants, added, next := LayOutVariants(e.variants, offset);
      headers := headers + [HeaderEntry(e.path, e.sourceArtifact, e.targetArtifact, e.source, e.target, variants)];
      ConcatSplits(payloads, added);
      payloads := payloads + added;
      offset := next;
    }
    assert entries[..|entries|] == entries;
  }

  method LayOutVariants(variants: seq<Variant>, start: nat)
    returns (headers: seq<HeaderVariant>, payloads: seq<Bytes>, offset: nat)
    ensures headers == VariantHeaders(variants, start) && payloads == PayloadOf(variants)
            && offset == start + |Concat(payloads)|
  {
    headers, payloads, offset := [], [], start;
    for k := 0 to |variants|
      invariant headers == VariantHeaders(variants[..k], start) && payloads == PayloadOf(variants[..k])
      invariant offset == start + |Concat(payloads)|
    {
      assert variants[..k + 1][..k] == variants[..k];
      headers := headers + [HeaderOf(variants[k], offset)];
      if variants[k].content.FileContent? {
        var bytes := variants[k].content.bytes;
        ConcatSplits(payloads, [bytes]);
        SingleConcat(bytes);
        payloads := payloads + [bytes];
        offset := offset + |bytes|;
      }
    }
    assert variants[..|variants|] == variants;
  }

  /** Written through any short writes and loaded again, a pack is the one that was kept in memory. */
  method CreateThenLoad(codec: HeaderCodec, entries: seq<Entry>, file: FileHandle)
    returns (kept: Result<map<string, Packed>>, loaded: Result<map<string, Packed>>)
    requires codec.Faithful() && file.Valid() && file.content == [] && file.calls == []
    modifies file
    ensures kept.Ok? ==> loaded == kept == Ok(Resident(entries))
    ensures Canonical(entries) && |codec.encode(Header(entries))| <= MAX_HEADER_BYTES && InRangeFrom(file.calls, 0) ==>
            kept.Ok?
    ensures kept.Failed? && Canonical(entries) && |codec.encode(Header(entries))| <= MAX_HEADER_BYTES ==>
              exists k :: 0 <= k < |file.reports| && file.reports[k] != 1
  {
    kept := CreatePack(codec, entries, file);
    if kept.Failed? && Canonical(entries) && |codec.encode(Header(entries))| <= MAX_HEADER_BYTES {
      ghost var k :| 0 <= k < |file.calls| && !file.calls[k].InRange();
      assert k < |file.reports| && file.reports[k] != 1;
    }
    loaded := LoadPack(codec, file.content, entries);
  }
}
