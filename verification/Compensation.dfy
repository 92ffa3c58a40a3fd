/** When the log alone shows that a transaction had no net effect, and when it misleads. */
module Compensation {
  import opened Wrappers
  import opened Mutations
  import opened JournalLog

  type Contents = map<string, Leaf>

  function LeafAt(w: Contents, path: string): Leaf {
    if path in w then w[path] else Absent
  }

  // ---- what happened ----

  /** A record with what became of it: its target was installed, or a rollback cleaned it and the path is as it was. */
  datatype Outcome = Outcome(record: Record, rolledBack: bool)

  function Records(run: seq<Outcome>): (records: seq<Record>)
    ensures |records| == |run| && forall i :: 0 <= i < |run| ==> records[i] == run[i].record
  {
    seq(|run|, i requires 0 <= i < |run| => run[i].record)
  }

  /** The workspace after the run. */
  function Replay(w: Contents, run: seq<Outcome>): Contents {
    if run == [] then w
    else
      var earlier, last := Replay(w, run[..|run| - 1]), run[|run| - 1];
      if last.rolledBack then earlier else earlier[last.record.intent.path := last.record.intent.targetFingerprint.leaf]
  }

  /** Every mutation registered what it found at its path; fingerprints are of the record's own path. */
  ghost predicate RegisteredWhatTheyFound(w: Contents, run: seq<Outcome>) {
    forall i :: 0 <= i < |run| ==> Registered(w, run, i)
  }

  ghost predicate Registered(w: Contents, run: seq<Outcome>, i: nat)
    requires i < |run|
  {
    var m := run[i].record.intent;
    m.targetFingerprint.path == m.path
      && m.sourceFingerprint == Fingerprint(m.path, LeafAt(Replay(w, run[..i]), m.path))
  }

  ghost predicate NoNetEffect(w: Contents, run: seq<Outcome>) {
    forall path :: LeafAt(Replay(w, run), path) == LeafAt(w, path)
  }

  /** The last record of some path was rolled back, and would have changed the path. */
  ghost predicate EndsRolledBack(run: seq<Outcome>) {
    exists i :: 0 <= i < |run| && Last(Records(run), i, |run|) && run[i].rolledBack
                && run[i].record.intent.sourceFingerprint != run[i].record.intent.targetFingerprint
  }

  // ---- what the fold looks at ----

  function PathOf(records: seq<Record>, i: nat): string
    requires i < |records|
  {
    records[i].intent.path
  }

  ghost predicate First(records: seq<Record>, i: nat)
    requires i < |records|
  {
    forall k :: 0 <= k < i ==> PathOf(records, k) != PathOf(records, i)
  }

  /** No record between `i` and `n` is of the same path. */
  ghost predicate Last(records: seq<Record>, i: nat, n: nat)
    requires i < n <= |records|
  {
    forall k :: i < k < n ==> PathOf(records, k) != PathOf(records, i)
  }

  /** `j` is the next record of the path after `i`. */
  ghost predicate Follows(records: seq<Record>, i: nat, j: nat)
    requires i < j < |records|
  {
    PathOf(records, i) == PathOf(records, j) && Last(records, i, j)
  }

  ghost predicate AllCleaned(records: seq<Record>) {
    forall i :: 0 <= i < |records| ==> records[i].state == CLEANED
  }

  /** Along every path each of the first `n` records starts from the target of the one before. */
  ghost predicate Chained(records: seq<Record>, n: nat)
    requires n <= |records|
  {
    forall i, j :: 0 <= i < j < n && Follows(records, i, j) ==>
      records[j].intent.sourceFingerprint == records[i].intent.targetFingerprint
  }

  /** `i` and `j` are the first and the last record of one path. */
  ghost predicate Ends(records: seq<Record>, n: nat, i: nat, j: nat)
    requires i < n && j < n <= |records|
  {
    PathOf(records, i) == PathOf(records, j) && First(records, i) && Last(records, j, n)
  }

  /** Along every path the last record ends where the first one started. */
  ghost predicate Closed(records: seq<Record>) {
    forall i, j :: 0 <= i < |records| && 0 <= j < |records| && Ends(records, |records|, i, j) ==>
      records[j].intent.targetFingerprint == records[i].intent.sourceFingerprint
  }

  // ---- the program ----

  datatype Chain = Chain(source: Fingerprint, target: Fingerprint)

  /** The chain of a path holds the source of its first record and the target of its last. */
  ghost predicate IsChain(c: Chain, records: seq<Record>, n: nat, path: string)
    requires n <= |records|
  {
    exists i, j :: 0 <= i < n && 0 <= j < n && Ends(records, n, i, j) && PathOf(records, i) == path
                   && c == Chain(records[i].intent.sourceFingerprint, records[j].intent.targetFingerprint)
  }

  /** The chains are those of the first `n` records. */
  ghost predicate Describes(chains: map<string, Chain>, records: seq<Record>, n: nat)
    requires n <= |records|
  {
    && (forall i :: 0 <= i < n ==> PathOf(records, i) in chains)
    && (forall p :: p in chains ==> IsChain(chains[p], records, n, p))
  }

  /** A chain keeps its first source and takes the latest target. */
  function Linked(chains: map<string, Chain>, m: Intent): map<string, Chain> {
    var source := if m.path in chains then chains[m.path].source else m.sourceFingerprint;
    chains[m.path := Chain(source, m.targetFingerprint)]
  }

  lemma OtherChainStays(c: Chain, records: seq<Record>, n: nat, path: string)
    requires n < |records| && IsChain(c, records, n, path) && PathOf(records, n) != path
    ensures IsChain(c, records, n + 1, path)
  {
    var i, j :| 0 <= i < n && 0 <= j < n && Ends(records, n, i, j) && PathOf(records, i) == path
                && c == Chain(records[i].intent.sourceFingerprint, records[j].intent.targetFingerprint);
    assert Ends(records, n + 1, i, j);
  }

  lemma ChainGrows(c: Chain, records: seq<Record>, n: nat, path: string)
    requires n < |records| && IsChain(c, records, n, path) && PathOf(records, n) == path
    ensures IsChain(Chain(c.source, records[n].intent.targetFingerprint), records, n + 1, path)
  {
    var i, j :| 0 <= i < n && 0 <= j < n && Ends(records, n, i, j) && PathOf(records, i) == path
                && c == Chain(records[i].intent.sourceFingerprint, records[j].intent.targetFingerprint);
    assert Ends(records, n + 1, i, n);
  }

  lemma ChainBegins(records: seq<Record>, n: nat)
    requires n < |records| && forall i :: 0 <= i < n ==> PathOf(records, i) != PathOf(records, n)
    ensures var m := records[n].intent; IsChain(Chain(m.sourceFingerprint, m.targetFingerprint), records, n + 1, m.path)
  {
    assert Ends(records, n + 1, n, n);
  }

  lemma DescribesOneMore(chains: map<string, Chain>, records: seq<Record>, n: nat)
    requires n < |records| && Describes(chains, records, n)
    ensures Describes(Linked(chains, records[n].intent), records, n + 1)
  {
    var m := records[n].intent;
    var next := Linked(chains, m);
    hide IsChain;
    forall p | p in next
      ensures IsChain(next[p], records, n + 1, p)
    {
      if p != m.path {
        OtherChainStays(chains[p], records, n, p);
      } else if p in chains {
        ChainGrows(chains[p], records, n, p);
      } else {
        ChainBegins(records, n);
      }
    }
  }

  /** What the check of one record decides. */
  lemma ChainedOneMore(chains: map<string, Chain>, records: seq<Record>, n: nat)
    requires n < |records| && Describes(chains, records, n) && Chained(records, n)
    ensures var m := records[n].intent;
            Chained(records, n + 1) <==> !(m.path in chains && m.sourceFingerprint != chains[m.path].target)
  {
    var m := records[n].intent;
    if m.path in chains {
      var i, j :| 0 <= i < n && 0 <= j < n && Ends(records, n, i, j) && PathOf(records, i) == m.path
                  && chains[m.path] == Chain(records[i].intent.sourceFingerprint, records[j].intent.targetFingerprint);
      assert Follows(records, j, n);
      OnlyOneLast(records, n, j);
    }
  }

  lemma OnlyOneLast(records: seq<Record>, n: nat, j: nat)
    requires j < n < |records| && Follows(records, j, n)
    ensures forall i :: 0 <= i < n && Follows(records, i, n) ==> i == j
  {
  }

  lemma ChainsDecide(chains: map<string, Chain>, records: seq<Record>)
    requires Describes(chains, records, |records|)
    ensures Closed(records) <==> forall p :: p in chains ==> chains[p].target == chains[p].source
  {
    if Closed(records) {
      forall p | p in chains
        ensures chains[p].target == chains[p].source
      {
        assert IsChain(chains[p], records, |records|, p);
      }
    }
    forall i, j | 0 <= i < |records| && 0 <= j < |records| && Ends(records, |records|, i, j)
      ensures var p := PathOf(records, i);
              p in chains && chains[p] == Chain(records[i].intent.sourceFingerprint,
                                                records[j].intent.targetFingerprint)
    {
      TheChain(chains, records, i, j);
    }
  }

  lemma NothingFolded(records: seq<Record>)
    ensures Describes(map[], records, 0) && Chained(records, 0)
  {
  }

  lemma ChainedThroughout(records: seq<Record>, n: nat)
    requires n <= |records|
    ensures Chained(records, |records|) ==> Chained(records, n)
  {
    hide Follows;
  }

  /** A path has one first and one last record. */
  lemma TheChain(chains: map<string, Chain>, records: seq<Record>, i: nat, j: nat)
    requires i < |records| && j < |records| && Describes(chains, records, |records|) && Ends(records, |records|, i, j)
    ensures var p := PathOf(records, i);
            p in chains && chains[p] == Chain(records[i].intent.sourceFingerprint, records[j].intent.targetFingerprint)
  {
    var p := PathOf(records, i);
    assert IsChain(chains[p], records, |records|, p);
    var k, l :| 0 <= k < |records| && 0 <= l < |records| && Ends(records, |records|, k, l) && PathOf(records, k) == p
                && chains[p] == Chain(records[k].intent.sourceFingerprint, records[l].intent.targetFingerprint);
    assert k == i && l == j;
  }

  /** The first loop: one chain per path, or nothing when a record is not CLEANED or does not continue its chain. */
  method FoldChains(records: seq<Record>) returns (r: Option<map<string, Chain>>)
    ensures r.Some? <==> AllCleaned(records) && Chained(records, |records|)
    ensures r.Some? ==> Describes(r.value, records, |records|)
  {
    hide Describes, Linked, Chained;
    var chains: map<string, Chain> := map[];
    NothingFolded(records);
    for i := 0 to |records|
      invariant Describes(chains, records, i) && Chained(records, i)
      invariant forall k :: 0 <= k < i ==> records[k].state == CLEANED
    {
      var m := records[i].intent;
      if records[i].state != CLEANED { return None; }
      ChainedOneMore(chains, records, i);
      if m.path in chains && m.sourceFingerprint != chains[m.path].target {
        ChainedThroughout(records, i + 1);
        return None;
      }
      DescribesOneMore(chains, records, i);
      chains := Linked(chains, m);
    }
    return Some(chains);
  }

  /** The second loop: does every chain end where it began? */
  method AllClosed(chains: map<string, Chain>) returns (closed: bool)
    ensures closed <==> forall p :: p in chains ==> chains[p].target == chains[p].source
  {
    var todo := chains.Keys;
    while todo != {}
      invariant todo <= chains.Keys
      invariant forall p :: p in chains && p !in todo ==> chains[p].target == chains[p].source
    {
      var p :| p in todo;
      if chains[p].target != chains[p].source { return false; }
      todo := todo - {p};
    }
    return true;
  }

  /** `fingerprintChainsFoldToIdentity`, on any records. */
  method FoldsToIdentity(records: seq<Record>) returns (identity: bool)
    ensures identity <==> AllCleaned(records) && Chained(records, |records|) && Closed(records)
  {
    hide Describes, AllCleaned, Chained, Closed;
    var chains := FoldChains(records);
    if chains.None? { return false; }
    ChainsDecide(chains.value, records);
    identity := AllClosed(chains.value);
  }

  // ---- what its answer is worth ----

  lemma {:induction false} ReplayOneMore(w: Contents, run: seq<Outcome>, n: nat)
    requires n < |run|
    ensures var m := run[n].record.intent;
            Replay(w, run[..n + 1]) ==
            if run[n].rolledBack then Replay(w, run[..n]) else Replay(w, run[..n])[m.path := m.targetFingerprint.leaf]
  {
    assert run[..n + 1][..n] == run[..n];
  }

  /** Between two records of a path, and after its last, the path is as the earlier record left it. */
  lemma {:induction false} PathRests(w: Contents, run: seq<Outcome>, i: nat, n: nat)
    requires i < n <= |run| && Last(Records(run), i, n)
    ensures LeafAt(Replay(w, run[..n]), PathOf(Records(run), i)) ==
            LeafAt(Replay(w, run[..i + 1]), PathOf(Records(run), i))
    decreases n
  {
    if n > i + 1 {
      PathRests(w, run, i, n - 1);
      ReplayOneMore(w, run, n - 1);
      assert PathOf(Records(run), n - 1) == run[n - 1].record.intent.path;
    }
  }

  lemma {:induction false} UntouchedBeforeFirst(w: Contents, run: seq<Outcome>, path: string, n: nat)
    requires n <= |run| && forall k :: 0 <= k < n ==> PathOf(Records(run), k) != path
    ensures LeafAt(Replay(w, run[..n]), path) == LeafAt(w, path)
  {
    if n > 0 {
      UntouchedBeforeFirst(w, run, path, n - 1);
      ReplayOneMore(w, run, n - 1);
      assert PathOf(Records(run), n - 1) == run[n - 1].record.intent.path;
    }
  }

  lemma FirstOf(records: seq<Record>, j: nat) returns (i: nat)
    requires j < |records|
    ensures i <= j && First(records, i) && PathOf(records, i) == PathOf(records, j)
  {
    i := j;
    while !First(records, i)
      invariant i <= j && PathOf(records, i) == PathOf(records, j)
      decreases i
    {
      var k :| 0 <= k < i && PathOf(records, k) == PathOf(records, i);
      i := k;
    }
  }

  lemma LastOf(records: seq<Record>, i: nat) returns (j: nat)
    requires i < |records|
    ensures i <= j < |records| && Last(records, j, |records|) && PathOf(records, j) == PathOf(records, i)
  {
    j := i;
    while !Last(records, j, |records|)
      invariant i <= j < |records| && PathOf(records, j) == PathOf(records, i)
      decreases |records| - j
    {
      var k :| j < k < |records| && PathOf(records, k) == PathOf(records, j);
      j := k;
    }
  }

  /** What the run leaves at the path of its last record there. */
  lemma {:induction false} LeftByTheLast(w: Contents, run: seq<Outcome>, j: nat)
    requires j < |run| && RegisteredWhatTheyFound(w, run) && Last(Records(run), j, |run|)
    ensures var m := run[j].record.intent;
            LeafAt(Replay(w, run), m.path) ==
            if run[j].rolledBack then m.sourceFingerprint.leaf else m.targetFingerprint.leaf
  {
    PathRests(w, run, j, |run|);
    ReplayOneMore(w, run, j);
    assert run[..|run|] == run && Registered(w, run, j);
  }

  /** What the first record of a path found is what was there before the run. */
  lemma FoundByTheFirst(w: Contents, run: seq<Outcome>, i: nat)
    requires i < |run| && RegisteredWhatTheyFound(w, run) && First(Records(run), i)
    ensures var m := run[i].record.intent; m.sourceFingerprint == Fingerprint(m.path, LeafAt(w, m.path))
  {
    UntouchedBeforeFirst(w, run, run[i].record.intent.path, i);
    assert Registered(w, run, i);
  }

  /** Where the fold sees an identity there was no net effect if and only if no path's last record was rolled back with
      its source differing from its target. */
  lemma IdentityMeansNoNetEffectUnlessRolledBack(w: Contents, run: seq<Outcome>)
    requires RegisteredWhatTheyFound(w, run) && Closed(Records(run))
    ensures NoNetEffect(w, run) <==> !EndsRolledBack(run)
  {
    var records := Records(run);
    hide Replay, First, Last;
    if EndsRolledBack(run) {
      var j :| 0 <= j < |run| && Last(records, j, |run|) && run[j].rolledBack
               && run[j].record.intent.sourceFingerprint != run[j].record.intent.targetFingerprint;
      var i := FirstOf(records, j);
      LeftByTheLast(w, run, j);
      FoundByTheFirst(w, run, i);
      assert Registered(w, run, j);
      assert LeafAt(Replay(w, run), PathOf(records, j)) != LeafAt(w, PathOf(records, j));
    } else {
      forall path
        ensures LeafAt(Replay(w, run), path) == LeafAt(w, path)
      {
        LastsDecide(w, run, path);
      }
    }
  }

  lemma {:induction false} LastsDecide(w: Contents, run: seq<Outcome>, path: string)
    requires RegisteredWhatTheyFound(w, run) && Closed(Records(run)) && !EndsRolledBack(run)
    ensures LeafAt(Replay(w, run), path) == LeafAt(w, path)
  {
    var records := Records(run);
    hide Replay, NoNetEffect;
    if k :| 0 <= k < |run| && PathOf(records, k) == path {
      var i := FirstOf(records, k);
      var j := LastOf(records, k);
      assert Ends(records, |records|, i, j);
      LeftByTheLast(w, run, j);
      FoundByTheFirst(w, run, i);
      assert Registered(w, run, j);
      hide Ends, First, Last, Registered;
    } else {
      UntouchedBeforeFirst(w, run, path, |run|);
      assert run[..|run|] == run;
    }
  }

  /** A chain is only broken by a record that was rolled back: while none was, the fold answers exactly whether all
      records are CLEANED and the workspace is as it was. */
  lemma ExactWhenNothingWasRolledBack(w: Contents, run: seq<Outcome>)
    requires RegisteredWhatTheyFound(w, run) && forall i :: 0 <= i < |run| ==> !run[i].rolledBack
    ensures Chained(Records(run), |run|) && (Closed(Records(run)) <==> NoNetEffect(w, run))
  {
    var records := Records(run);
    forall i, j | 0 <= i < j < |records| && Follows(records, i, j)
      ensures records[j].intent.sourceFingerprint == records[i].intent.targetFingerprint
    {
      PathRests(w, run, i, j);
      ReplayOneMore(w, run, i);
      assert Registered(w, run, i) && Registered(w, run, j);
    }
    hide Replay;
    forall i, j | 0 <= i < |records| && 0 <= j < |records| && Ends(records, |records|, i, j) && NoNetEffect(w, run)
      ensures records[j].intent.targetFingerprint == records[i].intent.sourceFingerprint
    {
      LeftByTheLast(w, run, j);
      FoundByTheFirst(w, run, i);
      assert Registered(w, run, j);
    }
    if Closed(records) { IdentityMeansNoNetEffectUnlessRolledBack(w, run); }
  }

  // ---- a log that misleads ----

  /** One more record on an accepted log. */
  lemma Appended(opId: string, log: seq<Record>, s: LogState, ordinal: nat, state: MutationState, m: Intent)
    returns (longer: seq<Record>, next: LogState)
    requires AcceptAll(EMPTY, opId, log) == Ok(s) && ordinal >= 1 && (m.kind == WriteFile ==> m.targetArtifact.Some?)
    requires if ordinal > |s.latest| then ordinal == |s.latest| + 1 && state == INTENT
             else s.latest[ordinal - 1].intent == m && ValidDurableTransition(s.latest[ordinal - 1].state, state)
    ensures AcceptAll(EMPTY, opId, longer) == Ok(next)
    ensures var r := Seal(opId, ordinal, state, m, TailDigest(s));
            next.latest == if ordinal > |s.latest| then s.latest + [r] else s.latest[ordinal - 1 := r]
  {
    var r := Seal(opId, ordinal, state, m, TailDigest(s));
    longer := log + [r];
    assert longer[..|log|] == log;
    next := LogState(if ordinal > |s.latest| then s.latest + [r] else s.latest[ordinal - 1 := r], Some(r));
  }

  /** A mutation begun on an accepted log and taken through all its states. */
  lemma RanToItsEnd(opId: string, log: seq<Record>, s: LogState, m: Intent)
    returns (longer: seq<Record>, next: LogState)
    requires AcceptAll(EMPTY, opId, log) == Ok(s) && (m.kind == WriteFile ==> m.targetArtifact.Some?)
    ensures AcceptAll(EMPTY, opId, longer) == Ok(next) && |next.latest| == |s.latest| + 1
            && next.latest[..|s.latest|] == s.latest
    ensures next.latest[|s.latest|].intent == m && next.latest[|s.latest|].state == CLEANED
  {
    hide AcceptAll, TailDigest;
    var n := |s.latest|;
    longer, next := Appended(opId, log, s, n + 1, INTENT, m);
    for rank := 1 to 6
      invariant AcceptAll(EMPTY, opId, longer) == Ok(next) && |next.latest| == n + 1 && next.latest[..n] == s.latest
      invariant next.latest[n].intent == m && next.latest[n].state == StateAt(rank - 1)
    {
      longer, next := Appended(opId, longer, next, n + 1, StateAt(rank), m);
    }
  }

  /** A mutation that ran, and another back to where it began that was rolled back: the log is accepted, the fold sees
      an identity, and the workspace has changed. */
  lemma RolledBackRecordsMislead(opId: string, path: string, x: Leaf, y: Leaf)
    returns (log: seq<Record>, run: seq<Outcome>, w: Contents)
    requires x != y && x != Absent && y != Absent
    ensures ValidLog(opId, log) && Fold(opId, log).latest == Records(run) && RegisteredWhatTheyFound(w, run)
    ensures AllCleaned(Records(run)) && Chained(Records(run), |run|) && Closed(Records(run))
    ensures EndsRolledBack(run) && LeafAt(w, path) == x && LeafAt(Replay(w, run), path) == y
  {
    hide AcceptAll, Fold, ValidLog, RegisteredWhatTheyFound, Replay, AllCleaned, Chained, Closed, EndsRolledBack;
    var there := Intent(WriteFile, path, "a", Some("b"), Fingerprint(path, x), Fingerprint(path, y));
    var back := Intent(WriteFile, path, "c", Some("d"), Fingerprint(path, y), Fingerprint(path, x));
    NothingLogged(opId);
    var s;
    log, s := RanToItsEnd(opId, [], EMPTY, there);
    var done := s.latest[0];
    log, s := Appended(opId, log, s, 2, INTENT, back);
    log, s := Appended(opId, log, s, 2, CLEANED, back);
    w, run := map[path := x], [Outcome(done, false), Outcome(s.latest[1], true)];
    TwoRecords(w, run, path, x, y);
    assert s.latest == Records(run);
    LoggedAsCleaned(opId, log, s);
  }

  lemma {:induction false} NothingLogged(opId: string)
    ensures AcceptAll(EMPTY, opId, []) == Ok(EMPTY)
  {
  }

  lemma {:induction false} LoggedAsCleaned(opId: string, log: seq<Record>, s: LogState)
    requires AcceptAll(EMPTY, opId, log) == Ok(s) && |s.latest| == 2
    requires s.latest[0].state == s.latest[1].state == CLEANED
    ensures ValidLog(opId, log) && Fold(opId, log) == s && AllCleaned(s.latest)
  {
  }

  lemma {:induction false} TwoRecords(w: Contents, run: seq<Outcome>, path: string, x: Leaf, y: Leaf)
    requires x != y && LeafAt(w, path) == x && |run| == 2 && !run[0].rolledBack && run[1].rolledBack
    requires run[0].record.intent.path == run[1].record.intent.path == path
    requires run[0].record.intent.sourceFingerprint == run[1].record.intent.targetFingerprint == Fingerprint(path, x)
    requires run[0].record.intent.targetFingerprint == run[1].record.intent.sourceFingerprint == Fingerprint(path, y)
    ensures RegisteredWhatTheyFound(w, run) && Chained(Records(run), |run|) && Closed(Records(run))
            && EndsRolledBack(run)
    ensures LeafAt(Replay(w, run), path) == y
  {
    ReplayOneMore(w, run, 0);
    ReplayOneMore(w, run, 1);
    assert run[..0] == [] && run[..2] == run;
    assert Registered(w, run, 0) && Registered(w, run, 1);
    assert PathOf(Records(run), 1) == PathOf(Records(run), 0);
    assert Last(Records(run), 1, 2) && !Last(Records(run), 0, 2);
    assert First(Records(run), 0) && !First(Records(run), 1);
  }
}
