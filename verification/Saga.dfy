/** The undo/redo transaction: the controller's saga, its compensation, and the recovery that follows a crash. */
module Saga {
  import opened Wrappers

  datatype Phase =
    | PREPARED | SESSION_MOVED | APPLYING | FILES_VERIFIED | CURSOR_COMMITTED | COMMITTED
    | ABORTING | ABORTED | RECOVERY_REQUIRED

  // ---- the phase journal ----

  const ORDER := [PREPARED, SESSION_MOVED, APPLYING, FILES_VERIFIED, CURSOR_COMMITTED, COMMITTED]

  /** `Array.indexOf`: -1 for a phase that is not listed. */
  function IndexOf(p: Phase): (i: int)
    ensures i == -1 <==> p !in ORDER
    ensures i >= 0 ==> i < |ORDER| && ORDER[i] == p
  {
    match p
    case PREPARED => 0
    case SESSION_MOVED => 1
    case APPLYING => 2
    case FILES_VERIFIED => 3
    case CURSOR_COMMITTED => 4
    case COMMITTED => 5
    case _ => -1
  }

  predicate Terminal(p: Phase) {
    p == COMMITTED || p == ABORTED
  }

  predicate CanTransition(current: Phase, next: Phase) {
    if current == next || Terminal(current) then false
    else if next == RECOVERY_REQUIRED then true
    else if next == ABORTING then current != ABORTING
    else if next == ABORTED then current == ABORTING
    else IndexOf(next) == IndexOf(current) + 1
  }

  /** Taken alone, the check lets an aborting or locked transaction start again, and a committed cursor be aborted. */
  lemma CanTransitionGoesBack()
    ensures forall p :: CanTransition(p, PREPARED) <==> p in {ABORTING, RECOVERY_REQUIRED}
    ensures CanTransition(CURSOR_COMMITTED, ABORTING) && CanTransition(ABORTING, ABORTED)
  {
    assert forall p: Phase :: IndexOf(p) == -1 <==> p in {ABORTING, ABORTED, RECOVERY_REQUIRED};
  }

  // ---- the state ----

  /** What the session file says about the transaction's cursor; a half-written line counts as absent. */
  datatype Marker = NoMarker | Match(newline: bool) | Conflicting

  datatype Side = RollbackSide | TargetSide | Mixed

  /** `phase` is None until the journal is prepared; `files` is where the workspace stands within the scope. */
  datatype Tx = Tx(
    sessionOnly: bool, from: nat, to: nat, phase: Option<Phase>, marker: Marker, files: Side, clean: bool)

  datatype Pc =
    | Idle | Locked | Down
    | Preparing | Navigating | MarkMoved | Applying | MarkVerified | AppendCursor | MarkCursor | MarkCommitted
    | CancelAborting | CancelAborted | MarkDiverged | MarkRecovery
    | CompAborting | CompLeaf | CompFiles | CompAborted | CompFailed
    | Succeeded | FailedSafe
    | RecLoad | RecAssess | RecShortcut | RecInspect | RecLeaf(forward: bool) | RecMutations(forward: bool)
    | RecFiles(forward: bool) | RecFinalize(forward: bool) | RecSettle(forward: bool)
    | Recovered(forward: bool) | Skipped

  /** All transactions of the session, the current one last; `locked` is the controller's flag. */
  datatype State = State(txs: seq<Tx>, leaf: nat, locked: bool, pc: Pc)

  /** How a step turns out: it succeeds, it answers no, or it raises — a cancellation or timeout, or another error —
      with its write on disk or not. `volatile` says that the session has no file to append the cursor to; the other
      fields say what a step cut short leaves behind. */
  datatype Turn = Fine | No | Raise(cancel: bool, landed: bool)

  datatype Choice = Choice(turn: Turn, leaf: nat, files: Side, clean: bool, marker: Marker, volatile: bool)

  datatype Step =
    | Begin(sessionOnly: bool, to: nat) | Act(choice: Choice) | Crash(choice: Choice)
    | Restart(leaf: nat) | Retry | Rest

  function Current(s: State): Tx
    requires s.txs != []
  {
    s.txs[|s.txs| - 1]
  }

  function With(s: State, tx: Tx, pc: Pc): State
    requires s.txs != []
  {
    s.(txs := s.txs[|s.txs| - 1 := tx], pc := pc)
  }

  /** Where `performOperation` and the compensation go when a step raises. */
  function AfterRaise(turn: Turn, cursorDurable: bool): Pc {
    if turn.Raise? && turn.cancel && !cursorDurable then CompAborting else Locked
  }

  /** One `setPhase`: refused when the transition is; raising before or after the state is on disk. */
  function SetPhase(tx: Tx, next: Phase, turn: Turn): (Tx, bool) {
    if tx.phase.None? || !CanTransition(tx.phase.value, next) then (tx, false)
    else
      var landed := turn == Fine || (turn.Raise? && turn.landed);
      (if landed then tx.(phase := Some(next)) else tx, turn == Fine)
  }

  /** `setPhases` with its group of transitions: one write of the last phase. */
  function SetMoved(tx: Tx, turn: Turn): (Tx, bool) {
    if tx.phase != Some(PREPARED) then (tx, false)
    else
      var landed := turn == Fine || (turn.Raise? && turn.landed);
      (if landed then tx.(phase := Some(if tx.sessionOnly then FILES_VERIFIED else APPLYING)) else tx, turn == Fine)
  }

  // ---- the operation ----

  function ActForward(s: State, c: Choice): State
    requires s.txs != []
  {
    var tx := Current(s);
    match s.pc
    case Preparing =>
      if c.turn == Fine then With(s, tx.(phase := Some(PREPARED)), Navigating)
      else
        var landed := c.turn.Raise? && c.turn.landed;
        With(s, if landed then tx.(phase := Some(PREPARED)) else tx, AfterRaise(c.turn, false))
    case Navigating =>
      if c.turn == No then With(s, tx, CancelAborting)
      else if c.turn.Raise? then With(s, tx, AfterRaise(c.turn, false)).(leaf := c.leaf)
      else if c.leaf == tx.to then With(s, tx, MarkMoved).(leaf := c.leaf)
      else With(s, tx, MarkDiverged).(leaf := c.leaf, locked := true)
    case MarkMoved =>
      var (after, ok) := SetMoved(tx, c.turn);
      With(s, after, if ok then (if tx.sessionOnly then AppendCursor else Applying) else AfterRaise(c.turn, false))
    case Applying =>
      if c.turn == Fine then With(s, tx.(files := TargetSide, clean := c.clean), MarkVerified)
      else
        With(s, tx.(files := c.files, clean := c.clean),
             if c.turn == No then CompAborting else AfterRaise(c.turn, false))
    case MarkVerified =>
      var (after, ok) := SetPhase(tx, FILES_VERIFIED, c.turn);
      With(s, after, if ok then AppendCursor else AfterRaise(c.turn, false))
    case AppendCursor =>
      // a durable cursor; a session without a file; an append that is ambiguous, missing or in conflict; a cancellation
      if c.turn == Fine then With(s, tx.(marker := Match(true)), MarkCursor)
      else if c.turn == No && c.volatile then With(s, tx, CompAborting)
      else if c.turn == No then With(s, tx.(marker := c.marker), MarkRecovery).(locked := true)
      else if c.turn.cancel then With(s, tx, CompAborting)
      else With(s, tx.(marker := c.marker), Locked)
    case MarkCursor =>
      var (after, ok) := SetPhase(tx, CURSOR_COMMITTED, c.turn);
      With(s, after, if ok then MarkCommitted else AfterRaise(c.turn, true))
    case MarkCommitted =>
      if !tx.clean then With(s, tx, Locked)
      else
        var (after, ok) := SetPhase(tx, COMMITTED, c.turn);
        With(s, after, if ok then Succeeded else AfterRaise(c.turn, true))
    case CancelAborting =>
      var (after, ok) := SetPhase(tx, ABORTING, c.turn);
      With(s, after, if ok then CancelAborted else AfterRaise(c.turn, false))
    case CancelAborted =>
      var (after, ok) := SetPhase(tx, ABORTED, c.turn);
      With(s, after, if ok then FailedSafe else AfterRaise(c.turn, false))
    case MarkDiverged =>
      var (after, ok) := SetPhase(tx, RECOVERY_REQUIRED, c.turn);
      With(s, after, if ok then Locked else AfterRaise(c.turn, false))
    case MarkRecovery =>
      var (after, _) := SetPhase(tx, RECOVERY_REQUIRED, c.turn);
      With(s, after, Locked)
    case _ => s
  }

  /** `compensateWithinBudget` and its session-only form. */
  function ActCompensate(s: State, c: Choice): State
    requires s.txs != []
  {
    var tx := Current(s);
    match s.pc
    case CompAborting =>
      var (after, ok) := SetPhase(tx, ABORTING, c.turn);
      With(s, after, if ok then CompLeaf else CompFailed)
    case CompLeaf =>
      if c.turn == Fine then With(s, tx, if tx.sessionOnly then CompAborted else CompFiles).(leaf := tx.from)
      else With(s, tx, CompFailed).(leaf := c.leaf)
    case CompFiles =>
      if c.turn == Fine then With(s, tx.(files := RollbackSide, clean := c.clean), CompAborted)
      else With(s, tx.(files := c.files, clean := c.clean), CompFailed)
    case CompAborted =>
      var (after, ok) := SetPhase(tx, ABORTED, c.turn);
      With(s, after, if ok then FailedSafe else CompFailed)
    case CompFailed =>
      var (after, _) := SetPhase(tx, RECOVERY_REQUIRED, c.turn);
      With(s, after, Locked).(locked := true)
    case _ => s
  }

  // ---- recovery ----

  predicate Pending(tx: Tx) {
    tx.phase.Some? && !Terminal(tx.phase.value)
  }

  /** `settleRecovery`. */
  function Settle(tx: Tx, phase: Phase, turn: Turn): (Tx, bool) {
    if !tx.clean || tx.phase.None? then (tx, false)
    else if tx.phase.value == phase then (tx, true)
    else if Terminal(tx.phase.value) then (tx, false)
    else
      var landed := turn == Fine || (turn.Raise? && turn.landed);
      (if landed then tx.(phase := Some(phase)) else tx, turn == Fine)
  }

  function ActRecover(s: State, c: Choice): State
    requires s.txs != []
  {
    var tx := Current(s);
    match s.pc
    case RecLoad => With(s, tx, if c.turn != Fine then Locked else if Pending(tx) then RecAssess else Skipped)
    case RecAssess => With(s, tx, if c.turn == Fine then RecShortcut else RecInspect)
    case RecShortcut =>
      // fully compensated, and no marker: settle without looking at the workspace or the leaf
      if c.turn == No || tx.marker != NoMarker then With(s, tx, RecInspect)
      else
        var (after, ok) := Settle(tx, ABORTED, c.turn);
        With(s, after, if ok then Skipped else RecInspect)
    case RecInspect =>
      With(s, tx, if c.turn != Fine || tx.marker == Conflicting then Locked else RecLeaf(tx.marker.Match?))
    case RecLeaf(forward) =>
      With(s, tx, if s.leaf == (if forward then tx.to else tx.from) then RecMutations(forward) else Locked)
    case RecMutations(forward) =>
      With(s, tx.(files := c.files, clean := c.clean),
           if c.turn != Fine then Locked else if tx.sessionOnly then RecFinalize(forward) else RecFiles(forward))
    case RecFiles(forward) =>
      if c.turn == Fine then
        With(s, tx.(files := if forward then TargetSide else RollbackSide, clean := c.clean), RecFinalize(forward))
      else With(s, tx.(files := c.files, clean := c.clean), Locked)
    case RecFinalize(forward) =>
      if !forward then With(s, tx, RecSettle(forward))
      else if c.turn == Fine then With(s, tx.(marker := Match(true)), RecSettle(forward))
      else With(s, tx, Locked)
    case RecSettle(forward) =>
      var (after, ok) := Settle(tx, if forward then COMMITTED else ABORTED, c.turn);
      With(s, after, if ok then Recovered(forward) else Locked)
    case _ => s
  }

  predicate Recovering(pc: Pc) {
    match pc
    case RecLoad => true
    case RecAssess => true
    case RecShortcut => true
    case RecInspect => true
    case RecLeaf(_) => true
    case RecMutations(_) => true
    case RecFiles(_) => true
    case RecFinalize(_) => true
    case RecSettle(_) => true
    case _ => false
  }

  predicate Compensating(pc: Pc) {
    pc in {CompAborting, CompLeaf, CompFiles, CompAborted, CompFailed}
  }

  predicate Working(pc: Pc) {
    pc !in {Idle, Locked, Down, Succeeded, FailedSafe, Skipped} && !pc.Recovered?
  }

  predicate Enabled(s: State, step: Step) {
    match step
    case Begin(_, _) => s.pc == Idle && !s.locked
    case Act(c) => Working(s.pc) && s.txs != []
    case Crash(_) => true
    case Restart(_) => s.pc == Down
    case Retry => s.pc == Locked
    case Rest => s.pc in {Succeeded, FailedSafe, Skipped} || s.pc.Recovered?
  }

  /** A crash keeps what is on disk; a pass over the files, or the append of the cursor, may be half done. */
  function CrashOf(s: State, c: Choice): State {
    if s.txs == [] then s.(pc := Down)
    else
      var tx := Current(s);
      match s.pc
      case AppendCursor => With(s, tx.(marker := if c.marker == Conflicting then NoMarker else c.marker), Down)
      case Applying => With(s, tx.(files := c.files, clean := c.clean), Down)
      case CompFiles => With(s, tx.(files := c.files, clean := c.clean), Down)
      case RecMutations(_) => With(s, tx.(files := c.files, clean := c.clean), Down)
      case RecFiles(_) => With(s, tx.(files := c.files, clean := c.clean), Down)
      case _ => s.(pc := Down)
  }

  function Apply(s: State, step: Step): State
    requires Enabled(s, step)
  {
    match step
    case Begin(sessionOnly, to) =>
      s.(txs := s.txs + [Tx(sessionOnly, s.leaf, to, None, NoMarker, RollbackSide, true)], pc := Preparing)
    case Act(c) =>
      if Recovering(s.pc) then ActRecover(s, c)
      else if Compensating(s.pc) then ActCompensate(s, c)
      else ActForward(s, c)
    case Crash(c) => CrashOf(s, c)
    case Restart(leaf) => s.(leaf := leaf, locked := false, pc := if s.txs == [] then Idle else RecLoad)
    case Retry => s.(pc := if s.txs == [] then Idle else RecLoad)
    case Rest => s.(locked := if s.pc in {Succeeded, FailedSafe} then s.locked else false,
                    pc := if s.pc in {Succeeded, FailedSafe} && s.locked then Locked else Idle)
  }

  // ---- what every step keeps ----

  /** A committed transaction has its cursor on disk, an aborted one has none. */
  predicate Honest(tx: Tx) {
    && (tx.phase == Some(COMMITTED) ==> tx.marker.Match?)
    && (tx.phase == Some(CURSOR_COMMITTED) ==> tx.marker.Match?)
    && (tx.phase in {Some(ABORTED), Some(ABORTING)} ==> tx.marker == NoMarker)
  }

  predicate OnSide(tx: Tx, side: Side) {
    tx.sessionOnly || tx.files == side
  }

  /** What holds at each place. */
  predicate Fits(s: State)
    requires s.txs != []
  {
    var tx := Current(s);
    match s.pc
    case Idle => !Pending(tx)
    case Preparing => tx.phase == None && tx.marker == NoMarker && s.leaf == tx.from && tx.files == RollbackSide
    case Navigating =>
      tx.phase == Some(PREPARED) && tx.marker == NoMarker && s.leaf == tx.from && tx.files == RollbackSide
    case MarkMoved => tx.phase == Some(PREPARED) && tx.marker == NoMarker && s.leaf == tx.to
    case Applying => tx.phase == Some(APPLYING) && tx.marker == NoMarker && s.leaf == tx.to && !tx.sessionOnly
    case MarkVerified =>
      tx.phase == Some(APPLYING) && tx.marker == NoMarker && s.leaf == tx.to && tx.files == TargetSide
    case AppendCursor =>
      tx.phase == Some(FILES_VERIFIED) && tx.marker == NoMarker && s.leaf == tx.to && OnSide(tx, TargetSide)
    case MarkCursor =>
      tx.phase == Some(FILES_VERIFIED) && tx.marker == Match(true) && s.leaf == tx.to && OnSide(tx, TargetSide)
    case MarkCommitted =>
      tx.phase == Some(CURSOR_COMMITTED) && tx.marker == Match(true) && s.leaf == tx.to && OnSide(tx, TargetSide)
    case CancelAborting =>
      tx.phase == Some(PREPARED) && tx.marker == NoMarker && s.leaf == tx.from && tx.files == RollbackSide
    case CancelAborted =>
      tx.phase == Some(ABORTING) && tx.marker == NoMarker && s.leaf == tx.from && tx.files == RollbackSide
    case MarkDiverged => tx.phase == Some(PREPARED) && tx.marker == NoMarker
    case MarkRecovery => tx.phase == Some(FILES_VERIFIED)
    case CompAborting => tx.marker == NoMarker
    case CompLeaf => tx.phase == Some(ABORTING) && tx.marker == NoMarker
    case CompFiles => tx.phase == Some(ABORTING) && tx.marker == NoMarker && s.leaf == tx.from
    case CompAborted =>
      tx.phase == Some(ABORTING) && tx.marker == NoMarker && s.leaf == tx.from && OnSide(tx, RollbackSide)
    case CompFailed => tx.marker == NoMarker
    case Succeeded =>
      tx.phase == Some(COMMITTED) && tx.marker == Match(true) && s.leaf == tx.to && OnSide(tx, TargetSide)
    case FailedSafe =>
      tx.phase == Some(ABORTED) && tx.marker == NoMarker && s.leaf == tx.from && OnSide(tx, RollbackSide)
    case RecAssess => Pending(tx)
    case RecShortcut => Pending(tx)
    case RecInspect => tx.phase.Some?
    case RecLeaf(forward) => tx.phase.Some? && forward == tx.marker.Match? && tx.marker != Conflicting
    case RecMutations(forward) => tx.phase.Some? && ForwardFits(s, tx, forward)
    case RecFiles(forward) => tx.phase.Some? && ForwardFits(s, tx, forward)
    case RecFinalize(forward) =>
      tx.phase.Some? && ForwardFits(s, tx, forward) && OnSide(tx, if forward then TargetSide else RollbackSide)
    case RecSettle(forward) =>
      && tx.phase.Some? && ForwardFits(s, tx, forward) && OnSide(tx, if forward then TargetSide else RollbackSide)
      && (forward ==> tx.marker == Match(true))
    case Recovered(forward) =>
      && tx.phase == Some(if forward then COMMITTED else ABORTED) && ForwardFits(s, tx, forward)
      && OnSide(tx, if forward then TargetSide else RollbackSide) && (forward ==> tx.marker == Match(true))
    case Skipped => !Pending(tx)
    case _ => true
  }

  predicate ForwardFits(s: State, tx: Tx, forward: bool) {
    && tx.marker == (if forward then tx.marker else NoMarker) && (forward ==> tx.marker.Match?)
    && s.leaf == (if forward then tx.to else tx.from)
  }

  ghost predicate Inv(s: State) {
    && (forall i :: 0 <= i < |s.txs| ==> Honest(s.txs[i]))
    && (forall i :: 0 <= i < |s.txs| - 1 ==> !Pending(s.txs[i]))
    && (if s.txs == [] then s.pc in {Idle, Down, Locked} else Fits(s))
  }

  /** Only the current transaction and the control state change. */
  lemma OneStep(s: State, next: State)
    requires Inv(s) && s.txs != [] && |next.txs| == |s.txs| && next.txs == s.txs[|s.txs| - 1 := Current(next)]
    requires Honest(Current(next)) && Fits(next)
    ensures Inv(next)
  {
    hide Fits, Honest, Pending;
  }

  lemma ForwardKeepsInv(s: State, c: Choice)
    requires Inv(s) && s.txs != [] && s.pc in {Preparing, Navigating, MarkMoved, Applying, MarkVerified}
    ensures Inv(ActForward(s, c))
  {
    assert Honest(Current(s));
    OneStep(s, ActForward(s, c));
  }

  lemma CursorKeepsInv(s: State, c: Choice)
    requires Inv(s) && s.txs != [] && s.pc in {AppendCursor, MarkCursor, MarkCommitted}
    ensures Inv(ActForward(s, c))
  {
    assert Honest(Current(s));
    OneStep(s, ActForward(s, c));
  }

  lemma CancelKeepsInv(s: State, c: Choice)
    requires Inv(s) && s.txs != [] && s.pc in {CancelAborting, CancelAborted, MarkDiverged, MarkRecovery}
    ensures Inv(ActForward(s, c))
  {
    assert Honest(Current(s));
    OneStep(s, ActForward(s, c));
  }

  lemma CompensateKeepsInv(s: State, c: Choice)
    requires Inv(s) && s.txs != [] && Compensating(s.pc)
    ensures Inv(ActCompensate(s, c))
  {
    assert Honest(Current(s));
    OneStep(s, ActCompensate(s, c));
  }

  lemma DecideKeepsInv(s: State, c: Choice)
    requires Inv(s) && s.txs != [] && s.pc in {RecLoad, RecAssess, RecShortcut, RecInspect}
    ensures Inv(ActRecover(s, c))
  {
    assert Honest(Current(s));
    OneStep(s, ActRecover(s, c));
  }

  lemma RecoverKeepsInv(s: State, c: Choice)
    requires Inv(s) && s.txs != [] && Recovering(s.pc) && s.pc !in {RecLoad, RecAssess, RecShortcut, RecInspect}
    ensures Inv(ActRecover(s, c))
  {
    assert Honest(Current(s));
    OneStep(s, ActRecover(s, c));
  }

  lemma CrashKeepsInv(s: State, c: Choice)
    requires Inv(s)
    ensures Inv(CrashOf(s, c))
  {
    if s.txs != [] {
      assert Honest(Current(s));
      OneStep(s, CrashOf(s, c));
    }
  }

  lemma ActKeepsInv(s: State, c: Choice)
    requires Inv(s) && Enabled(s, Act(c))
    ensures Inv(Apply(s, Act(c)))
  {
    assert s.txs != [];
    hide Inv, ActForward, ActCompensate, ActRecover;
    if s.pc in {RecLoad, RecAssess, RecShortcut, RecInspect} { DecideKeepsInv(s, c); }
    else if Recovering(s.pc) { RecoverKeepsInv(s, c); }
    else if Compensating(s.pc) { CompensateKeepsInv(s, c); }
    else if s.pc in {AppendCursor, MarkCursor, MarkCommitted} { CursorKeepsInv(s, c); }
    else if s.pc in {CancelAborting, CancelAborted, MarkDiverged, MarkRecovery} { CancelKeepsInv(s, c); }
    else { ForwardKeepsInv(s, c); }
  }

  lemma StepKeepsInv(s: State, step: Step)
    requires Inv(s) && Enabled(s, step)
    ensures Inv(Apply(s, step))
  {
    match step
    case Act(c) => ActKeepsInv(s, c);
    case Crash(c) => CrashKeepsInv(s, c);
    case Begin(_, _) =>
    case _ => if s.txs != [] { OneStep(s, Apply(s, step)); }
  }

  // ---- over whole runs ----

  ghost predicate Runs(s: State, steps: seq<Step>, last: State)
    decreases |steps|
  {
    if steps == [] then last == s
    else Enabled(s, steps[0]) && Runs(Apply(s, steps[0]), steps[1..], last)
  }

  const START := State([], 0, false, Idle)

  lemma {:induction false} RunKeepsInv(s: State, steps: seq<Step>, last: State)
    requires Inv(s) && Runs(s, steps, last)
    ensures Inv(last)
    decreases |steps|
  {
    if steps != [] {
      StepKeepsInv(s, steps[0]);
      RunKeepsInv(Apply(s, steps[0]), steps[1..], last);
    }
  }

  /** In every run, a transaction marked COMMITTED has its cursor on disk and one marked ABORTED has none; an operation
      that reports success has moved files and session, one that reports a safe failure has moved neither; and after
      a recovery, unless it took the compensated shortcut, both stand on the side the marker decided. */
  lemma {:induction false} TransactionsAreHonest(steps: seq<Step>, last: State)
    requires Runs(START, steps, last)
    ensures forall i :: 0 <= i < |last.txs| ==>
              && (last.txs[i].phase == Some(COMMITTED) ==> last.txs[i].marker.Match?)
              && (last.txs[i].phase == Some(ABORTED) ==> last.txs[i].marker == NoMarker)
    ensures last.pc == Succeeded && last.txs != [] ==>
              last.leaf == Current(last).to && OnSide(Current(last), TargetSide) && Current(last).marker == Match(true)
    ensures last.pc == FailedSafe && last.txs != [] ==>
              last.leaf == Current(last).from && OnSide(Current(last), RollbackSide) && Current(last).marker == NoMarker
    ensures last.pc.Recovered? && last.txs != [] ==>
              var tx := Current(last);
              if last.pc.forward then last.leaf == tx.to && OnSide(tx, TargetSide) && tx.phase == Some(COMMITTED)
              else last.leaf == tx.from && OnSide(tx, RollbackSide) && tx.phase == Some(ABORTED)
  {
    RunKeepsInv(START, steps, last);
    assert forall i :: 0 <= i < |last.txs| ==> Honest(last.txs[i]);
  }

  /** How far a transaction has come; aborting and waiting for recovery may alternate. */
  function Progress(p: Option<Phase>): nat {
    match p
    case None => 0
    case Some(PREPARED) => 1
    case Some(SESSION_MOVED) => 2
    case Some(APPLYING) => 3
    case Some(FILES_VERIFIED) => 4
    case Some(CURSOR_COMMITTED) => 5
    case Some(ABORTING) => 6
    case Some(RECOVERY_REQUIRED) => 6
    case Some(COMMITTED) => 7
    case Some(ABORTED) => 7
  }

  predicate Advances(before: Option<Phase>, after: Option<Phase>) {
    && Progress(before) <= Progress(after)
    && (before.Some? && Terminal(before.value) ==> after == before)
    && (before == Some(CURSOR_COMMITTED) ==> after in {before, Some(COMMITTED)})
  }

  lemma StepAdvances(s: State, step: Step, i: nat)
    requires Inv(s) && Enabled(s, step) && i < |s.txs|
    ensures i < |Apply(s, step).txs| && Advances(s.txs[i].phase, Apply(s, step).txs[i].phase)
  {
    assert Honest(s.txs[i]);
    hide Fits, Honest, Inv;
    if i == |s.txs| - 1 && step.Act? {
      if Recovering(s.pc) { RecoverAdvances(s, step.choice); }
      else if Compensating(s.pc) { CompensateAdvances(s, step.choice); }
      else { ForwardAdvances(s, step.choice); }
    }
  }

  lemma EarlyAdvances(s: State, c: Choice)
    requires Inv(s) && s.txs != [] && s.pc in {Preparing, Navigating, MarkMoved, Applying, MarkVerified}
    ensures Advances(Current(s).phase, Current(ActForward(s, c)).phase)
  {
  }

  lemma LateAdvances(s: State, c: Choice)
    requires Inv(s) && s.txs != [] && Working(s.pc) && !Recovering(s.pc) && !Compensating(s.pc)
    requires s.pc !in {Preparing, Navigating, MarkMoved, Applying, MarkVerified}
    ensures Advances(Current(s).phase, Current(ActForward(s, c)).phase)
  {
  }

  lemma ForwardAdvances(s: State, c: Choice)
    requires Inv(s) && s.txs != [] && Working(s.pc) && !Recovering(s.pc) && !Compensating(s.pc)
    ensures Advances(Current(s).phase, Current(ActForward(s, c)).phase)
  {
    hide Inv, ActForward, Advances;
    if s.pc in {Preparing, Navigating, MarkMoved, Applying, MarkVerified} {
      EarlyAdvances(s, c);
    } else {
      LateAdvances(s, c);
    }
  }

  lemma CompensateAdvances(s: State, c: Choice)
    requires Inv(s) && s.txs != [] && Compensating(s.pc)
    ensures Advances(Current(s).phase, Current(ActCompensate(s, c)).phase)
  {
    assert Honest(Current(s));
  }

  lemma RecoverAdvances(s: State, c: Choice)
    requires Inv(s) && s.txs != [] && Recovering(s.pc)
    ensures Advances(Current(s).phase, Current(ActRecover(s, c)).phase)
  {
    assert Honest(Current(s));
  }

  /** What the callers do never goes back, though `CanTransition` would let it: terminal phases are final, and a
      transaction whose cursor was marked committed can only become COMMITTED. */
  lemma {:induction false} PhasesNeverGoBack(s: State, steps: seq<Step>, last: State, i: nat)
    requires Inv(s) && Runs(s, steps, last) && i < |s.txs|
    ensures i < |last.txs| && Advances(s.txs[i].phase, last.txs[i].phase)
    decreases |steps|
  {
    if steps != [] {
      StepAdvances(s, steps[0], i);
      StepKeepsInv(s, steps[0]);
      PhasesNeverGoBack(Apply(s, steps[0]), steps[1..], last, i);
    }
  }

  // ---- where undisturbed runs get to ----

  /** One turn after another, for as long as there is something to do. */
  ghost function Play(s: State, choices: seq<Choice>): State
    decreases |choices|
  {
    if choices == [] || !Enabled(s, Act(choices[0])) then s
    else Play(Apply(s, Act(choices[0])), choices[1..])
  }

  lemma {:induction false} PlayIsARun(s: State, choices: seq<Choice>) returns (steps: seq<Step>)
    ensures Runs(s, steps, Play(s, choices))
    decreases |choices|
  {
    steps := [];
    if choices != [] && Enabled(s, Act(choices[0])) {
      var rest := PlayIsARun(Apply(s, Act(choices[0])), choices[1..]);
      steps := [Act(choices[0])] + rest;
      assert steps[1..] == rest;
    }
  }

  lemma {:induction false} PlayOn(s: State, choices: seq<Choice>)
    ensures choices != [] && Working(s.pc) && s.txs != [] ==>
              Play(s, choices) == Play(Apply(s, Act(choices[0])), choices[1..])
    ensures !Working(s.pc) ==> Play(s, choices) == s
  {
    hide Apply;
  }

  /** Enough turns, all of them successful: a move of the session reaches the leaf, and a pass over the files leaves
      no open mutation. */
  ghost predicate SmoothFrom(choices: seq<Choice>, leaf: nat, n: nat) {
    |choices| >= n && forall i :: 0 <= i < |choices| ==>
      choices[i].turn == Fine && choices[i].leaf == leaf && choices[i].clean
  }

  /** Turns left before the operation succeeds. */
  function TurnsLeft(pc: Pc): nat {
    match pc
    case Preparing => 8
    case Navigating => 7
    case MarkMoved => 6
    case Applying => 5
    case MarkVerified => 4
    case AppendCursor => 3
    case MarkCursor => 2
    case MarkCommitted => 1
    case CancelAborting => 2
    case CancelAborted => 1
    case MarkDiverged => 1
    case MarkRecovery => 1
    case CompAborting => 4
    case CompLeaf => 3
    case CompFiles => 2
    case CompAborted => 1
    case CompFailed => 1
    case _ => 0
  }

  predicate Forward(pc: Pc) {
    pc in {Preparing, Navigating, MarkMoved, Applying, MarkVerified, AppendCursor, MarkCursor, MarkCommitted}
  }

  /** The transaction the state is about is the same one. */
  predicate SameTx(a: State, b: State) {
    && a.txs != [] && b.txs != [] && |a.txs| == |b.txs|
    && Current(a).sessionOnly == Current(b).sessionOnly && Current(a).from == Current(b).from
    && Current(a).to == Current(b).to
  }

  /** The phase on disk at each place of the operation. */
  function PhaseAt(pc: Pc): Option<Phase> {
    match pc
    case Navigating => Some(PREPARED)
    case MarkMoved => Some(PREPARED)
    case Applying => Some(APPLYING)
    case MarkVerified => Some(APPLYING)
    case AppendCursor => Some(FILES_VERIFIED)
    case MarkCursor => Some(FILES_VERIFIED)
    case MarkCommitted => Some(CURSOR_COMMITTED)
    case CancelAborting => Some(PREPARED)
    case CancelAborted => Some(ABORTING)
    case MarkDiverged => Some(PREPARED)
    case MarkRecovery => Some(FILES_VERIFIED)
    case CompLeaf => Some(ABORTING)
    case CompFiles => Some(ABORTING)
    case CompAborted => Some(ABORTING)
    case _ => None
  }

  lemma FitsThePhase(s: State)
    requires s.txs != [] && Fits(s) && (Forward(s.pc) || TurnsLeft(s.pc) > 0) && s.pc !in {CompAborting, CompFailed}
    ensures Current(s).phase == PhaseAt(s.pc) && (s.pc == Applying ==> !Current(s).sessionOnly)
    ensures s.pc == CompAborted ==> s.leaf == Current(s).from && OnSide(Current(s), RollbackSide)
    ensures s.pc == CompFiles ==> s.leaf == Current(s).from
  {
  }

  lemma ActsForward(s: State, c: Choice)
    requires s.txs != [] && Working(s.pc) && !Recovering(s.pc) && !Compensating(s.pc)
    ensures Enabled(s, Act(c)) && Apply(s, Act(c)) == ActForward(s, c)
  {
    hide ActForward;
  }

  lemma ActsCompensating(s: State, c: Choice)
    requires s.txs != [] && Compensating(s.pc)
    ensures Enabled(s, Act(c)) && Apply(s, Act(c)) == ActCompensate(s, c)
  {
    hide ActCompensate;
  }

  lemma ActsRecovering(s: State, c: Choice)
    requires s.txs != [] && Recovering(s.pc)
    ensures Enabled(s, Act(c)) && Apply(s, Act(c)) == ActRecover(s, c)
  {
    hide ActRecover;
  }

  /** What one undisturbed turn of the operation does. */
  predicate CarriesOn(s: State, next: State)
    requires s.txs != []
  {
    && SameTx(s, next) && next.locked == s.locked
    && (if s.pc == MarkCommitted then next.pc == Succeeded && Current(next).phase == Some(COMMITTED)
        else Forward(next.pc) && TurnsLeft(next.pc) < TurnsLeft(s.pc))
    && Current(next).clean == (Current(s).clean || s.pc == Applying)
    && (!Current(s).sessionOnly && TurnsLeft(s.pc) > 5 ==> TurnsLeft(next.pc) >= 5)
  }

  lemma EarlyTurnCarriesOn(s: State, c: Choice)
    requires s.txs != [] && s.pc in {Preparing, Navigating, MarkMoved, Applying} && Current(s).phase == PhaseAt(s.pc)
    requires c.turn == Fine && c.leaf == Current(s).to && c.clean
    ensures CarriesOn(s, ActForward(s, c))
  {
  }

  lemma LateTurnCarriesOn(s: State, c: Choice)
    requires s.txs != [] && s.pc in {MarkVerified, AppendCursor, MarkCursor, MarkCommitted}
    requires Current(s).phase == PhaseAt(s.pc) && c.turn == Fine && (s.pc == MarkCommitted ==> Current(s).clean)
    ensures CarriesOn(s, ActForward(s, c))
  {
  }

  lemma ForwardGoesOn(s: State, c: Choice)
    requires s.txs != [] && Forward(s.pc) && Current(s).phase == PhaseAt(s.pc)
    requires c.turn == Fine && c.leaf == Current(s).to && c.clean && (s.pc == MarkCommitted ==> Current(s).clean)
    ensures CarriesOn(s, ActForward(s, c))
  {
    hide ActForward, CarriesOn, PhaseAt;
    if s.pc in {Preparing, Navigating, MarkMoved, Applying} {
      EarlyTurnCarriesOn(s, c);
    } else {
      LateTurnCarriesOn(s, c);
    }
  }

  /** An operation that nothing disturbs succeeds, from wherever it is. */
  lemma {:induction false} SmoothForward(s: State, choices: seq<Choice>)
    requires Inv(s) && s.txs != [] && Forward(s.pc) && SmoothFrom(choices, Current(s).to, TurnsLeft(s.pc))
    ensures var last := Play(s, choices);
            && SameTx(s, last)
            && if Current(s).clean || (TurnsLeft(s.pc) >= 5 && !Current(s).sessionOnly) then
                 last.pc == Succeeded && Current(last).phase == Some(COMMITTED) && last.locked == s.locked
               else last.pc == Locked
    decreases TurnsLeft(s.pc)
  {
    hide Apply, ActForward, Inv, Fits, PhaseAt;
    var c := choices[0];
    ActsForward(s, c);
    ActKeepsInv(s, c);
    var next := Apply(s, Act(c));
    PlayOn(s, choices);
    PlayOn(next, choices[1..]);
    if s.pc == MarkCommitted && !Current(s).clean {
      CommitNeedsCleanFiles(s, c);
    } else {
      InvFits(s);
      FitsThePhase(s);
      ActsForward(s, c);
      ForwardGoesOn(s, c);
      if Forward(next.pc) { SmoothForward(next, choices[1..]); }
    }
  }

  lemma InvFits(s: State)
    requires Inv(s) && s.txs != []
    ensures Fits(s)
  {
  }

  lemma CommitNeedsCleanFiles(s: State, c: Choice)
    requires s.txs != [] && s.pc == MarkCommitted && !Current(s).clean
    ensures Apply(s, Act(c)).pc == Locked && SameTx(s, Apply(s, Act(c)))
  {
  }

  predicate CanAbort(tx: Tx) {
    tx.phase.Some? && CanTransition(tx.phase.value, ABORTING)
  }

  /** A compensation that nothing disturbs puts session and files back and reports a safe failure. */
  lemma {:induction false} SmoothCompensation(s: State, choices: seq<Choice>, leaf: nat)
    requires Inv(s) && s.txs != [] && s.pc in {CompAborting, CompLeaf, CompFiles, CompAborted}
    requires SmoothFrom(choices, leaf, TurnsLeft(s.pc)) && (s.pc == CompAborting ==> CanAbort(Current(s)))
    ensures var last := Play(s, choices);
            && SameTx(s, last) && last.pc == FailedSafe && Current(last).phase == Some(ABORTED)
            && last.leaf == Current(s).from && OnSide(Current(last), RollbackSide) && last.locked == s.locked
    decreases TurnsLeft(s.pc)
  {
    hide Apply, ActCompensate, Inv, Fits, PhaseAt, CanAbort;
    var c := choices[0];
    ActsCompensating(s, c);
    ActKeepsInv(s, c);
    InvFits(s);
    if s.pc != CompAborting { FitsThePhase(s); }
    CompensationGoesOn(s, c);
    var next := Apply(s, Act(c));
    PlayOn(s, choices);
    PlayOn(next, choices[1..]);
    if s.pc != CompAborted { SmoothCompensation(next, choices[1..], leaf); }
  }

  lemma CompensationGoesOn(s: State, c: Choice)
    requires s.txs != [] && s.pc in {CompAborting, CompLeaf, CompFiles, CompAborted} && c.turn == Fine
    requires if s.pc == CompAborting then CanAbort(Current(s)) else Current(s).phase == PhaseAt(s.pc)
    requires s.pc == CompAborted ==> s.leaf == Current(s).from && OnSide(Current(s), RollbackSide)
    ensures var next := ActCompensate(s, c);
            && SameTx(s, next) && next.locked == s.locked
            && if s.pc == CompAborted then
                 && next.pc == FailedSafe && Current(next).phase == Some(ABORTED)
                 && next.leaf == Current(s).from && OnSide(Current(next), RollbackSide)
               else next.pc in {CompLeaf, CompFiles, CompAborted} && TurnsLeft(next.pc) < TurnsLeft(s.pc)
  {
  }

  /** What the journal says in the end of a compensation that failed: that a recovery is required, unless the journal
      was never prepared, or ABORTED is on disk although its write raised. */
  function PhaseAfterFailure(s: State, c: Choice): Option<Phase>
    requires s.txs != []
  {
    if Current(s).phase.None? || Terminal(Current(s).phase.value) then Current(s).phase
    else if s.pc == CompAborted && c.turn.Raise? && c.turn.landed then Some(ABORTED)
    else Some(RECOVERY_REQUIRED)
  }

  /** What a last, undisturbed write makes of the phase. */
  function PhaseOnceFailed(tx: Tx): Option<Phase> {
    if tx.phase.None? || Terminal(tx.phase.value) then tx.phase else Some(RECOVERY_REQUIRED)
  }

  lemma CompensationFails(s: State, c: Choice)
    requires s.txs != [] && s.pc in {CompAborting, CompLeaf, CompFiles, CompAborted}
    requires c.turn != Fine || (s.pc == CompAborting && !CanAbort(Current(s)))
    requires s.pc != CompAborting ==> Current(s).phase == PhaseAt(s.pc)
    ensures SameTx(s, ActCompensate(s, c)) && ActCompensate(s, c).pc == CompFailed
    ensures PhaseOnceFailed(Current(ActCompensate(s, c))) == PhaseAfterFailure(s, c)
  {
  }

  lemma FailedCompensationLocks(s: State, c: Choice)
    requires s.txs != [] && s.pc == CompFailed
    ensures var next := ActCompensate(s, c); SameTx(s, next) && next.pc == Locked && next.locked
    ensures c.turn == Fine ==> Current(ActCompensate(s, c)).phase == PhaseOnceFailed(Current(s))
  {
  }

  /** A compensation that fails at any point locks the history, and says so on disk. */
  lemma {:induction false} DisturbedCompensationLocks(s: State, c: Choice, choices: seq<Choice>, leaf: nat)
    requires Inv(s) && s.txs != [] && s.pc in {CompAborting, CompLeaf, CompFiles, CompAborted}
    requires c.turn != Fine || (s.pc == CompAborting && !CanAbort(Current(s)))
    requires SmoothFrom(choices, leaf, 1)
    ensures var last := Play(s, [c] + choices);
            SameTx(s, last) && last.pc == Locked && last.locked && Current(last).phase == PhaseAfterFailure(s, c)
  {
    hide Apply, ActCompensate, Inv, Fits, CanAbort, PhaseAt, PhaseAfterFailure, PhaseOnceFailed;
    InvFits(s);
    if s.pc != CompAborting { FitsThePhase(s); }
    assert ([c] + choices)[1..] == choices;
    ActsCompensating(s, c);
    CompensationFails(s, c);
    var next := Apply(s, Act(c));
    ActsCompensating(next, choices[0]);
    FailedCompensationLocks(next, choices[0]);
    var after := Apply(next, Act(choices[0]));
    PlayOn(s, [c] + choices);
    PlayOn(next, choices);
    PlayOn(after, choices[1..]);
  }

  /** The turn lets the operation go on undisturbed. */
  predicate GoesOn(s: State, c: Choice)
    requires s.txs != []
  {
    && c.turn == Fine
    && (s.pc == Navigating ==> c.leaf == Current(s).to)
    && (s.pc == Applying ==> c.clean)
  }

  /** The turn is one the operation can be taken back from: the user cancels the move of the session, the restore says
      no, the session has no file for the cursor, or a cancellation or timeout comes while the journal is prepared and
      the cursor is not on disk. */
  predicate FailsSafely(s: State, c: Choice) {
    || (c.turn == No && (s.pc == Navigating || s.pc == Applying || (s.pc == AppendCursor && c.volatile)))
    || (c.turn.Raise? && c.turn.cancel && !(s.pc in {MarkCursor, MarkCommitted})
        && (s.pc == Preparing ==> c.turn.landed))
  }

  /** The session ended up at another leaf than the operation's, or its file does not show whether the cursor is
      there. */
  predicate Diverges(s: State, c: Choice)
    requires s.txs != []
  {
    || (s.pc == Navigating && c.turn == Fine && c.leaf != Current(s).to)
    || (s.pc == AppendCursor && c.turn == No && !c.volatile)
  }

  /** An operation disturbed in one turn, wherever it is, with all later turns undisturbed: it succeeds if the turn
      was none to stop it, it fails safely if it can be taken back, and otherwise the history is locked until a
      recovery. */
  lemma {:induction false} OneDisturbance(s: State, c: Choice, choices: seq<Choice>)
    requires Inv(s) && s.txs != [] && Forward(s.pc) && Current(s).clean && SmoothFrom(choices, Current(s).to, 10)
    ensures var last := Play(s, [c] + choices);
            && SameTx(s, last)
            && last.pc == (if GoesOn(s, c) then Succeeded else if FailsSafely(s, c) then FailedSafe else Locked)
            && (last.pc == Succeeded ==> Current(last).phase == Some(COMMITTED))
            && (last.pc == FailedSafe ==> Current(last).phase == Some(ABORTED))
            && (Diverges(s, c) ==> Current(last).phase == Some(RECOVERY_REQUIRED) && last.locked)
  {
    hide Apply, ActForward, Inv, Fits, Diverges, GoesOn, FailsSafely, CanAbort, PhaseAt;
    assert ([c] + choices)[1..] == choices;
    InvFits(s);
    FitsThePhase(s);
    ActsForward(s, c);
    ActKeepsInv(s, c);
    OneTurnLeads(s, c);
    var next := Apply(s, Act(c));
    PlayOn(s, [c] + choices);
    if Forward(next.pc) {
      SmoothForward(next, choices);
    } else if next.pc == CompAborting {
      if CanAbort(Current(next)) {
        SmoothCompensation(next, choices, Current(s).to);
      } else {
        assert [choices[0]] + choices[1..] == choices;
        DisturbedCompensationLocks(next, choices[0], choices[1..], Current(s).to);
      }
    } else if next.pc == CancelAborting {
      CancelEnds(next, choices);
    } else {
      LockingEnds(next, choices);
    }
  }

  /** Where one turn leads. */
  predicate Leads(s: State, c: Choice, next: State)
    requires s.txs != []
  {
    && SameTx(s, next)
    && (if GoesOn(s, c) then
          && (next.pc == Succeeded || (Forward(next.pc) && Current(next).clean))
          && (next.pc == Succeeded ==> Current(next).phase == Some(COMMITTED))
        else if FailsSafely(s, c) then
          next.pc == CancelAborting || (next.pc == CompAborting && CanAbort(Current(next)))
        else
          || next.pc in {Locked, MarkDiverged, MarkRecovery} || (next.pc == CompAborting && !CanAbort(Current(next)))
          || (Forward(next.pc) && !Current(next).clean && TurnsLeft(next.pc) < 5))
    && (Diverges(s, c) ==>
        next.pc in {MarkDiverged, MarkRecovery} && next.locked && !GoesOn(s, c) && !FailsSafely(s, c))
  }

  lemma FirstTurnsLead(s: State, c: Choice)
    requires s.txs != [] && s.pc in {Preparing, Navigating} && Current(s).clean && Current(s).phase == PhaseAt(s.pc)
    ensures Leads(s, c, ActForward(s, c))
  {
  }

  lemma MiddleTurnsLead(s: State, c: Choice)
    requires s.txs != [] && s.pc in {MarkMoved, Applying} && Current(s).clean && Current(s).phase == PhaseAt(s.pc)
    ensures Leads(s, c, ActForward(s, c))
  {
  }

  lemma LaterTurnsLead(s: State, c: Choice)
    requires s.txs != [] && s.pc in {MarkVerified, AppendCursor} && Current(s).clean
             && Current(s).phase == PhaseAt(s.pc)
    ensures Leads(s, c, ActForward(s, c))
  {
  }

  lemma LastTurnsLead(s: State, c: Choice)
    requires s.txs != [] && s.pc in {MarkCursor, MarkCommitted} && Current(s).clean && Current(s).phase == PhaseAt(s.pc)
    ensures Leads(s, c, ActForward(s, c))
  {
  }

  lemma OneTurnLeads(s: State, c: Choice)
    requires s.txs != [] && Forward(s.pc) && Current(s).clean && Current(s).phase == PhaseAt(s.pc)
    ensures Leads(s, c, ActForward(s, c))
  {
    hide ActForward, Leads, PhaseAt;
    if s.pc in {Preparing, Navigating} { FirstTurnsLead(s, c); }
    else if s.pc in {MarkMoved, Applying} { MiddleTurnsLead(s, c); }
    else if s.pc in {MarkVerified, AppendCursor} { LaterTurnsLead(s, c); }
    else { LastTurnsLead(s, c); }
  }

  lemma {:induction false} CancelEnds(s: State, choices: seq<Choice>)
    requires Inv(s) && s.txs != [] && |choices| >= 2 && choices[0].turn == choices[1].turn == Fine
             && s.pc == CancelAborting
    ensures var last := Play(s, choices);
            && SameTx(s, last) && last.pc == FailedSafe && Current(last) == Current(s).(phase := Some(ABORTED))
            && last.leaf == s.leaf && last.locked == s.locked
  {
    hide Apply, Inv, Fits;
    InvFits(s);
    FitsThePhase(s);
    assert choices[1..][0] == choices[1];
    ActsForward(s, choices[0]);
    var next := Apply(s, Act(choices[0]));
    ActsForward(next, choices[1]);
    var after := Apply(next, Act(choices[1]));
    PlayOn(s, choices);
    PlayOn(next, choices[1..]);
    PlayOn(after, choices[1..][1..]);
  }

  lemma {:induction false} LockingEnds(s: State, choices: seq<Choice>)
    requires Inv(s) && s.txs != [] && |choices| >= 1 && choices[0].turn == Fine
    requires s.pc in {MarkDiverged, MarkRecovery, Locked, Succeeded}
    ensures var last := Play(s, choices);
            && SameTx(s, last) && last.pc == (if s.pc == Succeeded then Succeeded else Locked)
            && (s.pc in {MarkDiverged, MarkRecovery} ==> Current(last).phase == Some(RECOVERY_REQUIRED))
            && (s.pc in {Locked, Succeeded} ==> last == s) && (s.locked ==> last.locked)
  {
    hide Apply, Inv, Fits;
    PlayOn(s, choices);
    if Working(s.pc) {
      InvFits(s);
      FitsThePhase(s);
      ActsForward(s, choices[0]);
      PlayOn(Apply(s, Act(choices[0])), choices[1..]);
    }
  }

  /** A user who declines the move of the session stays where he is: two writes of the journal, and nothing else
      happens. */
  lemma {:induction false} DeclinedMoveChangesNothing(s: State, c: Choice, choices: seq<Choice>)
    requires Inv(s) && s.txs != [] && s.pc == Navigating && c.turn == No
    requires |choices| == 2 && choices[0].turn == choices[1].turn == Fine
    ensures var last := Play(s, [c] + choices);
            && SameTx(s, last) && last.pc == FailedSafe && Current(last) == Current(s).(phase := Some(ABORTED))
            && last.leaf == s.leaf && last.locked == s.locked
  {
    hide Apply, Inv, Fits;
    assert ([c] + choices)[1..] == choices;
    InvFits(s);
    FitsThePhase(s);
    ActsForward(s, c);
    ActKeepsInv(s, c);
    PlayOn(s, [c] + choices);
    CancelEnds(Apply(s, Act(c)), choices);
  }

  /** From the outside: an operation begun and left alone succeeds, and the next one can begin. */
  lemma {:induction false} UndisturbedOperationSucceeds(s: State, sessionOnly: bool, to: nat, choices: seq<Choice>)
    requires Inv(s) && s.pc == Idle && !s.locked && SmoothFrom(choices, to, 8)
    ensures var last := Play(Apply(s, Begin(sessionOnly, to)), choices);
            && last.pc == Succeeded && |last.txs| == |s.txs| + 1
            && Current(last).phase == Some(COMMITTED) && Current(last).marker == Match(true)
            && last.leaf == to && OnSide(Current(last), TargetSide)
            && Apply(last, Rest).pc == Idle && !Apply(last, Rest).locked
  {
    StepKeepsInv(s, Begin(sessionOnly, to));
    var first := Apply(s, Begin(sessionOnly, to));
    SmoothForward(first, choices);
    var steps := PlayIsARun(first, choices);
    RunKeepsInv(first, steps, Play(first, choices));
  }

  // ---- where recovery gets to ----

  function RecoveryLeft(pc: Pc): nat {
    match pc
    case RecInspect => 6
    case RecLeaf(_) => 5
    case RecMutations(_) => 4
    case RecFiles(_) => 3
    case RecFinalize(_) => 2
    case RecSettle(_) => 1
    case _ => 0
  }

  predicate Decided(s: State)
    requires s.txs != []
  {
    match s.pc
    case RecInspect => true
    case RecLeaf(forward) => forward == Current(s).marker.Match?
    case RecMutations(forward) => forward == Current(s).marker.Match?
    case RecFiles(forward) => forward == Current(s).marker.Match?
    case RecFinalize(forward) => forward == Current(s).marker.Match? && Current(s).clean
    case RecSettle(forward) => forward == Current(s).marker.Match? && Current(s).clean
    case _ => false
  }

  /** The leaf at which the marker wants to find the session. */
  function ExpectedLeaf(tx: Tx): nat {
    if tx.marker.Match? then tx.to else tx.from
  }

  /** A recovery that nothing disturbs ends on the side the marker decides if it finds the session there, and locks
      otherwise, as it does over a conflicting marker. */
  lemma {:induction false} SmoothRecovery(s: State, choices: seq<Choice>, leaf: nat)
    requires Inv(s) && s.txs != [] && Pending(Current(s)) && Decided(s)
    requires SmoothFrom(choices, leaf, RecoveryLeft(s.pc))
    ensures var tx, last := Current(s), Play(s, choices);
            && SameTx(s, last) && last.leaf == s.leaf
            && if tx.marker != Conflicting && s.leaf == ExpectedLeaf(tx) then
                 && last.pc == Recovered(tx.marker.Match?)
                 && Current(last).phase == Some(if tx.marker.Match? then COMMITTED else ABORTED)
                 && OnSide(Current(last), if tx.marker.Match? then TargetSide else RollbackSide)
               else last.pc == Locked
    decreases RecoveryLeft(s.pc)
  {
    hide Apply, ActRecover, Inv, Fits, Decided, Pending;
    DecidedIsRecovering(s);
    var c := choices[0];
    ActsRecovering(s, c);
    ActKeepsInv(s, c);
    InvFits(s);
    var next := Apply(s, Act(c));
    RecoveryGoesOn(s, c);
    PlayOn(s, choices);
    PlayOn(next, choices[1..]);
    if next.pc != Locked && !next.pc.Recovered? { SmoothRecovery(next, choices[1..], leaf); }
  }

  lemma DecidedIsRecovering(s: State)
    requires s.txs != [] && Decided(s)
    ensures Recovering(s.pc) && RecoveryLeft(s.pc) > 0
  {
  }

  /** What one undisturbed turn of a recovery does. */
  predicate RecoversOn(s: State, next: State)
    requires s.txs != []
  {
    var tx := Current(s);
    && SameTx(s, next) && next.leaf == s.leaf && Current(next).marker.Match? == tx.marker.Match?
    && (Current(next).marker == Conflicting <==> tx.marker == Conflicting)
    && (next.pc == Locked ==> tx.marker == Conflicting || s.leaf != ExpectedLeaf(tx))
    && (next.pc.Recovered? ==>
          && tx.marker != Conflicting && s.leaf == ExpectedLeaf(tx) && next.pc == Recovered(tx.marker.Match?)
          && Current(next).phase == Some(if tx.marker.Match? then COMMITTED else ABORTED)
          && OnSide(Current(next), if tx.marker.Match? then TargetSide else RollbackSide))
    && (next.pc != Locked && !next.pc.Recovered? ==>
          Pending(Current(next)) && Decided(next) && RecoveryLeft(next.pc) < RecoveryLeft(s.pc))
  }

  lemma InspectionGoesOn(s: State, c: Choice)
    requires s.txs != [] && Fits(s) && Pending(Current(s)) && Decided(s) && c.turn == Fine && c.clean
    requires s.pc == RecInspect || s.pc.RecLeaf? || s.pc.RecMutations?
    ensures RecoversOn(s, ActRecover(s, c))
  {
  }

  lemma SettlementGoesOn(s: State, c: Choice)
    requires s.txs != [] && Fits(s) && Pending(Current(s)) && Decided(s) && c.turn == Fine && c.clean
    requires s.pc.RecFiles? || s.pc.RecFinalize? || s.pc.RecSettle?
    ensures RecoversOn(s, ActRecover(s, c))
  {
  }

  lemma RecoveryGoesOn(s: State, c: Choice)
    requires s.txs != [] && Fits(s) && Pending(Current(s)) && Decided(s) && c.turn == Fine && c.clean
    ensures RecoversOn(s, ActRecover(s, c))
  {
    DecidedIsRecovering(s);
    hide ActRecover, Fits, Decided, RecoversOn, Pending;
    if s.pc == RecInspect || s.pc.RecLeaf? || s.pc.RecMutations? {
      InspectionGoesOn(s, c);
    } else {
      SettlementGoesOn(s, c);
    }
  }

  /** How a recovery ends: settled as it is, on the side the marker decides, or locked. */
  predicate RecoveryEnd(s: State, compensated: bool, last: State)
    requires s.txs != []
  {
    var tx := Current(s);
    && SameTx(s, last) && last.leaf == s.leaf
    && if compensated && tx.marker == NoMarker && tx.clean then
         last.pc == Skipped && Current(last).phase == Some(ABORTED)
       else if tx.marker != Conflicting && s.leaf == ExpectedLeaf(tx) then
         && last.pc == Recovered(tx.marker.Match?)
         && Current(last).phase == Some(if tx.marker.Match? then COMMITTED else ABORTED)
         && OnSide(Current(last), if tx.marker.Match? then TargetSide else RollbackSide)
       else last.pc == Locked
  }

  /** From any crash: the recovery of a pending transaction, whatever the assessment of its log says. A transaction
      assessed as compensated, with no marker and no open mutation, is settled as it is; all others end where the marker
      says, if the session is there. */
  lemma {:induction false} RecoveryDecides(s: State, assessment: Choice, choices: seq<Choice>, leaf: nat)
    requires Inv(s) && s.txs != [] && s.pc == RecLoad && Pending(Current(s)) && SmoothFrom(choices, leaf, 9)
    ensures RecoveryEnd(s, assessment.turn == Fine, Play(s, [choices[0], assessment] + choices[1..]))
  {
    hide Apply, Inv, Fits, RecoveryEnd;
    var all := [choices[0], assessment] + choices[1..];
    var later := choices[1..];
    assert all[1..][0] == assessment && all[1..][1..] == later;
    ActsRecovering(s, all[0]);
    Assessed(s, all[0], assessment);
    var loaded := Apply(s, Act(all[0]));
    var assessed := Apply(loaded, Act(assessment));
    ActKeepsInv(s, all[0]);
    ActKeepsInv(loaded, assessment);
    PlayOn(s, all);
    PlayOn(loaded, all[1..]);
    if assessment.turn == Fine {
      ShortcutEnds(s, assessed, later, leaf);
    } else {
      InspectionEnds(s, assessed, false, later, leaf);
    }
  }

  lemma {:induction false} InspectionEnds(s: State, assessed: State, compensated: bool, choices: seq<Choice>, leaf: nat)
    requires s.txs != [] && Pending(Current(s)) && assessed == s.(pc := RecInspect) && Inv(assessed)
    requires SmoothFrom(choices, leaf, 6) && !(compensated && Current(s).marker == NoMarker && Current(s).clean)
    ensures RecoveryEnd(s, compensated, Play(assessed, choices))
  {
    hide Inv, Play;
    SmoothRecovery(assessed, choices, leaf);
  }

  lemma {:induction false} ShortcutEnds(s: State, assessed: State, choices: seq<Choice>, leaf: nat)
    requires s.txs != [] && Pending(Current(s)) && assessed == s.(pc := RecShortcut) && Inv(assessed)
    requires SmoothFrom(choices, leaf, 7)
    ensures RecoveryEnd(s, true, Play(assessed, choices))
  {
    hide Apply, Inv, Fits, Play;
    ActsRecovering(assessed, choices[0]);
    Shortcut(assessed, choices[0]);
    var settled := Apply(assessed, Act(choices[0]));
    PlayOn(assessed, choices);
    PlayOn(settled, choices[1..]);
    ActKeepsInv(assessed, choices[0]);
    if settled.pc == RecInspect { InspectionEnds(s, settled, true, choices[1..], leaf); }
  }

  lemma Assessed(s: State, c: Choice, assessment: Choice)
    requires s.txs != [] && s.pc == RecLoad && Pending(Current(s)) && c.turn == Fine
    ensures var loaded := Apply(s, Act(c));
            && loaded == s.(pc := RecAssess) && Enabled(loaded, Act(assessment))
            && Apply(loaded, Act(assessment)) == s.(pc := if assessment.turn == Fine then RecShortcut else RecInspect)
  {
    assert s.txs[|s.txs| - 1 := Current(s)] == s.txs;
  }

  lemma Shortcut(s: State, c: Choice)
    requires s.txs != [] && s.pc == RecShortcut && Pending(Current(s)) && c.turn == Fine
    ensures var tx, next := Current(s), Apply(s, Act(c));
            if tx.marker == NoMarker && tx.clean then
              && SameTx(s, next) && next.leaf == s.leaf && next.pc == Skipped && Current(next).phase == Some(ABORTED)
            else next == s.(pc := RecInspect)
  {
    assert s.txs[|s.txs| - 1 := Current(s)] == s.txs;
  }
}
