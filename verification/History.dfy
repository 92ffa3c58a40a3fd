/** The undo and redo stacks, the cursors that outlive the process, and the workspace both stand for. */
module History {
  import opened Wrappers
  import opened Trees
  import opened RestorePlan
  import opened ScopedRestore
  import opened RestoreOutcome

  datatype Checkpoint = Checkpoint(id: string, before: Tree, after: Tree, changedPaths: set<Path>)

  /** What a redo returns to: the safety snapshot taken just before the undo. */
  datatype RedoEntry = RedoEntry(checkpoint: Checkpoint, target: Tree)

  datatype Action = UndoAction | RedoAction | TreeAction

  datatype Cursor = Cursor(action: Action, undoHead: Option<string>, redoStack: seq<string>, rollback: Tree)

  /** The controller's memory, the workspace, and what the session file keeps: checkpoints and cursors. */
  datatype Hist = Hist(
    workspace: Tree, undoStack: seq<Checkpoint>, redoStack: seq<RedoEntry>,
    checkpoints: seq<Checkpoint>, cursors: seq<Cursor>)

  /** The restore engine: the plan of two manifests within a scope, and whether the workspace still shows a manifest at
      the paths of a scope. */
  datatype Engine = Engine(plan: (Tree, Tree, set<Path>) -> Plan, reuses: (Tree, Tree, set<Path>) -> bool) {
    ghost predicate Faithful() {
      && (forall current, target, scope :: IsScopedPlan(plan(current, target, scope), current, target, Some(scope)))
      && (forall live, manifest, scope :: reuses(live, manifest, scope) ==> AgreeOn(manifest, live, scope))
    }

    function Restore(live: Tree, source: Tree, target: Tree, scope: set<Path>): Result<Tree> {
      RunPlan(live, source, target, plan(source, target, scope))
    }
  }

  function Ids(entries: seq<RedoEntry>): (ids: seq<string>)
    ensures |ids| == |entries| && forall i :: 0 <= i < |entries| ==> ids[i] == entries[i].checkpoint.id
  {
    seq(|entries|, i requires 0 <= i < |entries| => entries[i].checkpoint.id)
  }

  function Head(undoStack: seq<Checkpoint>): Option<string> {
    if undoStack == [] then None else Some(undoStack[|undoStack| - 1].id)
  }

  /** The snapshot a transaction would roll back to: the checkpoint's own on the near side, when it changes no path or
      the workspace still shows it at its paths, or else a capture limited to its paths. */
  function Safety(engine: Engine, live: Tree, c: Checkpoint, undo: bool): Tree {
    var reference := if undo then c.after else c.before;
    if c.changedPaths == {} || engine.reuses(live, reference, c.changedPaths) then reference
    else Captured(live, c.changedPaths)
  }

  function Undone(engine: Engine, h: Hist): Result<Hist>
    requires h.undoStack != []
  {
    var c, rest := h.undoStack[|h.undoStack| - 1], h.undoStack[..|h.undoStack| - 1];
    var safety := Safety(engine, h.workspace, c, true);
    match engine.Restore(h.workspace, safety, c.before, c.changedPaths)
    case Failed => Failed
    case Ok(there) =>
      Ok(Hist(there, rest, h.redoStack + [RedoEntry(c, safety)], h.checkpoints,
              h.cursors + [Cursor(UndoAction, Head(rest), Ids(h.redoStack) + [c.id], safety)]))
  }

  function Redone(engine: Engine, h: Hist): Result<Hist>
    requires h.redoStack != []
  {
    var e, rest := h.redoStack[|h.redoStack| - 1], h.redoStack[..|h.redoStack| - 1];
    var safety := Safety(engine, h.workspace, e.checkpoint, false);
    match engine.Restore(h.workspace, safety, e.target, e.checkpoint.changedPaths)
    case Failed => Failed
    case Ok(there) =>
      Ok(Hist(there, h.undoStack + [e.checkpoint], rest, h.checkpoints,
              h.cursors + [Cursor(RedoAction, Some(e.checkpoint.id), Ids(rest), safety)]))
  }

  // ---- what an operation does ----

  /** Every tree of the history is one that a workspace can be in. */
  ghost predicate Sane(h: Hist) {
    && WellFormed(h.workspace)
    && (forall c :: c in h.undoStack ==> WellFormed(c.before) && WellFormed(c.after))
    && (forall e :: e in h.redoStack ==>
        WellFormed(e.checkpoint.before) && WellFormed(e.checkpoint.after) && WellFormed(e.target))
  }

  lemma SafetyFits(engine: Engine, live: Tree, c: Checkpoint, undo: bool)
    requires engine.Faithful() && WellFormed(live) && WellFormed(c.before) && WellFormed(c.after)
    ensures WellFormed(Safety(engine, live, c, undo)) && AgreeOn(Safety(engine, live, c, undo), live, c.changedPaths)
  {
    CapturedFits(live, c.changedPaths);
  }

  /** An operation goes through exactly when the old entries, what the workspace holds elsewhere, and the directories
      that are not empty without them make up one tree. That tree is then the workspace, the checkpoint has moved from
      one stack to the other, and the new cursor holds both stacks and a snapshot of what was there before. */
  ghost predicate Performed(before: Hist, after: Hist, undo: bool, done: bool) {
    if (if undo then before.undoStack == [] else before.redoStack == []) then !done && after == before
    else
      var c := if undo then before.undoStack[|before.undoStack| - 1]
               else before.redoStack[|before.redoStack| - 1].checkpoint;
      var target := if undo then c.before else before.redoStack[|before.redoStack| - 1].target;
      var there := Achieved(before.workspace, target, c.changedPaths);
      && (done <==> WellFormed(there))
      && if !done then after == before
         else
           && after.workspace == there && after.checkpoints == before.checkpoints
           && |after.cursors| == |before.cursors| + 1 && after.cursors[..|before.cursors|] == before.cursors
           && var cursor := after.cursors[|before.cursors|];
              && AgreeOn(cursor.rollback, before.workspace, c.changedPaths)
              && cursor.action == (if undo then UndoAction else RedoAction)
              && cursor.redoStack == Ids(after.redoStack) && cursor.undoHead == Head(after.undoStack)
              && if undo then
                   && after.undoStack + [c] == before.undoStack
                   && after.redoStack == before.redoStack + [RedoEntry(c, cursor.rollback)]
                 else
                   && after.redoStack + [before.redoStack[|before.redoStack| - 1]] == before.redoStack
                   && after.undoStack == before.undoStack + [c]
  }

  lemma NothingPerformed(h: Hist, undo: bool)
    requires if undo then h.undoStack == [] else h.redoStack == []
    ensures Performed(h, h, undo, false)
  {
  }

  lemma UndonePerforms(engine: Engine, h: Hist)
    requires engine.Faithful() && Sane(h) && h.undoStack != []
    ensures Performed(h, if Undone(engine, h).Ok? then Undone(engine, h).value else h, true, Undone(engine, h).Ok?)
  {
    var c, rest := h.undoStack[|h.undoStack| - 1], h.undoStack[..|h.undoStack| - 1];
    assert c in h.undoStack && rest + [c] == h.undoStack;
    var safety := Safety(engine, h.workspace, c, true);
    SafetyFits(engine, h.workspace, c, true);
    GoesThroughIffATree(h.workspace, safety, c.before, c.changedPaths, engine.plan(safety, c.before, c.changedPaths));
    hide Achieved, RunPlan, Safety, AgreeOn, WellFormed;
    assert Ids(h.redoStack + [RedoEntry(c, safety)]) == Ids(h.redoStack) + [c.id];
  }

  lemma RedonePerforms(engine: Engine, h: Hist)
    requires engine.Faithful() && Sane(h) && h.redoStack != []
    ensures Performed(h, if Redone(engine, h).Ok? then Redone(engine, h).value else h, false, Redone(engine, h).Ok?)
  {
    var e, rest := h.redoStack[|h.redoStack| - 1], h.redoStack[..|h.redoStack| - 1];
    var c := e.checkpoint;
    assert e in h.redoStack && rest + [e] == h.redoStack;
    var safety := Safety(engine, h.workspace, c, false);
    SafetyFits(engine, h.workspace, c, false);
    GoesThroughIffATree(h.workspace, safety, e.target, c.changedPaths, engine.plan(safety, e.target, c.changedPaths));
    hide Achieved, RunPlan, Safety, AgreeOn, WellFormed;
  }

  /** After an operation that went through, every changed path holds the old entry, or a directory that the old tree
      does not list and that still has something of the workspace's own in it; all other paths are as they were. */
  lemma PerformedAtEveryPath(before: Hist, after: Hist, undo: bool, p: Path)
    requires Performed(before, after, undo, true) && WellFormed(before.workspace)
    requires if undo then before.undoStack != [] && WellFormed(before.undoStack[|before.undoStack| - 1].before)
             else before.redoStack != [] && WellFormed(before.redoStack[|before.redoStack| - 1].target)
    ensures var c := if undo then before.undoStack[|before.undoStack| - 1]
                     else before.redoStack[|before.redoStack| - 1].checkpoint;
            var target := if undo then c.before else before.redoStack[|before.redoStack| - 1].target;
            && (p !in c.changedPaths ==> AgreeAt(after.workspace, before.workspace, p))
            && (p in c.changedPaths ==>
                  || AgreeAt(after.workspace, target, p)
                  || (p !in target && Holds(after.workspace, p, Directory) && Holds(before.workspace, p, Directory)
                      && exists q :: q in before.workspace && q !in c.changedPaths && p < q))
  {
    var c := if undo then before.undoStack[|before.undoStack| - 1]
             else before.redoStack[|before.redoStack| - 1].checkpoint;
    var target := if undo then c.before else before.redoStack[|before.redoStack| - 1].target;
    AchievedFuses(before.workspace, target, c.changedPaths);
    if p in c.changedPaths {
      if p in Staying(before.workspace, target, c.changedPaths) {
        var q := StaysForAnother(before.workspace, target, c.changedPaths, p);
      } else {
        NotStaying(before.workspace, target, c.changedPaths, p);
      }
    }
  }

  /** The controller's fields, with the workspace and the session file it works on. */
  class Controller {
    const engine: Engine
    var workspace: Tree
    var undoStack: seq<Checkpoint>
    var redoStack: seq<RedoEntry>
    var checkpoints: seq<Checkpoint>
    var cursors: seq<Cursor>

    function State(): Hist
      reads this
    {
      Hist(workspace, undoStack, redoStack, checkpoints, cursors)
    }

    constructor (engine: Engine, h: Hist)
      ensures State() == h && this.engine == engine
    {
      this.engine := engine;
      workspace, undoStack, redoStack, checkpoints, cursors := h.workspace, h.undoStack, h.redoStack, h.checkpoints,
                                                               h.cursors;
    }

    /** `createCursor`, from the stacks as they are before the operation. */
    function CreateCursor(undo: bool, checkpoint: Checkpoint, rollback: Tree): Cursor
      reads this
    {
      var redoIds := if undo then Ids(redoStack) + [checkpoint.id]
                     else if redoStack == [] then [] else Ids(redoStack[..|redoStack| - 1]);
      var undoHead := if !undo then Some(checkpoint.id)
                      else if |undoStack| < 2 then None else Some(undoStack[|undoStack| - 2].id);
      Cursor(if undo then UndoAction else RedoAction, undoHead, redoIds, rollback)
    }

    /** `advanceHistory` after a success. */
    method AdvanceHistory(undo: bool, checkpoint: Checkpoint, safety: Tree)
      requires if undo then undoStack != [] else redoStack != []
      modifies this`undoStack, this`redoStack
      ensures undo ==>
              undoStack == old(undoStack)[..|old(undoStack)| - 1]
              && redoStack == old(redoStack) + [RedoEntry(checkpoint, safety)]
      ensures !undo ==>
              redoStack == old(redoStack)[..|old(redoStack)| - 1]
              && undoStack == old(undoStack) + [checkpoint]
    {
      if undo {
        undoStack := undoStack[..|undoStack| - 1];
        redoStack := redoStack + [RedoEntry(checkpoint, safety)];
      } else {
        redoStack := redoStack[..|redoStack| - 1];
        undoStack := undoStack + [checkpoint];
      }
    }

    /** `performOperation`: nothing happens when the stack is empty, and a restore that fails is taken back. */
    method PerformOperation(undo: bool) returns (done: bool)
      modifies this
      ensures done <==> (if undo then old(undoStack) != [] && Undone(engine, old(State())).Ok?
                         else old(redoStack) != [] && Redone(engine, old(State())).Ok?)
      ensures State() == if !done then old(State())
                         else if undo then Undone(engine, old(State())).value else Redone(engine, old(State())).value
      ensures engine.Faithful() && Sane(old(State())) ==> Performed(old(State()), State(), undo, done)
    {
      ghost var usual := engine.Faithful() && Sane(State());
      if usual && undo && undoStack != [] { UndonePerforms(engine, State()); }
      if usual && !undo && redoStack != [] { RedonePerforms(engine, State()); }
      hide Performed, Sane, Engine.Faithful;
      if (if undo then undoStack == [] else redoStack == []) {
        if usual { NothingPerformed(State(), undo); }
        return false;
      }
      var checkpoint := if undo then undoStack[|undoStack| - 1] else redoStack[|redoStack| - 1].checkpoint;
      var target := if undo then checkpoint.before else redoStack[|redoStack| - 1].target;
      var safety := Safety(engine, workspace, checkpoint, undo);
      var restored := engine.Restore(workspace, safety, target, checkpoint.changedPaths);
      if restored.Failed? { return false; }
      workspace := restored.value;
      cursors := cursors + [CreateCursor(undo, checkpoint, safety)];
      AdvanceHistory(undo, checkpoint, safety);
      return true;
    }
  }

  // ---- k undos, then k redos ----

  lemma RestoreOnlyChanges(engine: Engine, live: Tree, source: Tree, target: Tree, scope: set<Path>)
    requires engine.Faithful() && WellFormed(live)
    ensures var r := engine.Restore(live, source, target, scope); r.Ok? ==> OnlyChanges(live, r.value, scope)
  {
    RunOnlyChangesTheScope(live, source, target, scope, engine.plan(source, target, scope));
  }

  /** An undo goes through, putting the old entries back at the changed paths and leaving everything else alone,
      whenever the old entries fit what else the workspace holds now. */
  lemma UndoRestoresTheChangedPaths(engine: Engine, h: Hist)
    requires engine.Faithful() && Sane(h) && h.undoStack != []
    ensures var c := h.undoStack[|h.undoStack| - 1];
            var mix := Mixed(h.workspace, c.before, c.changedPaths);
            (Undone(engine, h).Ok? && Undone(engine, h).value.workspace == mix <==> WellFormed(mix))
  {
    var c := h.undoStack[|h.undoStack| - 1];
    assert c in h.undoStack;
    var safety := Safety(engine, h.workspace, c, true);
    SafetyFits(engine, h.workspace, c, true);
    ScopedRestoreSucceedsIffItFits(h.workspace, safety, c.before, c.changedPaths,
                                   engine.plan(safety, c.before, c.changedPaths));
  }

  /** The same workspace and stacks; the session file may have grown. */
  predicate Alike(a: Hist, b: Hist) {
    a.workspace == b.workspace && a.undoStack == b.undoStack && a.redoStack == b.redoStack
  }

  /** However the workspace was edited before an undo that went through, the redo goes through as well and brings the
      workspace and both stacks back exactly. */
  lemma RedoUndoesUndo(engine: Engine, h: Hist)
    requires engine.Faithful() && Sane(h) && h.undoStack != [] && Undone(engine, h).Ok?
    ensures Sane(Undone(engine, h).value)
    ensures var r := Redone(engine, Undone(engine, h).value); r.Ok? && Alike(r.value, h)
  {
    var c, rest := h.undoStack[|h.undoStack| - 1], h.undoStack[..|h.undoStack| - 1];
    assert c in h.undoStack && forall d :: d in rest ==> d in h.undoStack;
    var safety := Safety(engine, h.workspace, c, true);
    SafetyFits(engine, h.workspace, c, true);
    RestoreOnlyChanges(engine, h.workspace, safety, c.before, c.changedPaths);
    var there := Undone(engine, h).value;
    assert there.redoStack[..|h.redoStack|] == h.redoStack && rest + [c] == h.undoStack;
    StaysWellFormed(h.workspace, there.workspace, c.changedPaths);
    var back := Safety(engine, there.workspace, c, false);
    SafetyFits(engine, there.workspace, c, false);
    SafetyBringsBack(h.workspace, there.workspace, safety, back, c.changedPaths,
                     engine.plan(back, safety, c.changedPaths));
  }

  function Undos(engine: Engine, h: Hist, k: nat): (r: Result<Hist>)
    requires k <= |h.undoStack|
    ensures r.Ok? ==> |r.value.undoStack| == |h.undoStack| - k && |r.value.redoStack| == |h.redoStack| + k
  {
    if k == 0 then Ok(h)
    else match Undos(engine, h, k - 1)
      case Failed => Failed
      case Ok(next) => Undone(engine, next)
  }

  function Redos(engine: Engine, h: Hist, k: nat): (r: Result<Hist>)
    requires k <= |h.redoStack|
    decreases k
  {
    if k == 0 then Ok(h)
    else match Redone(engine, h)
      case Failed => Failed
      case Ok(next) => Redos(engine, next, k - 1)
  }

  lemma {:induction false} UndosStaySane(engine: Engine, h: Hist, k: nat)
    requires engine.Faithful() && Sane(h) && k <= |h.undoStack| && Undos(engine, h, k).Ok?
    ensures Sane(Undos(engine, h, k).value)
  {
    hide Engine.Faithful, Undone, Sane;
    if k > 0 {
      UndosStaySane(engine, h, k - 1);
      RedoUndoesUndo(engine, Undos(engine, h, k - 1).value);
    }
  }

  lemma {:induction false} AlikeRedos(engine: Engine, a: Hist, b: Hist, k: nat)
    requires Alike(a, b) && k <= |a.redoStack|
    ensures Redos(engine, a, k).Ok? == Redos(engine, b, k).Ok?
    ensures Redos(engine, a, k).Ok? ==> Alike(Redos(engine, a, k).value, Redos(engine, b, k).value)
    decreases k
  {
    if k > 0 && Redone(engine, a).Ok? {
      AlikeRedos(engine, Redone(engine, a).value, Redone(engine, b).value, k - 1);
    }
  }

  /** However the workspace was edited before the first undo: after k undos that went through, k redos go through, and
      they bring the workspace and both stacks back exactly. */
  lemma {:induction false} UndosThenRedosRestore(engine: Engine, h: Hist, k: nat)
    requires engine.Faithful() && Sane(h) && k <= |h.undoStack| && Undos(engine, h, k).Ok?
    ensures var r := Redos(engine, Undos(engine, h, k).value, k); r.Ok? && Alike(r.value, h)
  {
    hide Engine.Faithful, Undone, Redone, Sane;
    if k > 0 {
      var u := Undos(engine, h, k - 1).value;
      UndosStaySane(engine, h, k - 1);
      RedoUndoesUndo(engine, u);
      UndosThenRedosRestore(engine, h, k - 1);
      AlikeRedos(engine, Redone(engine, Undone(engine, u).value).value, u, k - 1);
    }
  }

  // ---- rebuilding the redo stack ----

  predicate SourceOf(c: Cursor, prefix: seq<string>) {
    c.action == UndoAction && c.redoStack == prefix
  }

  /** The last undo cursor with this redo stack is at `k`. */
  ghost predicate LastSource(cursors: seq<Cursor>, prefix: seq<string>, k: int) {
    0 <= k < |cursors| && SourceOf(cursors[k], prefix) && forall j :: k < j < |cursors| ==>
      !SourceOf(cursors[j], prefix)
  }

  ghost predicate Rebuildable(h: Hist, i: nat)
    requires i < |h.redoStack|
  {
    exists k :: LastSource(h.cursors, Ids(h.redoStack)[..i + 1], k) && h.cursors[k].rollback == h.redoStack[i].target
  }

  ghost predicate UniqueIds(checkpoints: seq<Checkpoint>) {
    forall i, j :: 0 <= i < j < |checkpoints| ==> checkpoints[i].id != checkpoints[j].id
  }

  ghost predicate Inv(h: Hist) {
    && UniqueIds(h.checkpoints)
    && (forall c :: c in h.undoStack ==> c in h.checkpoints)
    && (forall e :: e in h.redoStack ==> e.checkpoint in h.checkpoints)
    && forall i :: 0 <= i < |h.redoStack| ==> Rebuildable(h, i)
  }

  /** What the last cursor says of the stacks, right after an undo or a redo. */
  ghost predicate CursorCurrent(h: Hist) {
    && h.cursors != [] && h.cursors[|h.cursors| - 1].redoStack == Ids(h.redoStack)
    && h.cursors[|h.cursors| - 1].undoHead == Head(h.undoStack)
  }

  /** Everything that happens to the history. A new run clears the redo stack when it starts; a run that cannot be
      captured pauses the history; navigating the tree moves both stacks. */
  datatype Event =
    | Edit(workspace: Tree) | StartRun | FinishRun(checkpoint: Checkpoint) | FailRun
    | Undo | Redo | Navigate(undoStack: seq<Checkpoint>, workspace: Tree, rollback: Tree)

  ghost predicate Enabled(engine: Engine, h: Hist, e: Event) {
    match e
    case FinishRun(c) => forall d :: d in h.checkpoints ==> d.id != c.id
    case Undo => h.undoStack != [] && Undone(engine, h).Ok?
    case Redo => h.redoStack != [] && Redone(engine, h).Ok?
    case Navigate(undoStack, _, _) => forall c :: c in undoStack ==> c in h.checkpoints
    case _ => true
  }

  ghost function After(engine: Engine, h: Hist, e: Event): Hist
    requires Enabled(engine, h, e)
  {
    match e
    case Edit(w) => h.(workspace := w)
    case StartRun => h.(redoStack := [])
    case FinishRun(c) => h.(undoStack := h.undoStack + [c], checkpoints := h.checkpoints + [c])
    case FailRun => h.(undoStack := [], redoStack := [])
    case Undo => Undone(engine, h).value
    case Redo => Redone(engine, h).value
    case Navigate(undoStack, w, rollback) =>
      Hist(w, undoStack, [], h.checkpoints, h.cursors + [Cursor(TreeAction, Head(undoStack), [], rollback)])
  }

  /** Another cursor leaves a source alone unless it is itself an undo with the same redo stack. */
  lemma SourceStays(cursors: seq<Cursor>, c: Cursor, prefix: seq<string>, k: int)
    requires LastSource(cursors, prefix, k) && !SourceOf(c, prefix)
    ensures LastSource(cursors + [c], prefix, k) && (cursors + [c])[k] == cursors[k]
  {
  }

  lemma UndoKeepsInv(engine: Engine, h: Hist)
    requires Inv(h) && h.undoStack != [] && Undone(engine, h).Ok?
    ensures Inv(Undone(engine, h).value) && CursorCurrent(Undone(engine, h).value)
  {
    var next := Undone(engine, h).value;
    var n, c := |h.redoStack|, next.cursors[|h.cursors|];
    forall i | 0 <= i < |next.redoStack|
      ensures Rebuildable(next, i)
    {
      if i < n {
        assert Rebuildable(h, i);
        var prefix := Ids(h.redoStack)[..i + 1];
        assert Ids(next.redoStack)[..i + 1] == prefix;
        var k :| LastSource(h.cursors, prefix, k) && h.cursors[k].rollback == h.redoStack[i].target;
        SourceStays(h.cursors, c, prefix, k);
      } else {
        assert Ids(next.redoStack)[..i + 1] == c.redoStack;
        assert LastSource(next.cursors, c.redoStack, |h.cursors|);
      }
    }
    assert Ids(next.redoStack) == c.redoStack;
  }

  lemma RedoKeepsInv(engine: Engine, h: Hist)
    requires Inv(h) && h.redoStack != [] && Redone(engine, h).Ok?
    ensures Inv(Redone(engine, h).value) && CursorCurrent(Redone(engine, h).value)
  {
    var next := Redone(engine, h).value;
    var c := next.cursors[|h.cursors|];
    forall i | 0 <= i < |next.redoStack|
      ensures Rebuildable(next, i)
    {
      assert Rebuildable(h, i);
      var prefix := Ids(h.redoStack)[..i + 1];
      assert Ids(next.redoStack)[..i + 1] == prefix;
      var k :| LastSource(h.cursors, prefix, k) && h.cursors[k].rollback == h.redoStack[i].target;
      SourceStays(h.cursors, c, prefix, k);
    }
    assert h.redoStack[|h.redoStack| - 1] in h.redoStack;
  }

  lemma EventKeepsInv(engine: Engine, h: Hist, e: Event)
    requires Inv(h) && Enabled(engine, h, e)
    ensures Inv(After(engine, h, e)) && (e.Undo? || e.Redo? ==> CursorCurrent(After(engine, h, e)))
  {
    match e
    case Undo => UndoKeepsInv(engine, h);
    case Redo => RedoKeepsInv(engine, h);
    case Edit(_) =>
      assert forall i :: 0 <= i < |h.redoStack| ==> Rebuildable(h, i);
      assert forall i :: 0 <= i < |h.redoStack| && Rebuildable(h, i) ==> Rebuildable(After(engine, h, e), i);
    case FinishRun(_) =>
      assert forall i :: 0 <= i < |h.redoStack| ==> Rebuildable(h, i);
      assert forall i :: 0 <= i < |h.redoStack| && Rebuildable(h, i) ==> Rebuildable(After(engine, h, e), i);
    case _ =>
  }

  ghost predicate Happens(engine: Engine, h: Hist, events: seq<Event>, last: Hist)
    decreases |events|
  {
    if events == [] then last == h
    else Enabled(engine, h, events[0]) && Happens(engine, After(engine, h, events[0]), events[1..], last)
  }

  const EMPTY := Hist(map[], [], [], [], [])

  lemma {:induction false} HistoryKeepsInv(engine: Engine, h: Hist, events: seq<Event>, last: Hist)
    requires Inv(h) && Happens(engine, h, events, last)
    ensures Inv(last)
    ensures events != [] && (events[|events| - 1].Undo? || events[|events| - 1].Redo?) ==> CursorCurrent(last)
    decreases |events|
  {
    if events != [] {
      EventKeepsInv(engine, h, events[0]);
      HistoryKeepsInv(engine, After(engine, h, events[0]), events[1..], last);
    }
  }

  /** `rebuildControllerState`, redo part: for each prefix of the last cursor's redo stack, the last undo cursor with
      that stack supplies the safety snapshot. After any history that ends in an undo or a redo it finds exactly the
      redo stack the controller had in memory, and the cursor's undo head is the top of the undo stack. */
  method RebuildRedo(checkpoints: seq<Checkpoint>, cursors: seq<Cursor>, ghost engine: Engine,
                     ghost events: seq<Event>, ghost h: Hist)
    returns (r: Result<seq<RedoEntry>>)
    requires cursors != []
    ensures Happens(engine, EMPTY, events, h) && events != []
            && (events[|events| - 1].Undo? || events[|events| - 1].Redo?)
            && h.checkpoints == checkpoints && h.cursors == cursors ==>
              r == Ok(h.redoStack) && cursors[|cursors| - 1].undoHead == Head(h.undoStack)
  {
    var cursor := cursors[|cursors| - 1];
    ghost var sound := Inv(h) && CursorCurrent(h) && h.checkpoints == checkpoints && h.cursors == cursors;
    if Happens(engine, EMPTY, events, h) { HistoryKeepsInv(engine, EMPTY, events, h); }
    var entries: seq<RedoEntry> := [];
    for i := 0 to |cursor.redoStack|
      invariant |entries| == i
      invariant sound ==> entries == h.redoStack[..i]
    {
      var checkpoint := FindCheckpoint(checkpoints, cursor.redoStack[i]);
      var source := FindSource(cursors, cursor.redoStack[..i + 1]);
      if sound { EntryIsFound(h, i, checkpoint, source); }
      if checkpoint.None? || source.None? { return Failed; }
      entries := entries + [RedoEntry(checkpoint.value, source.value.rollback)];
    }
    assert sound ==> h.redoStack[..|h.redoStack|] == h.redoStack;
    r := Ok(entries);
  }

  /** What the two searches find for one entry is that entry. */
  lemma EntryIsFound(h: Hist, i: nat, checkpoint: Option<Checkpoint>, source: Option<Cursor>)
    requires Inv(h) && i < |h.redoStack|
    requires forall c :: c in h.checkpoints && c.id == Ids(h.redoStack)[i] ==> checkpoint == Some(c)
    requires forall k :: LastSource(h.cursors, Ids(h.redoStack)[..i + 1], k) ==> source == Some(h.cursors[k])
    ensures checkpoint == Some(h.redoStack[i].checkpoint) && source.Some?
            && source.value.rollback == h.redoStack[i].target
  {
    assert h.redoStack[i] in h.redoStack;
    assert Rebuildable(h, i);
  }

  /** `findCheckpointById`. */
  method FindCheckpoint(checkpoints: seq<Checkpoint>, id: string) returns (r: Option<Checkpoint>)
    ensures r.Some? ==> r.value in checkpoints && r.value.id == id
    ensures r.None? ==> forall c :: c in checkpoints ==> c.id != id
    ensures UniqueIds(checkpoints) ==> forall c :: c in checkpoints && c.id == id ==> r == Some(c)
  {
    for i := 0 to |checkpoints|
      invariant forall k :: 0 <= k < i ==> checkpoints[k].id != id
    {
      if checkpoints[i].id == id { return Some(checkpoints[i]); }
    }
    return None;
  }

  /** The filter over all cursors, and its last element. */
  method FindSource(cursors: seq<Cursor>, prefix: seq<string>) returns (r: Option<Cursor>)
    ensures forall k :: LastSource(cursors, prefix, k) ==> r == Some(cursors[k])
    ensures r.None? <==> forall k :: 0 <= k < |cursors| ==> !SourceOf(cursors[k], prefix)
  {
    r := None;
    for i := 0 to |cursors|
      invariant forall k :: LastSource(cursors[..i], prefix, k) ==> r == Some(cursors[k])
      invariant r.None? <==> forall k :: 0 <= k < i ==> !SourceOf(cursors[k], prefix)
    {
      if SourceOf(cursors[i], prefix) {
        r := Some(cursors[i]);
      }
      forall k | LastSource(cursors[..i + 1], prefix, k)
        ensures r == Some(cursors[k])
      {
        assert cursors[..i + 1][i] == cursors[i];
        if k < i {
          assert forall j :: k < j < i ==> cursors[..i][j] == cursors[..i + 1][j];
          assert LastSource(cursors[..i], prefix, k);
        }
      }
    }
    assert cursors[..|cursors|] == cursors;
  }
}
