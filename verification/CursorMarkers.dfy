/** Finding a transaction's cursor in the session file, whatever else and whatever half-written line is in it. */
module CursorMarkers {

  /** A line as the scan sees it: not JSON, another entry, a cursor that fails validation, or a valid cursor with its
      canonical encoding and whether it agrees with the transaction's descriptor and leaves. */
  datatype Line =
    | Unreadable | Other
    | BadCursor(opId: string)
    | Cursor(opId: string, encoded: string, fits: bool)

  datatype Inspection = Absent | Match(needsTrailingNewline: bool) | Conflict

  predicate Mentions(l: Line, opId: string) {
    (l.BadCursor? || l.Cursor?) && l.opId == opId
  }

  /** All mentions of the transaction are one and the same fitting cursor. */
  ghost predicate Agree(lines: seq<Line>, opId: string) {
    && (forall i :: 0 <= i < |lines| && Mentions(lines[i], opId) ==> lines[i].Cursor? && lines[i].fits)
    && (forall i, j :: 0 <= i < j < |lines| && Mentions(lines[i], opId) && Mentions(lines[j], opId) ==>
        lines[i] == lines[j])
  }

  ghost predicate Mentioned(lines: seq<Line>, opId: string) {
    exists i :: 0 <= i < |lines| && Mentions(lines[i], opId)
  }

  /** `inspectCursorMarkers` over the lines of the file; `open` says that the last line has no newline. */
  method Inspect(lines: seq<Line>, open: bool, opId: string) returns (r: Inspection)
    ensures r == Absent <==> !Mentioned(lines, opId)
    ensures r.Match? <==> Mentioned(lines, opId) && Agree(lines, opId)
    ensures r.Match? ==> (r.needsTrailingNewline <==> open && Mentions(lines[|lines| - 1], opId))
  {
    var matched, newline := "", false;
    var found := false;
    for i := 0 to |lines|
      invariant found <==> Mentioned(lines[..i], opId)
      invariant Agree(lines[..i], opId)
      invariant forall k :: 0 <= k < i && Mentions(lines[k], opId) ==> lines[k] == Cursor(opId, matched, true)
      invariant found && i == |lines| ==> (newline <==> open && Mentions(lines[i - 1], opId))
      invariant newline ==> i == |lines|
    {
      if lines[i].BadCursor? && lines[i].opId == opId { return Conflict; }
      if lines[i].Cursor? && lines[i].opId == opId {
        if !lines[i].fits { return Conflict; }
        if found && matched != lines[i].encoded {
          var k :| 0 <= k < i && Mentions(lines[k], opId);
          assert lines[k] != lines[i];
          return Conflict;
        }
        found, matched := true, lines[i].encoded;
        newline := i == |lines| - 1 && open;
        assert Mentions(lines[..i + 1][i], opId);
      } else {
        assert !Mentions(lines[i], opId);
        assert forall k :: 0 <= k < i ==> lines[..i + 1][k] == lines[..i][k];
      }
    }
    assert lines[..|lines|] == lines;
    return if found then Match(newline) else Absent;
  }
}
