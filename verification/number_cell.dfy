/** The optional number editor. Its decision is the optional text editor's,
    character for character: the trimmed input is sent as a string, with no
    numeric parse and no range check. */
module NumberCell {
  import opened Values
  import opened Strings
  import opened CellEditor
  import TextCell
  import TrackerAction
  import TrackingTable

  /** Nothing is sent when the trimmed value equals the trimmed committed
      value; a blank value sends `null`; anything else sends the trimmed
      STRING, never a number, whether or not it reads as one. */
  function DecideOptionalNumber(initial: string, debounced: string): (sent: Option<Value>)
    ensures sent.None? <==> Trim(debounced) == Trim(initial)
    ensures sent.Some? ==> !sent.value.Number?
    ensures sent.Some? && !AllWhitespace(debounced) ==> sent.value == Text(Trim(debounced))
    ensures sent.Some? && AllWhitespace(debounced) ==> sent.value == Null
  {
    TextCell.DecideOptionalText(initial, debounced)
  }

  /** The number editor's timer firing: decide, write, and on success patch
      the grid with the sent string. */
  function SettleOptionalNumber(table: seq<Row>, grid: TrackingTable.Grid, target: CellTarget,
                                initial: string, e: Editor<string>,
                                failure: Option<string>): (r: Synced)
    ensures Trim(e.debounced) == Trim(initial) ==> r.table == table && r.grid == grid && r.result.None?
    ensures Trim(e.debounced) != Trim(initial) ==>
      r.table == TrackerAction.UpdateApplication(table, target.trackerId, target.rowId, target.columnId,
                                                 DecideOptionalNumber(initial, e.debounced).value, failure).table
    ensures Trim(e.debounced) != Trim(initial) && !AllWhitespace(e.debounced) && failure.None? ==>
      r.grid == TrackingTable.UpdateData(grid, target.rowIndex, target.columnId, Text(Trim(e.debounced)))
    ensures Trim(e.debounced) != Trim(initial) && AllWhitespace(e.debounced) && failure.None? ==>
      r.grid == TrackingTable.UpdateData(grid, target.rowIndex, target.columnId, Null)
    ensures failure.Some? ==> r.grid == grid && r.table == table
  {
    CommitWrite(table, grid, target, DecideOptionalNumber(initial, e.debounced), failure)
  }

  /** Text that does not read as a number is sent as it is: "abc" replacing
      an empty value goes to the backend as the string "abc", and " 150000 "
      as the string "150000". */
  lemma NonNumericIsSent()
    ensures DecideOptionalNumber("", "abc") == Some(Text("abc"))
  {
    TrimSurrounded([], "abc", []);
    assert [] + "abc" + [] == "abc";
    assert AllWhitespace("");
  }

  lemma NumericTextIsSentAsText()
    ensures DecideOptionalNumber("", " 150000 ") == Some(Text("150000"))
  {
    TrimSurrounded(" ", "150000", " ");
    assert " " + "150000" + " " == " 150000 ";
    assert AllWhitespace("");
  }
}
