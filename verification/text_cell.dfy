/** The optional and the required text editors. */
module TextCell {
  import opened Values
  import opened Strings
  import opened CellEditor
  import TrackerAction
  import TrackingTable

  /** The optional text editor's decision: nothing is sent when the trimmed
      value equals the trimmed committed value; otherwise the trimmed value is
      sent, or `null` when nothing but whitespace was typed. A sent text is
      never empty and never carries surrounding whitespace. */
  function DecideOptionalText(initial: string, debounced: string): (sent: Option<Value>)
    ensures sent.None? <==> Trim(debounced) == Trim(initial)
    ensures sent.Some? ==> (sent.value.Null? <==> AllWhitespace(debounced))
    ensures sent.Some? ==> sent.value.Null? || sent.value.Text?
    ensures sent.Some? && sent.value.Text? ==>
      && sent.value.s == Trim(debounced) && sent.value.s != "" && IsTrimmed(sent.value.s)
  {
    if Trim(debounced) != Trim(initial) then
      Some(if Trim(debounced) == "" then Null else Text(Trim(debounced)))
    else
      None
  }

  /** The required text editor's outcome: the message shown as placeholder
      and the value sent, if any. */
  datatype RequiredDecision = RequiredDecision(errorMessage: string, sent: Option<Value>)

  const EmptyError := "Can't be empty"

  /** The required text editor's decision: a blank value shows "Can't be
      empty" and sends nothing; any other value clears the message and sends
      its trimmed form when that differs from the trimmed committed value. */
  function DecideRequiredText(initial: string, debounced: string): (r: RequiredDecision)
    ensures AllWhitespace(debounced) ==> r.errorMessage == EmptyError && r.sent.None?
    ensures !AllWhitespace(debounced) ==> r.errorMessage == ""
    ensures !AllWhitespace(debounced) ==> (r.sent.Some? <==> Trim(debounced) != Trim(initial))
    ensures r.sent.Some? ==>
      && r.sent.value == Text(Trim(debounced)) && Trim(debounced) != "" && IsTrimmed(Trim(debounced))
  {
    if Trim(debounced) == "" then
      RequiredDecision(EmptyError, None)
    else if Trim(debounced) != Trim(initial) then
      RequiredDecision("", Some(Text(Trim(debounced))))
    else
      RequiredDecision("", None)
  }

  /** The optional text editor's timer firing: decide, write, and on success
      patch the grid. The editor's own values are left as typed either way. */
  function SettleOptionalText(table: seq<Row>, grid: TrackingTable.Grid, target: CellTarget,
                              initial: string, e: Editor<string>,
                              failure: Option<string>): (r: Synced)
    ensures Trim(e.debounced) == Trim(initial) ==> r.table == table && r.grid == grid && r.result.None?
    ensures Trim(e.debounced) != Trim(initial) ==>
      r.table == TrackerAction.UpdateApplication(table, target.trackerId, target.rowId, target.columnId,
                                                 DecideOptionalText(initial, e.debounced).value, failure).table
    ensures Trim(e.debounced) != Trim(initial) && failure.None? ==> r.result == Some(TrackerAction.UpdateOk)
    ensures Trim(e.debounced) != Trim(initial) && !AllWhitespace(e.debounced) && failure.None? ==>
      r.grid == TrackingTable.UpdateData(grid, target.rowIndex, target.columnId, Text(Trim(e.debounced)))
    ensures Trim(e.debounced) != Trim(initial) && AllWhitespace(e.debounced) && failure.None? ==>
      r.grid == TrackingTable.UpdateData(grid, target.rowIndex, target.columnId, Null)
    ensures failure.Some? ==> r.grid == grid && r.table == table
  {
    CommitWrite(table, grid, target, DecideOptionalText(initial, e.debounced), failure)
  }

  /** The required text editor's local state: its values and the message. */
  datatype RequiredEditor = RequiredEditor(editor: Editor<string>, errorMessage: string)

  datatype RequiredSettled = RequiredSettled(state: RequiredEditor, synced: Synced)

  /** The required text editor's timer firing. A blank value sets the message
      and touches neither the backend nor the grid. */
  function SettleRequiredText(table: seq<Row>, grid: TrackingTable.Grid, target: CellTarget,
                              initial: string, s: RequiredEditor,
                              failure: Option<string>): (r: RequiredSettled)
    ensures r.state.editor == s.editor
    ensures AllWhitespace(s.editor.debounced) ==>
      && r.state.errorMessage == EmptyError
      && r.synced.table == table && r.synced.grid == grid && r.synced.result.None?
    ensures !AllWhitespace(s.editor.debounced) ==> r.state.errorMessage == ""
    ensures DecideRequiredText(initial, s.editor.debounced).sent.None? ==>
      r.synced.table == table && r.synced.grid == grid && r.synced.result.None?
    ensures DecideRequiredText(initial, s.editor.debounced).sent.Some? ==>
      r.synced.table == TrackerAction.UpdateApplication(
        table, target.trackerId, target.rowId, target.columnId,
        DecideRequiredText(initial, s.editor.debounced).sent.value, failure).table
    ensures DecideRequiredText(initial, s.editor.debounced).sent.Some? && failure.None? ==>
      && r.synced.result == Some(TrackerAction.UpdateOk)
      && r.synced.grid == TrackingTable.UpdateData(grid, target.rowIndex, target.columnId,
                                                   DecideRequiredText(initial, s.editor.debounced).sent.value)
    ensures failure.Some? ==> r.synced.grid == grid && r.synced.table == table
  {
    var d := DecideRequiredText(initial, s.editor.debounced);
    RequiredSettled(s.(errorMessage := d.errorMessage), CommitWrite(table, grid, target, d.sent, failure))
  }

  /** A successful required edit of a changed, non-blank value shows the
      trimmed text in the edited cell, and once that text is the committed
      value the same input sends nothing more. */
  lemma RequiredEditSettles(table: seq<Row>, grid: TrackingTable.Grid, target: CellTarget,
                            initial: string, s: RequiredEditor)
    requires !AllWhitespace(s.editor.debounced) && Trim(s.editor.debounced) != Trim(initial)
    requires 0 <= target.rowIndex < |grid.data|
    ensures var r := SettleRequiredText(table, grid, target, initial, s, None);
            && r.state.errorMessage == ""
            && target.columnId in r.synced.grid.data[target.rowIndex]
            && r.synced.grid.data[target.rowIndex][target.columnId] == Text(Trim(s.editor.debounced))
            && DecideRequiredText(Trim(s.editor.debounced), s.editor.debounced).sent.None?
  {
    TrimIdempotent(s.editor.debounced);
  }

  /** The blank-company example: clearing a required field to whitespace is
      refused before any request, whatever the committed value was. */
  lemma BlankRequiredIsRejected(initial: string, blank: string)
    requires AllWhitespace(blank)
    ensures DecideRequiredText(initial, blank) == RequiredDecision(EmptyError, None)
  {
  }

  /** Typing the committed value back, give or take surrounding whitespace,
      sends nothing in either editor. */
  lemma WhitespaceOnlyEditsSendNothing(initial: string, typed: string)
    requires Trim(typed) == Trim(initial)
    ensures DecideOptionalText(initial, typed).None?
    ensures DecideRequiredText(initial, typed).sent.None?
  {
  }

  /** A sent value is stable under a second round: once the grid holds the
      sent text as the new committed value, the same input sends nothing. */
  lemma OptionalTextSettles(initial: string, typed: string)
    requires DecideOptionalText(initial, typed) == Some(Text(Trim(typed)))
    ensures DecideOptionalText(Trim(typed), typed).None?
  {
    TrimIdempotent(typed);
  }
}
