/** The remote and status select editors. */
module EnumCell {
  import opened Values
  import opened ApplicationTypes
  import opened CellEditor
  import TrackerAction
  import TrackingTable

  /** One entry of a select list: the value it reports and the text it displays. */
  datatype SelectOption = SelectOption(value: string, display: string)

  const NoneValue := "none"

  /** The remote options: "none" for no selection, then the three members. */
  const RemoteOptions: seq<SelectOption> := [
    SelectOption(NoneValue, "No Selection"),
    SelectOption(RemoteLabel(OnSite), RemoteLabel(OnSite)),
    SelectOption(RemoteLabel(Hybrid), RemoteLabel(Hybrid)),
    SelectOption(RemoteLabel(Remote), RemoteLabel(Remote))
  ]

  predicate IsRemoteOptionValue(v: string) {
    exists i :: 0 <= i < |RemoteOptions| && RemoteOptions[i].value == v
  }

  /** The remote options are "none" followed by exactly the three members,
      each labelled with its own string. */
  lemma RemoteOptionsExact()
    ensures |RemoteOptions| == 1 + |AllRemotes|
    ensures RemoteOptions[0].value == NoneValue
    ensures forall i :: 0 <= i < |AllRemotes| ==>
      RemoteOptions[i + 1] == SelectOption(RemoteLabel(AllRemotes[i]), RemoteLabel(AllRemotes[i]))
  {
  }

  /** The select mapping: "none" is no value, any other option is the member
      whose string it is. */
  function SelectRemote(currentValue: string): (r: Option<Remote>)
    requires IsRemoteOptionValue(currentValue)
    ensures r.None? <==> currentValue == NoneValue
    ensures r.Some? ==> RemoteLabel(r.value) == currentValue
  {
    if currentValue == NoneValue then None
    else RemoteFromLabel(currentValue)
  }

  /** A select editor's local state: the popup and the two values. */
  datatype SelectEditor<T> = SelectEditor(open: bool, editor: Editor<T>)

  /** Choosing a remote option sets both values and closes the popup. */
  function OnSelectRemote(s: SelectEditor<Option<Remote>>, currentValue: string): (r: SelectEditor<Option<Remote>>)
    requires IsRemoteOptionValue(currentValue)
    ensures !r.open
    ensures r.editor.value == r.editor.debounced == SelectRemote(currentValue)
  {
    SelectEditor(false, Change(s.editor, SelectRemote(currentValue)))
  }

  /** Whether option `optionValue` carries the check mark for value `value`. */
  predicate RemoteChecked(value: Option<Remote>, optionValue: string) {
    || (value.None? && optionValue == NoneValue)
    || (value.Some? && RemoteLabel(value.value) == optionValue)
  }

  /** The index of the option that carries the check mark: there is exactly
      one, the "none" option for no value and the member's own otherwise. */
  function RemoteCheckedIndex(value: Option<Remote>): (i: nat)
    ensures i < |RemoteOptions| && RemoteChecked(value, RemoteOptions[i].value)
    ensures forall j :: 0 <= j < |RemoteOptions| && RemoteChecked(value, RemoteOptions[j].value) ==> j == i
    ensures value.None? <==> i == 0
  {
    match value
    case None => 0
    case Some(OnSite) => 1
    case Some(Hybrid) => 2
    case Some(Remote) => 3
  }

  /** Choosing an option checks that option and no other. */
  lemma SelectChecksChosen(s: SelectEditor<Option<Remote>>, i: nat)
    requires i < |RemoteOptions|
    ensures IsRemoteOptionValue(RemoteOptions[i].value)
    ensures RemoteCheckedIndex(OnSelectRemote(s, RemoteOptions[i].value).editor.value) == i
  {
  }

  /** The status options: every key in declaration order, labelled with its
      `ApplicationStatus` string. */
  function StatusOptions(): (opts: seq<SelectOption>)
    ensures |opts| == 12
    ensures forall i :: 0 <= i < 12 ==>
      opts[i] == SelectOption(StatusKeyName(AllStatusKeys[i]), StatusLabel(AllStatusKeys[i]))
  {
    seq(12, i requires 0 <= i < 12 =>
      SelectOption(StatusKeyName(AllStatusKeys[i]), StatusLabel(AllStatusKeys[i])))
  }

  /** Every status key is offered exactly once. */
  lemma StatusOptionsExact(k: StatusKey)
    ensures StatusOptions()[StatusIndex(k)].value == StatusKeyName(k)
    ensures forall i :: 0 <= i < 12 && StatusOptions()[i].value == StatusKeyName(k) ==> i == StatusIndex(k)
  {
    forall i | 0 <= i < 12 && StatusOptions()[i].value == StatusKeyName(k)
      ensures i == StatusIndex(k)
    {
      StatusLabelsDistinct(AllStatusKeys[i], k);
      StatusEnumeration();
    }
  }

  /** Choosing a status sets both values and closes the popup. */
  function OnSelectStatus(s: SelectEditor<StatusKey>, k: StatusKey): (r: SelectEditor<StatusKey>)
    ensures !r.open && r.editor.value == k && r.editor.debounced == k
  {
    SelectEditor(false, Change(s.editor, k))
  }

  /** The status option carrying the check mark: the one equal to the value. */
  function StatusCheckedIndex(value: StatusKey): (i: nat)
    ensures i < 12 && StatusOptions()[i].value == StatusKeyName(value)
    ensures forall j :: 0 <= j < 12 && AllStatusKeys[j] == value ==> j == i
  {
    StatusEnumeration();
    StatusIndex(value)
  }

  /** The remote editor's timer firing: a write only when the debounced value
      differs from the committed one, sending the member's string or `null`;
      the grid is patched with that value on success only. */
  function SettleRemote(table: seq<Row>, grid: TrackingTable.Grid, target: CellTarget,
                        initial: Option<Remote>, e: Editor<Option<Remote>>,
                        failure: Option<string>): (r: Synced)
    ensures e.debounced == initial ==> r.table == table && r.grid == grid && r.result.None?
    ensures e.debounced != initial ==>
      r.table == TrackerAction.UpdateApplication(table, target.trackerId, target.rowId, target.columnId,
                                                 RemoteValue(e.debounced), failure).table
    ensures e.debounced != initial && failure.None? ==>
      r.grid == TrackingTable.UpdateData(grid, target.rowIndex, target.columnId, RemoteValue(e.debounced))
    ensures failure.Some? ==> r.grid == grid && r.table == table
  {
    var sent := match DecideExact(initial, e.debounced)
                case None => None
                case Some(v) => Some(RemoteValue(v));
    CommitWrite(table, grid, target, sent, failure)
  }

  /** The status editor's timer firing, sending the key's name. */
  function SettleStatus(table: seq<Row>, grid: TrackingTable.Grid, target: CellTarget,
                        initial: StatusKey, e: Editor<StatusKey>,
                        failure: Option<string>): (r: Synced)
    ensures e.debounced == initial ==> r.table == table && r.grid == grid && r.result.None?
    ensures e.debounced != initial ==>
      r.table == TrackerAction.UpdateApplication(table, target.trackerId, target.rowId, target.columnId,
                                                 Text(StatusKeyName(e.debounced)), failure).table
    ensures e.debounced != initial && failure.None? ==>
      r.grid == TrackingTable.UpdateData(grid, target.rowIndex, target.columnId,
                                         Text(StatusKeyName(e.debounced)))
    ensures failure.Some? ==> r.grid == grid && r.table == table
  {
    var sent := match DecideExact(initial, e.debounced)
                case None => None
                case Some(k) => Some(Text(StatusKeyName(k)));
    CommitWrite(table, grid, target, sent, failure)
  }

  /** A status written by the editor reads back as the chosen key. */
  lemma StatusWriteReadsBack(k: StatusKey)
    ensures StatusFromName(StatusKeyName(k)) == Some(k)
  {
    StatusNamesAndLabelsRoundTrip(k);
  }
}
