/** What every inline editor shares: a shown value and a debounced value,
    the reset when the committed value changes, the debounce burst, and the
    write-then-patch step that runs when the timer fires. */
module CellEditor {
  import opened Values
  import TrackerAction
  import TrackingTable

  /** `value` is what the control shows; `debounced` is what the timer decides on. */
  datatype Editor<T> = Editor(value: T, debounced: T)

  /** A local change sets both values to the new one. */
  function Change<T>(e: Editor<T>, v: T): (r: Editor<T>)
    ensures r.value == v && r.debounced == v
  {
    e.(value := v, debounced := v)
  }

  /** The effect on `initialValue`: both values reset to the committed value,
      so a pending decision is dropped and the next one writes nothing. */
  function Sync<T(==)>(e: Editor<T>, initial: T): (r: Editor<T>)
    ensures r.value == initial && r.debounced == initial
    ensures DecideExact(initial, r.debounced).None?
  {
    e.(value := initial, debounced := initial)
  }

  /** A burst of changes made faster than the debounce interval. Each change
      clears the pending timer, so the timer that finally fires sees the
      state after the whole burst. */
  function Burst<T>(e: Editor<T>, changes: seq<T>): Editor<T>
    decreases |changes|
  {
    if changes == [] then e else Burst(Change(e, changes[0]), changes[1..])
  }

  /** After a non-empty burst both values are the last value typed: the one
      decision is taken on that value alone. */
  lemma {:induction false} BurstDecidesOnLast<T>(e: Editor<T>, changes: seq<T>)
    requires changes != []
    ensures Burst(e, changes).value == changes[|changes| - 1]
    ensures Burst(e, changes).debounced == changes[|changes| - 1]
    decreases |changes|
  {
    if |changes| > 1 {
      BurstDecidesOnLast(Change(e, changes[0]), changes[1..]);
    }
  }

  /** The decision of the enum and date editors: write the debounced value
      exactly when it differs from the committed one. */
  function DecideExact<T(==)>(initial: T, debounced: T): (write: Option<T>)
    ensures write.Some? <==> debounced != initial
    ensures write.Some? ==> write.value == debounced
  {
    if debounced != initial then Some(debounced) else None
  }

  /** Where a cell's write goes: the row id and tracker for the backend, the
      displayed row index for the grid, and the column. */
  datatype CellTarget = CellTarget(trackerId: string, rowId: string, rowIndex: int, columnId: string)

  /** The backend table, the grid, and the write's result if one was sent. */
  datatype Synced = Synced(table: seq<Row>, grid: TrackingTable.Grid,
                           result: Option<TrackerAction.UpdateResult>)

  /** The timer callback once the value to send is decided: no decision, no
      request; otherwise send it, and patch the grid with exactly the sent
      value only after the backend reports success. A failure leaves the grid
      as it was. */
  function CommitWrite(table: seq<Row>, grid: TrackingTable.Grid, target: CellTarget,
                       sent: Option<Value>, failure: Option<string>): (r: Synced)
    ensures sent.None? ==> r.table == table && r.grid == grid && r.result.None?
    ensures sent.Some? ==> r.result.Some? && (r.result.value.UpdateOk? <==> failure.None?)
    ensures sent.Some? ==>
      r.table == TrackerAction.UpdateApplication(table, target.trackerId, target.rowId,
                                                 target.columnId, sent.value, failure).table
    ensures sent.Some? && failure.None? ==>
      r.grid == TrackingTable.UpdateData(grid, target.rowIndex, target.columnId, sent.value)
    ensures failure.Some? ==> r.grid == grid && r.table == table
  {
    match sent
    case None => Synced(table, grid, None)
    case Some(v) =>
      var u := TrackerAction.UpdateApplication(table, target.trackerId, target.rowId,
                                               target.columnId, v, failure);
      if u.result.UpdateOk? then
        Synced(u.table, TrackingTable.UpdateData(grid, target.rowIndex, target.columnId, v), Some(u.result))
      else
        Synced(u.table, grid, Some(u.result))
  }

  /** When the displayed row is the stored row the write targets, a successful
      commit leaves the two equal. This rests on the backend storing the value
      as sent; a typed column that converted it would hold something else. */
  lemma CommitKeepsRowInSync(table: seq<Row>, grid: TrackingTable.Grid, target: CellTarget,
                             v: Value, j: int)
    requires 0 <= target.rowIndex < |grid.data| && 0 <= j < |table|
    requires grid.data[target.rowIndex] == table[j]
    requires TrackerAction.Targets(table[j], target.trackerId, target.rowId)
    ensures var r := CommitWrite(table, grid, target, Some(v), None);
            && r.grid.data[target.rowIndex] == r.table[j]
            && target.columnId in r.table[j] && r.table[j][target.columnId] == v
  {
  }
}
