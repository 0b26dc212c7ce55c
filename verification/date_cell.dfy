/** The date and the date-time picker editors. A picked moment is a record
    of integer fields; the string the editor sends is its own fixed-width
    rendering of those fields. Parsing a stored string is outside the model:
    its result is passed in. */
module DateCell {
  import opened Values
  import Numbers
  import opened CellEditor
  import TrackerAction
  import TrackingTable

  datatype DateTime = DateTime(year: nat, month: nat, day: nat, hours: int, minutes: int)

  predicate ValidTime(d: DateTime) {
    0 <= d.hours < 24 && 0 <= d.minutes < 60
  }

  /** `n` in decimal, left-padded with zeros to `width` digits. */
  function Pad(n: nat, width: nat): (s: string)
    ensures |s| >= width
  {
    var digits := Numbers.NatToString(n);
    if |digits| >= width then digits else seq(width - |digits|, _ => '0') + digits
  }

  /** `format(d, "yyyy-MM-dd")`. */
  function FormatDate(d: DateTime): string {
    Pad(d.year, 4) + "-" + Pad(d.month, 2) + "-" + Pad(d.day, 2)
  }

  /** `format(d, "yyyy-MM-dd'T'HH:mm")`. */
  function FormatDateTime(d: DateTime): string
    requires ValidTime(d)
  {
    FormatDate(d) + "T" + Pad(d.hours, 2) + ":" + Pad(d.minutes, 2)
  }

  /** The local state of both pickers: the picked moment, if any, and the
      debounced string (`null` when nothing is picked). */
  datatype DateEditor = DateEditor(date: Option<DateTime>, debounced: Option<string>)

  /** The effect on `initialValue`: the debounced value becomes the committed
      string and the date its parse, or no date when the string is `null` or
      empty. */
  function SyncDate(initialValue: Option<string>, parsed: DateTime): (e: DateEditor)
    ensures e.debounced == initialValue
    ensures e.date.Some? <==> initialValue.Some? && initialValue.value != ""
    ensures e.date.Some? ==> e.date.value == parsed
  {
    DateEditor(if initialValue.Some? && initialValue.value != "" then Some(parsed) else None,
               initialValue)
  }

  /** The date-only calendar: a pick sets the date and its day string, and
      clearing the selection sets both to nothing, which sends `null`. */
  function SelectDateOnly(e: DateEditor, selected: Option<DateTime>): (r: DateEditor)
    ensures r.date == selected
    ensures selected.None? ==> r.debounced.None?
    ensures selected.Some? ==> r.debounced == Some(FormatDate(selected.value))
  {
    match selected
    case None => DateEditor(None, None)
    case Some(d) => DateEditor(Some(d), Some(FormatDate(d)))
  }

  /** The date-time calendar: a pick sets the moment and its string; clearing
      the selection is ignored. */
  function SelectDateTime(e: DateEditor, selected: Option<DateTime>): (r: DateEditor)
    requires selected.Some? ==> ValidTime(selected.value)
    ensures selected.None? ==> r == e
    ensures selected.Some? ==> r.date == selected && r.debounced == Some(FormatDateTime(selected.value))
  {
    match selected
    case None => e
    case Some(d) => DateEditor(Some(d), Some(FormatDateTime(d)))
  }

  /** The hour buttons offer 1 to 12; the minute buttons 0, 5, ..., 55. */
  function OfferedHours(): (hs: seq<int>)
    ensures |hs| == 12 && forall i :: 0 <= i < 12 ==> hs[i] == i + 1
  {
    seq(12, i => i + 1)
  }

  function OfferedMinutes(): (ms: seq<int>)
    ensures |ms| == 12 && forall i :: 0 <= i < 12 ==> ms[i] == 5 * i
  {
    seq(12, i => i * 5)
  }

  /** The three kinds of time pick: an hour button, a minute button, or the
      AM/PM button with its text. */
  datatype TimePick = Hour(h: int) | Minute(m: int) | AmPm(half: string)

  predicate Offered(pick: TimePick) {
    match pick
    case Hour(h) => h in OfferedHours()
    case Minute(m) => m in OfferedMinutes()
    case AmPm(half) => half == "AM" || half == "PM"
  }

  /** An hour button: `(h % 12) + (isPM ? 12 : 0)`. The result is a valid
      hour in the same half of the day, showing `h` on a 12-hour clock. */
  function PickHour(hours: int, h: int): (r: int)
    requires 0 <= hours < 24 && 1 <= h <= 12
    ensures 0 <= r < 24
    ensures (r >= 12) == (hours >= 12)
    ensures r % 12 == h % 12
  {
    (h % 12) + (if hours >= 12 then 12 else 0)
  }

  /** The AM/PM button: PM gives `(hours % 12) + 12`, anything else
      `hours % 12`. The hour on a 12-hour clock is kept. */
  function PickAmPm(hours: int, half: string): (r: int)
    requires 0 <= hours < 24
    ensures 0 <= r < 24
    ensures r % 12 == hours % 12
    ensures r >= 12 <==> half == "PM"
  {
    if half == "PM" then (hours % 12) + 12 else hours % 12
  }

  /** Pressing the same AM/PM button twice is pressing it once. */
  lemma PickAmPmIdempotent(hours: int, half: string)
    requires 0 <= hours < 24
    ensures PickAmPm(PickAmPm(hours, half), half) == PickAmPm(hours, half)
  {
  }

  /** The moment after a time pick. */
  function ApplyPick(d: DateTime, pick: TimePick): (r: DateTime)
    requires ValidTime(d) && Offered(pick)
    ensures ValidTime(r)
    ensures r.year == d.year && r.month == d.month && r.day == d.day
    ensures pick.Minute? ==> r == d.(minutes := pick.m)
    ensures pick.Hour? ==> r == d.(hours := PickHour(d.hours, pick.h))
    ensures pick.AmPm? ==> r == d.(hours := PickAmPm(d.hours, pick.half))
  {
    match pick
    case Hour(h) => d.(hours := PickHour(d.hours, h))
    case Minute(m) => d.(minutes := m)
    case AmPm(half) => d.(hours := PickAmPm(d.hours, half))
  }

  /** `handleTimeChange`: with no date picked nothing happens; otherwise the
      moment changes by the pick and the debounced string follows it. */
  function HandleTimeChange(e: DateEditor, pick: TimePick): (r: DateEditor)
    requires e.date.Some? ==> ValidTime(e.date.value)
    requires Offered(pick)
    ensures e.date.None? ==> r == e
    ensures e.date.Some? ==>
      && r.date == Some(ApplyPick(e.date.value, pick))
      && r.debounced == Some(FormatDateTime(r.date.value))
  {
    match e.date
    case None => e
    case Some(d) =>
      var nd := ApplyPick(d, pick);
      DateEditor(Some(nd), Some(FormatDateTime(nd)))
  }

  /** Whether hour button `h` is highlighted. */
  predicate HourHighlighted(date: Option<DateTime>, h: int) {
    date.Some? && date.value.hours % 12 == h % 12
  }

  predicate MinuteHighlighted(date: Option<DateTime>, m: int) {
    date.Some? && date.value.minutes == m
  }

  predicate HalfHighlighted(date: Option<DateTime>, half: string) {
    date.Some? && ((half == "AM" && date.value.hours < 12) || (half == "PM" && date.value.hours >= 12))
  }

  /** The highlighted hour button: for a picked moment exactly one of the
      twelve buttons is highlighted, the one showing its 12-hour clock hour. */
  function HighlightedHour(d: DateTime): (h: int)
    requires ValidTime(d)
    ensures h in OfferedHours() && HourHighlighted(Some(d), h)
    ensures forall h' :: h' in OfferedHours() && HourHighlighted(Some(d), h') ==> h' == h
  {
    var h := if d.hours % 12 == 0 then 12 else d.hours % 12;
    assert OfferedHours()[h - 1] == h;
    h
  }

  /** Exactly one of AM and PM is highlighted for a picked moment, and
      neither without one. */
  lemma OneHalfHighlighted(date: Option<DateTime>)
    ensures date.Some? ==> (HalfHighlighted(date, "AM") <==> !HalfHighlighted(date, "PM"))
    ensures date.None? ==> !HalfHighlighted(date, "AM") && !HalfHighlighted(date, "PM")
  {
  }

  /** A pick is reflected by the highlight: after choosing hour `h`, minute
      `m` or a half, that button is the highlighted one. */
  lemma PickIsHighlighted(e: DateEditor, pick: TimePick)
    requires e.date.Some? && ValidTime(e.date.value) && Offered(pick)
    ensures var r := HandleTimeChange(e, pick);
            && (pick.Hour? ==> HighlightedHour(r.date.value) == pick.h)
            && (pick.Minute? ==> MinuteHighlighted(r.date, pick.m))
            && (pick.AmPm? ==> HalfHighlighted(r.date, pick.half))
  {
  }

  /** The timer firing, the same in both pickers: write the debounced string
      (or `null`) when it differs from the committed one; patch the grid with
      it on success only. */
  function SettleDate(table: seq<Row>, grid: TrackingTable.Grid, target: CellTarget,
                      initial: Option<string>, e: DateEditor,
                      failure: Option<string>): (r: Synced)
    ensures e.debounced == initial ==> r.table == table && r.grid == grid && r.result.None?
    ensures e.debounced != initial ==>
      r.table == TrackerAction.UpdateApplication(table, target.trackerId, target.rowId, target.columnId,
                                                 TextOrNull(e.debounced), failure).table
    ensures e.debounced != initial && failure.None? ==>
      r.grid == TrackingTable.UpdateData(grid, target.rowIndex, target.columnId, TextOrNull(e.debounced))
    ensures failure.Some? ==> r.grid == grid && r.table == table
  {
    var sent := match DecideExact(initial, e.debounced)
                case None => None
                case Some(v) => Some(TextOrNull(v));
    CommitWrite(table, grid, target, sent, failure)
  }

  /** Clearing a date that was set sends `null`, which the grid then shows. */
  lemma ClearingDateSendsNull(e: DateEditor, initial: string)
    ensures SelectDateOnly(e, None).debounced != Some(initial)
    ensures DecideExact(Some(initial), SelectDateOnly(e, None).debounced) == Some(None)
  {
  }
}
