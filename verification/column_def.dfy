/** The column definitions: the sortable headers, the cells that render a
    value or nothing, the location cell's blur patch, and hideability. */
module ColumnDef {
  import opened Values
  import opened ApplicationTypes
  import Numbers
  import TrackingTable
  import TrackerAction

  /** `column.getIsSorted()`: ascending, descending, or not sorted. */
  datatype SortState = Unsorted | Asc | Desc

  /** The argument each sortable header passes to `column.toggleSorting`:
      `true` when ascending, `undefined` (`None`) when descending, `false`
      otherwise. */
  function SortArgument(s: SortState): (arg: Option<bool>)
    ensures arg.None? <==> s == Desc
  {
    match s
    case Asc => Some(true)
    case Desc => None
    case Unsorted => Some(false)
  }

  /** The table library's `toggleSorting(desc)`, as this model assumes it:
      `false` sorts ascending, `true` descending, and `undefined` moves to the
      next state of the unsorted, ascending, descending cycle. */
  function LibraryToggle(current: SortState, desc: Option<bool>): SortState {
    match desc
    case Some(false) => Asc
    case Some(true) => Desc
    case None =>
      match current
      case Unsorted => Asc
      case Asc => Desc
      case Desc => Unsorted
  }

  /** One click on a sortable header. Every click changes the state. */
  function Click(s: SortState): (r: SortState)
    ensures r != s
  {
    LibraryToggle(s, SortArgument(s))
  }

  /** Three clicks from unsorted visit ascending, descending and unsorted, in
      that order; from any state, three clicks come back to it. */
  lemma ClickCycle(s: SortState)
    ensures Click(Unsorted) == Asc && Click(Asc) == Desc && Click(Desc) == Unsorted
    ensures Click(Click(Click(s))) == s
  {
  }

  datatype Icon = ArrowDown | ArrowUp | ArrowUpDown

  /** The header icon: down when descending, up when ascending, both otherwise.
      Different states show different icons. */
  function SortIcon(s: SortState): (i: Icon)
    ensures i == ArrowDown <==> s == Desc
    ensures i == ArrowUp <==> s == Asc
  {
    if s == Desc then ArrowDown else if s == Asc then ArrowUp else ArrowUpDown
  }

  /** A column header: a fixed title, or a title on a sort toggle button. */
  datatype Header = Plain(title: string) | Sortable(title: string)

  datatype Column = Column(id: string, header: Header, hideable: bool)

  /** The thirteen columns, in order. */
  const Columns: seq<Column> := [
    Column("company", Sortable("Company"), false),
    Column("position", Plain("Position"), true),
    Column("remote", Plain("Remote"), true),
    Column("location", Plain("Location"), true),
    Column("status", Plain("Status"), true),
    Column("applied_at", Sortable("Application Date"), true),
    Column("interview_at", Sortable("Interview Date"), true),
    Column("expected_salary", Plain("Exp. Salary"), true),
    Column("resume_version", Plain("Resume Version"), true),
    Column("hiring_manager", Plain("Hiring Manager"), true),
    Column("contact", Plain("Contact"), true),
    Column("link", Plain("Link"), true),
    Column("actions", Plain(""), false)
  ]

  /** A header click: sortable headers all apply the same `Click`; a plain
      header has no button and leaves the sort state alone. */
  function HeaderClick(c: Column, s: SortState): (r: SortState)
    ensures c.header.Sortable? ==> r == Click(s) && r != s
    ensures c.header.Plain? ==> r == s
  {
    if c.header.Sortable? then Click(s) else s
  }

  /** Exactly the company, application-date and interview-date columns sort,
      and exactly the company and actions columns cannot be hidden. */
  lemma ColumnFlags()
    ensures forall i :: 0 <= i < |Columns| ==>
      (Columns[i].header.Sortable? <==> Columns[i].id in {"company", "applied_at", "interview_at"})
    ensures forall i :: 0 <= i < |Columns| ==>
      (!Columns[i].hideable <==> Columns[i].id in {"company", "actions"})
  {
  }

  /** The entries of the column-visibility menu: the hideable columns, in order. */
  function HideableColumns(cs: seq<Column>): (ids: seq<string>)
    ensures |ids| <= |cs|
    ensures forall id :: id in ids <==> exists i :: 0 <= i < |cs| && cs[i].hideable && cs[i].id == id
  {
    if cs == [] then []
    else
      var rest := HideableColumns(cs[1..]);
      assert forall i :: 1 <= i < |cs| ==> cs[i] == cs[1..][i - 1];
      if cs[0].hideable then [cs[0].id] + rest else rest
  }

  /** The menu keeps the columns' order: listing a concatenation is listing
      the parts one after the other, and one column is listed exactly when it
      is hideable. */
  lemma {:induction false} HideableColumnsAppend(a: seq<Column>, b: seq<Column>)
    ensures HideableColumns(a + b) == HideableColumns(a) + HideableColumns(b)
  {
    if a != [] {
      assert (a + b)[0] == a[0];
      assert (a + b)[1..] == a[1..] + b;
      HideableColumnsAppend(a[1..], b);
    } else {
      assert a + b == b;
    }
  }

  lemma HideableColumnsSingle(c: Column)
    ensures HideableColumns([c]) == if c.hideable then [c.id] else []
  {
    assert [c][1..] == [];
  }

  /** The status badge: the status's label in its colour. */
  datatype Badge = Badge(text: string, colour: string)

  /** The status cell for the stored value: the badge of the key it names,
      which shows a label that identifies the key; a value that names no key
      has no label to show. */
  function StatusCell(v: Value): (b: Option<Badge>)
    ensures v.Text? && StatusFromName(v.s).Some? <==> b.Some?
    ensures b.Some? ==> StatusFromLabel(b.value.text) == StatusFromName(v.s)
    ensures b.Some? ==> b.value.colour == StatusColor(StatusFromName(v.s).value)
  {
    if v.Text? && StatusFromName(v.s).Some? then
      var k := StatusFromName(v.s).value;
      StatusNamesAndLabelsRoundTrip(k);
      Some(Badge(StatusLabel(k), StatusColor(k)))
    else
      None
  }

  /** What the salary cell shows: nothing, or an amount to format. */
  datatype SalaryRender = Blank | Amount(n: int)

  /** The salary cell: `parseInt` of the stored value (a missing field reads
      as `undefined`, hence `NaN`); `NaN` and 0 render nothing, any other
      whole number renders as an amount. */
  function SalaryCell(v: Option<Value>): (r: SalaryRender)
    ensures v.None? ==> r == Blank
    ensures v.Some? ==> (r == Blank <==> Numbers.ParseValue(v.value) in {None, Some(0)})
    ensures r.Amount? ==> r.n != 0 && v.Some? && Numbers.ParseValue(v.value) == Some(r.n)
  {
    match v
    case None => Blank
    case Some(x) =>
      match Numbers.ParseValue(x)
      case None => Blank
      case Some(n) => if n != 0 then Amount(n) else Blank
  }

  /** A stored number renders as itself, except 0 which renders nothing; and
      its decimal numeral stored as a string renders the same way. */
  lemma SalaryOfNumber(n: int)
    ensures SalaryCell(Some(Number(n))) == (if n == 0 then Blank else Amount(n))
    ensures SalaryCell(Some(Text(Numbers.IntToString(n)))) == SalaryCell(Some(Number(n)))
  {
    Numbers.ParseIntOfIntToString(n);
  }

  /** The salary example: a stored string "150000" renders the amount
      150000. */
  lemma SalaryOfSentNumeral()
    ensures SalaryCell(Some(Text("150000"))) == Amount(150000)
  {
    assert Numbers.NatToString(1) == "1";
    assert Numbers.NatToString(15) == "15";
    assert Numbers.NatToString(150) == "150";
    assert Numbers.NatToString(1500) == "1500";
    assert Numbers.NatToString(15000) == "15000";
    assert Numbers.NatToString(150000) == "150000";
    SalaryOfNumber(150000);
  }

  /** Text after the digits is ignored: "12abc" shows 12, and `null` shows nothing. */
  lemma SalaryOfTrailingText()
    ensures SalaryCell(Some(Text("12abc"))) == Amount(12)
    ensures SalaryCell(Some(Null)) == Blank
  {
    assert Numbers.NatToString(1) == "1";
    assert Numbers.NatToString(12) == "12";
    Numbers.ParseIntIgnoresTrailing(12, "abc");
    assert Numbers.NatToString(12) + "abc" == "12abc";
    SalaryOfNull();
  }

  lemma SalaryOfNull()
    ensures SalaryCell(Some(Null)) == Blank
  {
  }

  /** The applied and interview date cells: a formatted date for a truthy
      value, nothing for a missing, `null` or empty one. */
  function DateCellShows(v: Option<Value>): (shows: bool)
    ensures v.None? || v == Some(Null) || v == Some(Text("")) ==> !shows
    ensures v.Some? && v.value.Text? && v.value.s != "" ==> shows
  {
    v.Some? && Truthy(v.value)
  }

  /** The location cell's blur: patch the displayed row's location with the
      local value, through `updateData` and nothing else; no write is sent.
      The local value is the cell's own state: `useState` copies the row's
      location once, when the cell mounts, and only typing changes it. */
  function LocationBlur(g: TrackingTable.Grid, rowIndex: int, local: Value): (r: TrackingTable.Grid)
    ensures |r.data| == |g.data| && r.cache == g.cache && r.totalRows == g.totalRows
    ensures r.pageIndex == g.pageIndex
    ensures 0 <= rowIndex < |g.data| ==>
      "location" in r.data[rowIndex] && r.data[rowIndex]["location"] == local
    ensures 0 <= rowIndex < |g.data| ==>
      r.data[rowIndex].Keys == g.data[rowIndex].Keys + {"location"}
      && forall k :: k in g.data[rowIndex] && k != "location" ==> r.data[rowIndex][k] == g.data[rowIndex][k]
    ensures forall i :: 0 <= i < |g.data| && i != rowIndex ==> r.data[i] == g.data[i]
    ensures !(0 <= rowIndex < |g.data|) ==> r == g
  {
    TrackingTable.UpdateData(g, rowIndex, "location", local)
  }

  /** While the input still holds the location the cell mounted with, and
      that is still the row's location, a blur without typing leaves the grid
      as it was. */
  lemma BlurWithoutTyping(g: TrackingTable.Grid, rowIndex: int)
    requires 0 <= rowIndex < |g.data| && "location" in g.data[rowIndex]
    ensures LocationBlur(g, rowIndex, g.data[rowIndex]["location"]) == g
  {
    var r := LocationBlur(g, rowIndex, g.data[rowIndex]["location"]);
    assert r.data[rowIndex] == g.data[rowIndex];
    assert r.data == g.data;
  }

  /** Cells are keyed by row position, so a cell survives a page change with
      the local value it mounted with. After a fetch shows a page whose row at
      that position has another location, a blur without typing writes the
      old page's location over it. */
  lemma StaleBlurAfterFetch(g: TrackingTable.Grid, p: int, page: TrackerAction.PageResult, rowIndex: int)
    requires 0 <= rowIndex < |g.data| && "location" in g.data[rowIndex]
    requires p !in g.cache
    requires rowIndex < |page.data| && "location" in page.data[rowIndex]
    requires page.data[rowIndex]["location"] != g.data[rowIndex]["location"]
    ensures var shown := TrackingTable.FetchData(g, p, TrackingTable.Returned(page));
            var r := LocationBlur(shown, rowIndex, g.data[rowIndex]["location"]);
            && shown.data[rowIndex]["location"] == page.data[rowIndex]["location"]
            && r.data[rowIndex]["location"] == g.data[rowIndex]["location"]
            && r != shown
  {
    var shown := TrackingTable.FetchData(g, p, TrackingTable.Returned(page));
    var r := LocationBlur(shown, rowIndex, g.data[rowIndex]["location"]);
    assert r.data[rowIndex]["location"] != shown.data[rowIndex]["location"];
  }
}
