/** The server actions over the `applications` table: the paged read, the
    insert and the single-column update. The table is an abstract sequence of
    rows, newest first (the order `created_at` descending gives); whether the
    backend reports an error is a parameter. */
module TrackerAction {
  import opened Values
  import opened ApplicationTypes

  /** The page size of the paged read. */
  const PageSize: nat := 5

  /** `pageIndex ? pageIndex * pageSize : 0`: the first position of a page. */
  function RangeFrom(pageIndex: Option<nat>): (from: nat)
    ensures from % PageSize == 0
    ensures pageIndex.Some? ==> from / PageSize == pageIndex.value
    ensures pageIndex.None? ==> from == 0
  {
    match pageIndex
    case None => 0
    case Some(p) => if p == 0 then 0 else p * PageSize
  }

  /** `from + pageSize - 1`: the last position of a page, inclusive. */
  function RangeTo(pageIndex: Option<nat>): (to: nat)
    ensures to - RangeFrom(pageIndex) + 1 == PageSize
  {
    RangeFrom(pageIndex) + PageSize - 1
  }

  /** An absent page index reads the same range as page 0. */
  lemma AbsentPageIsFirst()
    ensures RangeFrom(None) == RangeFrom(Some(0)) && RangeTo(None) == RangeTo(Some(0))
  {
  }

  /** Consecutive pages are contiguous: each starts right after the previous ends. */
  lemma PagesContiguous(p: nat)
    ensures RangeTo(Some(p)) + 1 == RangeFrom(Some(p + 1))
  {
  }

  /** Every position belongs to exactly one page, the one numbered `n / 5`. */
  lemma PagesPartition(n: nat, p: nat)
    ensures RangeFrom(Some(n / PageSize)) <= n <= RangeTo(Some(n / PageSize))
    ensures RangeFrom(Some(p)) <= n <= RangeTo(Some(p)) ==> p == n / PageSize
  {
  }

  predicate BelongsTo(row: Row, trackerId: string) {
    "tracker_id" in row && row["tracker_id"] == Text(trackerId)
  }

  /** `.eq("tracker_id", trackerId)` over the table: the tracker's rows, in table order. */
  function TrackerRows(table: seq<Row>, trackerId: string): (rows: seq<Row>)
    ensures |rows| <= |table|
    ensures forall r :: r in rows <==> r in table && BelongsTo(r, trackerId)
  {
    if table == [] then []
    else if BelongsTo(table[0], trackerId) then [table[0]] + TrackerRows(table[1..], trackerId)
    else TrackerRows(table[1..], trackerId)
  }

  /** The filter keeps the table's order and multiplicity: filtering a
      concatenation is concatenating the filtered parts, and one row is kept
      exactly when it belongs to the tracker. Together these determine
      `TrackerRows` on every table. */
  lemma {:induction false} TrackerRowsAppend(a: seq<Row>, b: seq<Row>, trackerId: string)
    ensures TrackerRows(a + b, trackerId) == TrackerRows(a, trackerId) + TrackerRows(b, trackerId)
  {
    if a != [] {
      assert (a + b)[0] == a[0];
      assert (a + b)[1..] == a[1..] + b;
      TrackerRowsAppend(a[1..], b, trackerId);
    } else {
      assert a + b == b;
    }
  }

  lemma TrackerRowsSingle(row: Row, trackerId: string)
    ensures TrackerRows([row], trackerId) == if BelongsTo(row, trackerId) then [row] else []
  {
    assert [row][1..] == [];
  }

  /** What the backend client hands back for a read. */
  datatype ReadResponse = ReadFailed(message: string) | ReadOk(rows: seq<Row>, count: Option<int>)

  /** `{ data, totalRows }`. */
  datatype PageResult = PageResult(data: seq<Row>, totalRows: int)

  function Min(a: int, b: int): int {
    if a <= b then a else b
  }

  /** The backend's successful answer to the paged query with an exact count:
      positions `from..to` of the tracker's rows that exist, and how many rows
      the tracker has. */
  function Query(table: seq<Row>, trackerId: string, from: nat, to: nat): (resp: ReadResponse)
    ensures resp.ReadOk? && resp.count == Some(|TrackerRows(table, trackerId)|)
    ensures var rows := TrackerRows(table, trackerId);
      resp.rows == if from < |rows| && from <= to + 1 then rows[from..Min(to + 1, |rows|)] else []
  {
    var rows := TrackerRows(table, trackerId);
    var lo := Min(from, |rows|);
    var hi := Min(to + 1, |rows|);
    ReadOk(if lo <= hi then rows[lo..hi] else [], Some(|rows|))
  }

  /** The error folding of `getAllApplications`: a read error becomes an empty
      page with zero rows, and a missing count becomes zero. */
  function FoldRead(resp: ReadResponse): (r: PageResult)
    ensures resp.ReadFailed? ==> r.data == [] && r.totalRows == 0
    ensures resp.ReadOk? ==> r.data == resp.rows
    ensures resp.ReadOk? && resp.count.None? ==> r.totalRows == 0
    ensures resp.ReadOk? && resp.count.Some? ==> r.totalRows == resp.count.value
  {
    match resp
    case ReadFailed(_) => PageResult([], 0)
    case ReadOk(rows, count) =>
      PageResult(rows, match count case Some(c) => (if c != 0 then c else 0) case None => 0)
  }

  /** `getAllApplications(trackerId, pageIndex)`. `failure` is the backend's
      error message when the read fails. */
  function GetAllApplications(table: seq<Row>, trackerId: string, pageIndex: Option<nat>,
                              failure: Option<string>): (r: PageResult)
    ensures failure.Some? ==> r == PageResult([], 0)
    ensures failure.None? ==> r.totalRows == |TrackerRows(table, trackerId)|
    ensures failure.None? ==>
      var rows := TrackerRows(table, trackerId);
      var from := RangeFrom(pageIndex);
      r.data == if from <= |rows| then rows[from..Min(from + PageSize, |rows|)] else []
    ensures |r.data| <= PageSize
    ensures forall row :: row in r.data ==> row in table && BelongsTo(row, trackerId)
  {
    var resp := if failure.Some? then ReadFailed(failure.value)
                else Query(table, trackerId, RangeFrom(pageIndex), RangeTo(pageIndex));
    FoldRead(resp)
  }

  /** The rows a successful read returns, as a function of the page index. */
  function PageReader(table: seq<Row>, trackerId: string): nat -> seq<Row> {
    (p: nat) => GetAllApplications(table, trackerId, Some(p), None).data
  }

  /** `f(0)`, ..., `f(k - 1)`, one after another. */
  function Concat<T>(f: nat -> seq<T>, k: nat): seq<T> {
    if k == 0 then [] else Concat(f, k - 1) + f(k - 1)
  }

  /** Pages `0..k-1` of a successful read, one after another. */
  function PagesUpTo(table: seq<Row>, trackerId: string, k: nat): seq<Row> {
    Concat(PageReader(table, trackerId), k)
  }

  /** Page `p` of a successful read is the slice of the tracker's rows from
      position `5p`, clipped to the rows that exist. */
  lemma PageSlice(table: seq<Row>, trackerId: string, p: nat)
    ensures var rows := TrackerRows(table, trackerId);
            GetAllApplications(table, trackerId, Some(p), None).data
              == rows[Min(p * PageSize, |rows|)..Min(p * PageSize + PageSize, |rows|)]
  {
    assert RangeFrom(Some(p)) == p * PageSize;
  }

  /** Block `p` of five of `s`: the elements from position `5p` up to
      `5p + 5`, clipped to the elements that exist. */
  function Block<T>(s: seq<T>, p: nat): (b: seq<T>)
    ensures |b| <= PageSize
  {
    s[Min(p * PageSize, |s|)..Min(p * PageSize + PageSize, |s|)]
  }

  /** The first `k` blocks of five of `s`, one after another. */
  function Blocks<T>(s: seq<T>, k: nat): seq<T> {
    if k == 0 then [] else Blocks(s, k - 1) + Block(s, k - 1)
  }

  /** The first `k` blocks of five are the first `5k` elements. */
  lemma {:induction false} BlocksArePrefix<T>(s: seq<T>, k: nat)
    ensures Blocks(s, k) == s[..Min(k * PageSize, |s|)]
  {
    if k > 0 {
      BlocksArePrefix(s, k - 1);
      var lo := Min((k - 1) * PageSize, |s|);
      var hi := Min((k - 1) * PageSize + PageSize, |s|);
      assert (k - 1) * PageSize + PageSize == k * PageSize;
      PrefixThenSlice(s, lo, hi);
    }
  }

  lemma PrefixThenSlice<T>(s: seq<T>, lo: nat, hi: nat)
    requires lo <= hi <= |s|
    ensures s[..lo] + s[lo..hi] == s[..hi]
  {
  }

  lemma PageIsBlock(table: seq<Row>, trackerId: string, p: nat)
    ensures PageReader(table, trackerId)(p) == Block(TrackerRows(table, trackerId), p)
  {
    PageSlice(table, trackerId, p);
  }

  /** When `f` yields the blocks of five of `s`, its first `k` values one
      after another are the first `k` blocks. */
  lemma {:induction false} ConcatOfBlocks<T>(f: nat -> seq<T>, s: seq<T>, k: nat)
    requires forall p: nat :: f(p) == Block(s, p)
    ensures Concat(f, k) == Blocks(s, k)
  {
    if k > 0 {
      ConcatOfBlocks(f, s, k - 1);
    }
  }

  /** Page by page, the successful reads are the blocks of five of the
      tracker's rows. */
  lemma PagesAreBlocks(table: seq<Row>, trackerId: string, k: nat)
    ensures PagesUpTo(table, trackerId, k) == Blocks(TrackerRows(table, trackerId), k)
  {
    var rows := TrackerRows(table, trackerId);
    forall p: nat
      ensures PageReader(table, trackerId)(p) == Block(rows, p)
    {
      PageIsBlock(table, trackerId, p);
    }
    ConcatOfBlocks(PageReader(table, trackerId), rows, k);
  }

  /** Reading pages 0, 1, ... in turn visits the tracker's rows in order, each
      exactly once: the first `k` pages are the first `5k` rows. */
  lemma PagesCoverTracker(table: seq<Row>, trackerId: string, k: nat)
    ensures var rows := TrackerRows(table, trackerId);
            PagesUpTo(table, trackerId, k) == rows[..Min(k * PageSize, |rows|)]
  {
    PagesAreBlocks(table, trackerId, k);
    BlocksArePrefix(TrackerRows(table, trackerId), k);
  }

  /** The row an insert creates: the four given fields, the server-assigned
      id, and nothing else. */
  function NewApplication(newId: string, trackerId: string, company: string,
                          position: string, status: StatusKey): Application
  {
    Application(newId, company, position, None, None, status, None, None, None,
                None, None, None, None, trackerId)
  }

  datatype CreateResult = CreateResult(table: seq<Row>, returned: seq<Row>)

  /** `createApplication({ trackerId, company, position, status })`. The new row
      is the newest, so it goes first; the backend assigns `newId`. An error
      returns `[]` and leaves the table alone. */
  function CreateApplication(table: seq<Row>, trackerId: string, company: string,
                             position: string, status: StatusKey, newId: string,
                             failure: Option<string>): (r: CreateResult)
    ensures failure.Some? ==> r.returned == [] && r.table == table
    ensures failure.None? ==> |r.returned| == 1 && r.table == r.returned + table
    ensures failure.None? ==>
      FromRow(r.returned[0]) == Some(NewApplication(newId, trackerId, company, position, status))
  {
    if failure.Some? then
      CreateResult(table, [])
    else
      var row := ToRow(NewApplication(newId, trackerId, company, position, status));
      FromRowToRow(NewApplication(newId, trackerId, company, position, status));
      CreateResult([row] + table, [row])
  }

  /** After a successful insert, the first page of the tracker starts with the
      new row and the tracker counts one more row. */
  lemma CreateThenFirstPage(table: seq<Row>, trackerId: string, company: string,
                            position: string, status: StatusKey, newId: string)
    ensures var c := CreateApplication(table, trackerId, company, position, status, newId, None);
            var before := GetAllApplications(table, trackerId, Some(0), None);
            var after := GetAllApplications(c.table, trackerId, Some(0), None);
            && after.totalRows == before.totalRows + 1
            && |after.data| > 0 && after.data[0] == c.returned[0]
  {
    var c := CreateApplication(table, trackerId, company, position, status, newId, None);
    var row := c.returned[0];
    assert c.table == [row] + table;
    assert BelongsTo(row, trackerId);
    TrackerRowsPrepend(row, table, trackerId);
    FirstPageStartsWithFirstRow(c.table, trackerId);
  }

  /** A row of the tracker put in front of the table comes first among the
      tracker's rows. */
  lemma TrackerRowsPrepend(row: Row, table: seq<Row>, trackerId: string)
    requires BelongsTo(row, trackerId)
    ensures TrackerRows([row] + table, trackerId) == [row] + TrackerRows(table, trackerId)
  {
    assert ([row] + table)[1..] == table;
  }

  /** Page 0 of a successful read starts with the tracker's first row. */
  lemma FirstPageStartsWithFirstRow(table: seq<Row>, trackerId: string)
    ensures var rows := TrackerRows(table, trackerId);
            var page := GetAllApplications(table, trackerId, Some(0), None);
            && page.totalRows == |rows|
            && (|rows| > 0 ==> |page.data| > 0 && page.data[0] == rows[0])
  {
    PageSlice(table, trackerId, 0);
  }

  /** The result of `updateApplication`. */
  datatype UpdateResult = UpdateOk | UpdateErr(error: string)

  /** The rows an update touches: `.eq("id", rowId).eq("tracker_id", trackerId)`. */
  predicate Targets(row: Row, trackerId: string, rowId: string) {
    "id" in row && row["id"] == Text(rowId) && BelongsTo(row, trackerId)
  }

  datatype UpdateOutcome = UpdateOutcome(table: seq<Row>, result: UpdateResult)

  /** `updateApplication({ trackerId, rowId, columnId, value })`: set column
      `columnId` to `value` in the targeted rows. An error is reported with its
      message, or "Internal Server Error" when the message is empty, and
      changes nothing. The value is stored as sent: the conversion a typed
      column would apply is not part of the model. */
  function UpdateApplication(table: seq<Row>, trackerId: string, rowId: string,
                             columnId: string, value: Value,
                             failure: Option<string>): (r: UpdateOutcome)
    ensures failure.Some? ==> r.table == table && r.result.UpdateErr?
    ensures failure.Some? && failure.value != "" ==> r.result.error == failure.value
    ensures failure.Some? && failure.value == "" ==> r.result.error == "Internal Server Error"
    ensures failure.None? ==> r.result == UpdateOk
    ensures |r.table| == |table|
    ensures forall i :: 0 <= i < |table| && !Targets(table[i], trackerId, rowId) ==>
      r.table[i] == table[i]
    ensures forall i :: 0 <= i < |table| && Targets(table[i], trackerId, rowId) && failure.None? ==>
      r.table[i] == SetField(table[i], columnId, value)
  {
    if failure.Some? then
      UpdateOutcome(table, UpdateErr(if failure.value != "" then failure.value else "Internal Server Error"))
    else
      var t := seq(|table|, i requires 0 <= i < |table| =>
        if Targets(table[i], trackerId, rowId) then SetField(table[i], columnId, value) else table[i]);
      UpdateOutcome(t, UpdateOk)
  }

  /** The paging example: a tracker with twelve applications has a first page
      of five rows and a count of twelve, and a third page of two rows. */
  lemma TwelveRowsExample(table: seq<Row>, trackerId: string)
    requires |TrackerRows(table, trackerId)| == 12
    ensures GetAllApplications(table, trackerId, Some(0), None).totalRows == 12
    ensures |GetAllApplications(table, trackerId, Some(0), None).data| == 5
    ensures |GetAllApplications(table, trackerId, Some(2), None).data| == 2
    ensures GetAllApplications(table, trackerId, Some(3), None).data == []
  {
    assert RangeFrom(Some(2)) == 10;
    assert RangeFrom(Some(3)) == 15;
  }

  /** Because values are stored as sent, a salary written as text leaves a
      row that no longer reads as an application, whose salary is a number. */
  lemma SalaryTextUnreadable(a: Application)
    ensures var u := UpdateApplication([ToRow(a)], a.trackerId, a.id, "expected_salary", Text("150000"), None);
            |u.table| == 1 && FromRow(u.table[0]).None?
  {
    var u := UpdateApplication([ToRow(a)], a.trackerId, a.id, "expected_salary", Text("150000"), None);
    assert Targets([ToRow(a)][0], a.trackerId, a.id);
    TextSalaryUnreadable(u.table[0]);
  }

  /** A row whose salary holds text does not read as an application. */
  lemma TextSalaryUnreadable(row: Row)
    requires "expected_salary" in row && row["expected_salary"].Text?
    ensures FromRow(row).None?
  {
    assert OptionalNumber(row, "expected_salary").None?;
  }
}
