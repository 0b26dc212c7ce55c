/** The grid controller: the displayed rows, the total row count, a cache
    from page index to the rows fetched for it, and the current page index. */
module TrackingTable {
  import opened Values
  import TrackerAction

  /** `pagination.pageSize`. */
  const GridPageSize: nat := 5

  /** The divisor the insert cache patch uses; it is not the page size. */
  const InsertPatchDivisor: nat := 10

  datatype Grid = Grid(data: seq<Row>, totalRows: int, cache: map<int, seq<Row>>, pageIndex: int)

  /** `Math.ceil(a / b)` for a positive divisor. */
  function CeilDiv(a: int, b: nat): (r: int)
    requires b > 0
    ensures b * (r - 1) < a <= b * r
  {
    if a >= 0 then (a + b - 1) / b else -((-a) / b)
  }

  /** `Math.ceil(totalRows / pagination.pageSize)`: the fewest pages that hold
      `totalRows` rows. */
  function PageCount(totalRows: int): (pc: int)
    ensures totalRows >= 0 ==> pc >= 0
    ensures GridPageSize * (pc - 1) < totalRows <= GridPageSize * pc
  {
    CeilDiv(totalRows, GridPageSize)
  }

  /** The state right after mounting, before the first fetch. */
  function Init(initialData: seq<Row>, initialTotalRows: int): (g: Grid)
    ensures g.data == initialData && g.totalRows == initialTotalRows
    ensures g.cache == map[] && g.pageIndex == 0
  {
    Grid(initialData, initialTotalRows, map[], 0)
  }

  /** `updateData(rowIndex, columnId, value)`: patch one field of one displayed
      row. Nothing else changes, and an index outside the rows changes nothing. */
  function UpdateData(g: Grid, rowIndex: int, columnId: string, value: Value): (r: Grid)
    ensures |r.data| == |g.data|
    ensures forall i :: 0 <= i < |g.data| && i != rowIndex ==> r.data[i] == g.data[i]
    ensures 0 <= rowIndex < |g.data| ==> r.data[rowIndex] == SetField(g.data[rowIndex], columnId, value)
    ensures !(0 <= rowIndex < |g.data|) ==> r == g
    ensures r.cache == g.cache && r.totalRows == g.totalRows && r.pageIndex == g.pageIndex
  {
    var d := seq(|g.data|, i requires 0 <= i < |g.data| =>
      if i == rowIndex then SetField(g.data[i], columnId, value) else g.data[i]);
    if !(0 <= rowIndex < |g.data|) then
      assert d == g.data;
      g
    else
      g.(data := d)
  }

  /** How the awaited read ends: it throws, or it returns a page result (which
      for a backend error is the empty page with zero rows). */
  datatype FetchOutcome = Threw | Returned(result: TrackerAction.PageResult)

  /** `fetchData` asks the backend only when the page is not cached. A cached
      entry is an array, and every array is truthy, even an empty one. */
  predicate IssuesRequest(g: Grid, pageIndex: int) {
    pageIndex !in g.cache
  }

  /** `fetchData(pageIndex)`: serve the page from the cache, or fetch it and
      remember it. */
  function FetchData(g: Grid, pageIndex: int, outcome: FetchOutcome): (r: Grid)
    ensures r.pageIndex == g.pageIndex
    ensures !IssuesRequest(g, pageIndex) ==>
      r.data == g.cache[pageIndex] && r.cache == g.cache && r.totalRows == g.totalRows
    ensures IssuesRequest(g, pageIndex) && outcome.Returned? ==>
      && r.data == outcome.result.data
      && r.totalRows == outcome.result.totalRows
      && pageIndex in r.cache && r.cache[pageIndex] == outcome.result.data
      && r.cache.Keys == g.cache.Keys + {pageIndex}
      && forall q :: q in g.cache ==> r.cache[q] == g.cache[q]
    ensures IssuesRequest(g, pageIndex) && outcome.Threw? ==> r == g
  {
    if pageIndex in g.cache then
      g.(data := g.cache[pageIndex])
    else
      match outcome
      case Threw => g
      case Returned(result) =>
        g.(cache := g.cache[pageIndex := result.data], data := result.data,
           totalRows := result.totalRows)
  }

  /** The effect that runs on mount: fetch page 0. */
  function Mount(initialData: seq<Row>, initialTotalRows: int, outcome: FetchOutcome): (g: Grid)
    ensures g.pageIndex == 0
    ensures outcome.Returned? ==>
      && g.cache == map[0 := outcome.result.data] && g.data == outcome.result.data
      && g.totalRows == outcome.result.totalRows
    ensures outcome.Threw? ==> g == Init(initialData, initialTotalRows)
  {
    FetchData(Init(initialData, initialTotalRows), 0, outcome)
  }

  /** The four pagination buttons. */
  datatype Move = First | Prev | Next | Last

  /** Whether a button is enabled: first/previous unless on page 0, next/last
      unless on the last page or beyond; none while a fetch is in flight. */
  predicate Enabled(m: Move, pageIndex: int, pageCount: int, isLoading: bool) {
    && !isLoading
    && match m
       case First => pageIndex != 0
       case Prev => pageIndex != 0
       case Next => !(pageIndex >= pageCount - 1)
       case Last => !(pageIndex >= pageCount - 1)
  }

  /** The page index a button sets. */
  function Target(m: Move, pageIndex: int, pageCount: int): int {
    match m
    case First => 0
    case Prev => if 0 >= pageIndex - 1 then 0 else pageIndex - 1
    case Next => if pageCount - 1 <= pageIndex + 1 then pageCount - 1 else pageIndex + 1
    case Last => pageCount - 1
  }

  /** An enabled move from a valid index lands on a valid index different from
      the current one, so the fetch effect always runs; and from a page within
      `0..pageCount-1` it stays within that range. */
  lemma EnabledMoveStaysInRange(m: Move, pageIndex: int, pageCount: int)
    requires pageIndex >= 0
    requires Enabled(m, pageIndex, pageCount, false)
    ensures 0 <= Target(m, pageIndex, pageCount) != pageIndex
    ensures pageIndex <= pageCount - 1 ==> Target(m, pageIndex, pageCount) <= pageCount - 1
    ensures m == Next ==> Target(m, pageIndex, pageCount) == pageIndex + 1
    ensures m == Prev ==> Target(m, pageIndex, pageCount) == pageIndex - 1
  {
  }

  /** Next then previous comes back to the page it started from. */
  lemma NextThenPrev(pageIndex: int, pageCount: int)
    requires pageIndex >= 0 && Enabled(Next, pageIndex, pageCount, false)
    ensures Enabled(Prev, Target(Next, pageIndex, pageCount), pageCount, false)
    ensures Target(Prev, Target(Next, pageIndex, pageCount), pageCount) == pageIndex
  {
  }

  /** With no rows there is nowhere to go: every button is disabled on page 0. */
  lemma EmptyGridIsStuck(m: Move)
    ensures !Enabled(m, 0, PageCount(0), false)
  {
  }

  /** Pressing a button: a disabled one does nothing; an enabled one sets the
      page index, and the change of index runs `fetchData` for it. */
  function Navigate(g: Grid, m: Move, outcome: FetchOutcome): (r: Grid)
    ensures !Enabled(m, g.pageIndex, PageCount(g.totalRows), false) ==> r == g
    ensures Enabled(m, g.pageIndex, PageCount(g.totalRows), false) ==>
      var t := Target(m, g.pageIndex, PageCount(g.totalRows));
      && r.pageIndex == t
      && (t in g.cache ==> r.data == g.cache[t] && r.cache == g.cache && r.totalRows == g.totalRows)
      && (t !in g.cache && outcome.Threw? ==> r == g.(pageIndex := t))
      && (t !in g.cache && outcome.Returned? ==>
            && r.data == outcome.result.data && r.totalRows == outcome.result.totalRows
            && r.cache == g.cache[t := outcome.result.data])
  {
    var pc := PageCount(g.totalRows);
    if !Enabled(m, g.pageIndex, pc, false) then g
    else
      var t := Target(m, g.pageIndex, pc);
      if t == g.pageIndex then g.(pageIndex := t)
      else FetchData(g.(pageIndex := t), t, outcome)
  }

  /** `Math.ceil(updatedApplications.length / 10) - 1`: the cache entry the
      insert patch looks at, for `n` displayed rows after the insert. */
  function InsertPatchPage(n: nat): (p: int)
    ensures InsertPatchDivisor * p < n <= InsertPatchDivisor * (p + 1)
  {
    CeilDiv(n, InsertPatchDivisor) - 1
  }

  /** `onAddApplication(newApplications)`: prepend the new rows to the display
      and, if the entry `InsertPatchPage` picks is cached, append them to it.
      No other entry, and neither the row count nor the page index, changes. */
  function OnAddApplication(g: Grid, newApplications: seq<Row>): (r: Grid)
    ensures r.data == newApplications + g.data
    ensures r.totalRows == g.totalRows && r.pageIndex == g.pageIndex
    ensures r.cache.Keys == g.cache.Keys
    ensures forall q :: q in g.cache && q != InsertPatchPage(|r.data|) ==> r.cache[q] == g.cache[q]
    ensures InsertPatchPage(|r.data|) in g.cache ==>
      r.cache[InsertPatchPage(|r.data|)] == g.cache[InsertPatchPage(|r.data|)] + newApplications
  {
    var updated := newApplications + g.data;
    var last := InsertPatchPage(|updated|);
    var cache := if last in g.cache then g.cache[last := g.cache[last] + newApplications] else g.cache;
    g.(data := updated, cache := cache)
  }

  /** Inserting nothing (what a failed create hands over) changes no value. */
  lemma AddNothing(g: Grid)
    ensures OnAddApplication(g, []) == g
  {
    var r := OnAddApplication(g, []);
    var last := InsertPatchPage(|g.data|);
    assert [] + g.data == g.data;
    if last in g.cache {
      assert g.cache[last] + [] == g.cache[last];
      assert g.cache[last := g.cache[last]] == g.cache;
    }
  }

  /** A cached page whose rows are the server's rows for that page. */
  ghost predicate CacheFaithful(g: Grid, table: seq<Row>, trackerId: string) {
    forall p :: p in g.cache ==>
      p >= 0 && g.cache[p] == TrackerAction.GetAllApplications(table, trackerId, Some(p), None).data
  }

  /** Fetching with the server's own answer keeps the cache faithful, and the
      displayed rows are then the server's rows for the requested page. */
  lemma FetchKeepsCacheFaithful(g: Grid, table: seq<Row>, trackerId: string, p: nat)
    requires CacheFaithful(g, table, trackerId)
    ensures var r := FetchData(g, p, Returned(TrackerAction.GetAllApplications(table, trackerId, Some(p), None)));
            && CacheFaithful(r, table, trackerId)
            && r.data == TrackerAction.GetAllApplications(table, trackerId, Some(p), None).data
  {
  }

  /** Mounting with the server's answer for page 0 gives a faithful cache and
      shows the tracker's first page and its full row count. */
  lemma MountIsFaithful(initialData: seq<Row>, initialTotalRows: int, table: seq<Row>, trackerId: string)
    ensures var page := TrackerAction.GetAllApplications(table, trackerId, Some(0), None);
            var g := Mount(initialData, initialTotalRows, Returned(page));
            && CacheFaithful(g, table, trackerId)
            && g.data == page.data
            && g.totalRows == |TrackerAction.TrackerRows(table, trackerId)|
  {
  }

  /** Pressing an enabled button, with the server answering any fetch, keeps
      the cache faithful and shows the server's rows for the page moved to. */
  lemma NavigateKeepsCacheFaithful(g: Grid, m: Move, table: seq<Row>, trackerId: string)
    requires CacheFaithful(g, table, trackerId)
    requires g.pageIndex >= 0 && Enabled(m, g.pageIndex, PageCount(g.totalRows), false)
    ensures var t := Target(m, g.pageIndex, PageCount(g.totalRows));
            && 0 <= t
            && var page := TrackerAction.GetAllApplications(table, trackerId, Some(t), None);
               var r := Navigate(g, m, Returned(page));
               && r.pageIndex == t
               && CacheFaithful(r, table, trackerId)
               && r.data == page.data
  {
    EnabledMoveStaysInRange(m, g.pageIndex, PageCount(g.totalRows));
  }

  /** A failed read of an uncached page is cached as an empty page with zero
      rows, and from then on that page is served empty without asking again. */
  lemma FailedReadIsCached(g: Grid, table: seq<Row>, trackerId: string, p: nat, message: string)
    requires IssuesRequest(g, p)
    ensures var r := FetchData(g, p, Returned(TrackerAction.GetAllApplications(table, trackerId, Some(p), Some(message))));
            && r.data == [] && r.totalRows == 0
            && !IssuesRequest(r, p)
            && forall o :: FetchData(r, p, o).data == []
  {
  }

  /** An edit patches only the displayed rows, not the cache: fetching the
      current page again (for instance after going to another page and back)
      shows the row as it was before the edit. */
  lemma EditNotKeptInCache(g: Grid, rowIndex: int, columnId: string, value: Value,
                           outcome: FetchOutcome)
    requires g.pageIndex in g.cache && g.data == g.cache[g.pageIndex]
    requires 0 <= rowIndex < |g.data|
    ensures var edited := UpdateData(g, rowIndex, columnId, value);
            FetchData(edited, g.pageIndex, outcome).data[rowIndex] == g.data[rowIndex]
  {
  }

  /** The insert patch files the new rows at the END of a cached page while
      the display shows them at the FRONT: with page 0 displayed from the cache
      and at most ten rows in all, returning to page 0 afterwards shows the
      old rows followed by the new ones, and the display may hold more rows
      than a page. */
  lemma InsertPatchOrder(g: Grid, newApplications: seq<Row>, outcome: FetchOutcome)
    requires 0 in g.cache && g.data == g.cache[0]
    requires 0 < |newApplications| + |g.data| <= InsertPatchDivisor
    ensures var r := OnAddApplication(g, newApplications);
            && r.data == newApplications + g.data
            && FetchData(r, 0, outcome).data == g.data + newApplications
  {
    assert InsertPatchPage(|newApplications| + |g.data|) == 0;
  }

  /** With a full first page displayed and cached, one more row puts six rows
      on screen and six rows in the cached first page. */
  lemma InsertOverfillsPage(g: Grid, a: Row)
    requires 0 in g.cache && g.data == g.cache[0] && |g.data| == GridPageSize
    ensures |OnAddApplication(g, [a]).data| == GridPageSize + 1
    ensures |OnAddApplication(g, [a]).cache[0]| == GridPageSize + 1
  {
    assert InsertPatchPage(GridPageSize + 1) == 0;
  }
}
