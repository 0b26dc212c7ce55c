/** The add-application sheet: the form record, its change handlers, and
    the submit that inserts a row and hands the result to the grid. */
module AddApplication {
  import opened Values
  import opened ApplicationTypes
  import TrackerAction
  import TrackingTable

  datatype Form = Form(trackerId: string, company: string, position: string, status: StatusKey)

  /** The form when the sheet is first created. */
  function InitialForm(trackerId: string): (f: Form)
    ensures f.trackerId == trackerId && f.company == "" && f.position == ""
    ensures f.status == InProgress
  {
    Form(trackerId, "", "", InProgress)
  }

  /** The ids of the form's text inputs. */
  predicate IsInputId(id: string) {
    id == "company" || id == "position"
  }

  /** `handleChange`: the input's value goes to the field named by its id;
      every other field keeps its value. */
  function HandleChange(f: Form, id: string, value: string): (r: Form)
    requires IsInputId(id)
    ensures r.trackerId == f.trackerId && r.status == f.status
    ensures id == "company" ==> r.company == value && r.position == f.position
    ensures id == "position" ==> r.position == value && r.company == f.company
  {
    if id == "company" then f.(company := value) else f.(position := value)
  }

  /** `handleSelectChange("status", k)`: only the status changes. */
  function HandleSelectChange(f: Form, k: StatusKey): (r: Form)
    ensures r.status == k
    ensures r.trackerId == f.trackerId && r.company == f.company && r.position == f.position
  {
    f.(status := k)
  }

  /** The sheet: the form and whether the sheet is open. */
  datatype Sheet = Sheet(form: Form, isOpen: bool)

  /** How the awaited `createApplication` call ends: it throws, or it returns
      (with the backend's error message when the insert failed). */
  datatype SubmitOutcome = Threw | Completed(failure: Option<string>)

  datatype Submitted = Submitted(sheet: Sheet, grid: TrackingTable.Grid, table: seq<Row>)

  /** The form after a submit that did not throw. Its status is "NotStarted",
      not the initial "InProgress". */
  function ResetForm(trackerId: string): (f: Form)
    ensures f == InitialForm(trackerId).(status := NotStarted)
  {
    Form(trackerId, "", "", NotStarted)
  }

  /** `handleSubmit`: send the form as it is, with no check for empty fields,
      and hand whatever comes back, `[]` on a backend error, to the grid's
      `onAddApplication`; then reset the form and close the sheet. A throw
      changes nothing. `newId` is the id the backend assigns. */
  function HandleSubmit(trackerId: string, s: Sheet, grid: TrackingTable.Grid, table: seq<Row>,
                        newId: string, outcome: SubmitOutcome): (r: Submitted)
    ensures outcome.Threw? ==> r == Submitted(s, grid, table)
    ensures outcome.Completed? ==> r.sheet == Sheet(ResetForm(trackerId), false)
    ensures outcome.Completed? ==>
      var c := TrackerAction.CreateApplication(table, s.form.trackerId, s.form.company,
                                               s.form.position, s.form.status, newId,
                                               outcome.failure);
      r.table == c.table && r.grid == TrackingTable.OnAddApplication(grid, c.returned)
  {
    match outcome
    case Threw => Submitted(s, grid, table)
    case Completed(failure) =>
      var c := TrackerAction.CreateApplication(table, s.form.trackerId, s.form.company,
                                               s.form.position, s.form.status, newId, failure);
      Submitted(Sheet(ResetForm(trackerId), false), TrackingTable.OnAddApplication(grid, c.returned), c.table)
  }

  /** A failed insert still resets and closes the sheet, and leaves the grid
      and the table as they were. */
  lemma FailedInsertResetsForm(trackerId: string, s: Sheet, grid: TrackingTable.Grid,
                               table: seq<Row>, newId: string, message: string)
    ensures var r := HandleSubmit(trackerId, s, grid, table, newId, Completed(Some(message)));
            && r.sheet == Sheet(ResetForm(trackerId), false) && !r.sheet.isOpen
            && r.grid == grid && r.table == table
  {
    TrackingTable.AddNothing(grid);
  }

  /** A successful insert shows the new row first in the grid, and the same
      row first on the tracker's first page at the backend; the row holds
      exactly the form's fields, blank ones included. */
  lemma SuccessfulInsertShowsRow(s: Sheet, grid: TrackingTable.Grid, table: seq<Row>, newId: string)
    ensures var r := HandleSubmit(s.form.trackerId, s, grid, table, newId, Completed(None));
            var page := TrackerAction.GetAllApplications(r.table, s.form.trackerId, Some(0), None);
            && |r.grid.data| == |grid.data| + 1
            && |page.data| > 0 && r.grid.data[0] == page.data[0]
            && FromRow(r.grid.data[0]) == Some(TrackerAction.NewApplication(
                 newId, s.form.trackerId, s.form.company, s.form.position, s.form.status))
  {
    TrackerAction.CreateThenFirstPage(table, s.form.trackerId, s.form.company, s.form.position,
                                      s.form.status, newId);
  }
}
