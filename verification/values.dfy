/** Dynamic values and rows as the grid and the backend client see them.

    A row of the `applications` table travels through the program as a plain
    JavaScript object whose fields are patched with computed keys
    (`{ ...row, [columnId]: value }`), so a row is modelled as a map from
    column name to value rather than as a fixed record. */
module Values {

  datatype Option<+T> = None | Some(value: T)

  /** The values a cell can hold or an editor can send: `string | number | null`.
      Numbers are whole numbers here; the only numeric column is a salary. */
  datatype Value = Null | Text(s: string) | Number(n: int)

  type Row = map<string, Value>

  /** JavaScript truthiness of a value: `null`, `""` and `0` are falsy. */
  predicate Truthy(v: Value) {
    match v
    case Null => false
    case Text(s) => s != ""
    case Number(n) => n != 0
  }

  /** `{ ...row, [columnId]: value }`: the copy of `row` whose field `columnId`
      is `value`, adding the key if the row did not have it. */
  function SetField(row: Row, columnId: string, value: Value): (r: Row)
    ensures columnId in r && r[columnId] == value
    ensures r.Keys == row.Keys + {columnId}
    ensures forall k :: k in row && k != columnId ==> r[k] == row[k]
  {
    row[columnId := value]
  }

  /** Text values and null are the only values `OptionalText` produces. */
  function TextOrNull(o: Option<string>): (v: Value)
    ensures v.Null? <==> o.None?
    ensures o.Some? ==> v == Text(o.value)
  {
    match o
    case None => Null
    case Some(s) => Text(s)
  }
}
