/**
 * `impl_table_auto!`: the `Table` implementation generated from a struct,
 * its table name and its ordered list of data fields. The struct is always
 * `id`, the data fields, `created_at`, `updated_at`; the generated code
 * writes by column name and reads a row back by position in that order.
 */
module TableMacro {
  import opened Wrappers
  import opened Strings

  /** A value SQLite stores and returns (these tables use no reals or blobs). */
  datatype SqlValue = Null | Integer(i: int) | Text(s: string)

  /** The Rust type of a field: `String`, `i64` or `i32`, wrapped in `Option` when nullable. */
  datatype Kind = TextKind | I64Kind | I32Kind

  datatype Field = Field(name: string, kind: Kind, nullable: bool)

  /** The macro's arguments: the table name and the data fields in the order listed. */
  datatype TableSpec = TableSpec(table: string, fields: seq<Field>)

  /** A struct value: its id, one value per data field in field order, its two timestamps. */
  datatype Record = Record(id: string, values: seq<SqlValue>, createdAt: int, updatedAt: int)

  const I64_MIN: int := -0x8000_0000_0000_0000
  const I64_MAX: int := 0x7fff_ffff_ffff_ffff
  const I32_MIN: int := -0x8000_0000
  const I32_MAX: int := 0x7fff_ffff

  const PRIMARY_KEY: string := "id"
  const ID_FIELD := Field(PRIMARY_KEY, TextKind, false)
  const CREATED_FIELD := Field("created_at", I64Kind, false)
  const UPDATED_FIELD := Field("updated_at", I64Kind, false)

  /** What `row.get::<T>` accepts for a field of type `T`: NULL only for an `Option`, integers in range. */
  predicate Fits(v: SqlValue, f: Field)
  {
    match v
    case Null => f.nullable
    case Integer(i) => (f.kind == I64Kind && I64_MIN <= i <= I64_MAX) || (f.kind == I32Kind && I32_MIN <= i <= I32_MAX)
    case Text(_) => f.kind == TextKind
  }

  /** A value the struct can hold: one value of the right type per field and 64-bit timestamps. */
  predicate WellFormed(spec: TableSpec, r: Record)
  {
    && |r.values| == |spec.fields|
    && (forall i :: 0 <= i < |r.values| ==> Fits(r.values[i], spec.fields[i]))
    && I64_MIN <= r.createdAt <= I64_MAX && I64_MIN <= r.updatedAt <= I64_MAX
  }

  function Names(fields: seq<Field>): (r: seq<string>)
    ensures |r| == |fields| && forall i :: 0 <= i < |fields| ==> r[i] == fields[i].name
  {
    seq(|fields|, i requires 0 <= i < |fields| => fields[i].name)
  }

  /** `primary_key_value`. */
  function PrimaryKeyValue(r: Record): string
  {
    r.id
  }

  /** `insert_columns`: the field names, in field order. */
  function InsertColumns(spec: TableSpec): seq<string>
  {
    Names(spec.fields)
  }

  /** `update_columns`: the same list. */
  function UpdateColumns(spec: TableSpec): seq<string>
  {
    Names(spec.fields)
  }

  /** `to_insert_params`: the field values, in field order. */
  function ToInsertParams(r: Record): seq<SqlValue>
  {
    r.values
  }

  /** `to_update_params`: the same values. */
  function ToUpdateParams(r: Record): seq<SqlValue>
  {
    r.values
  }

  /** `all_columns`: the key, the data columns, then the two timestamps. */
  function AllColumns(spec: TableSpec): (cols: seq<string>)
    ensures |cols| == |spec.fields| + 3
    ensures cols[0] == PRIMARY_KEY
    ensures cols[1..|spec.fields| + 1] == InsertColumns(spec)
    ensures cols[|spec.fields| + 1] == "created_at" && cols[|spec.fields| + 2] == "updated_at"
  {
    var d := Names(spec.fields);
    var cols := [PRIMARY_KEY] + d + ["created_at", "updated_at"];
    assert cols[1..|d| + 1] == d;
    cols
  }

  /**
   * The insert and update lists agree, and each holds exactly one value per
   * data column, matched by position.
   */
  lemma ParamsMatchColumns(spec: TableSpec, r: Record)
    requires WellFormed(spec, r)
    ensures InsertColumns(spec) == UpdateColumns(spec) && ToInsertParams(r) == ToUpdateParams(r)
    ensures |ToInsertParams(r)| == |InsertColumns(spec)|
    ensures forall i :: 0 <= i < |ToInsertParams(r)| ==>
      Fits(ToInsertParams(r)[i], spec.fields[i]) && InsertColumns(spec)[i] == spec.fields[i].name
  {
  }

  /** `column_indices`: the const loop that numbers the `|fields| + 3` columns `0, 1, 2, ...`. */
  method ColumnIndices(spec: TableSpec) returns (indices: seq<nat>)
    ensures |indices| == |AllColumns(spec)|
    ensures forall i :: 0 <= i < |indices| ==> indices[i] == i
  {
    var n := |spec.fields|;
    var arr := new nat[n + 3];
    arr[0] := 0;
    var i := 1;
    while i <= n
      invariant 1 <= i <= n + 1
      invariant forall k :: 0 <= k < i ==> arr[k] == k
    {
      arr[i] := i;
      i := i + 1;
    }
    arr[n + 1] := n + 1;
    arr[n + 2] := n + 2;
    indices := arr[..];
  }

  // ---------------------------------------------------------------------------
  // Reading a row by position

  /** `row.get(idx)` for a field of type `f`. */
  function GetColumn(row: seq<SqlValue>, idx: nat, f: Field): (r: Result<SqlValue>)
    ensures r.Ok? <==> idx < |row| && Fits(row[idx], f)
    ensures r.Ok? ==> r.value == row[idx]
  {
    if idx >= |row| then Err("Invalid column index: " + NatToString(idx))
    else if !Fits(row[idx], f) then Err("Invalid column type at index: " + NatToString(idx))
    else Ok(row[idx])
  }

  /** The data fields read in turn from position `start` on; the first failing read is the error. */
  function ReadFields(fields: seq<Field>, row: seq<SqlValue>, start: nat): (r: Result<seq<SqlValue>>)
    requires start <= |row|
    ensures r.Ok? <==> start + |fields| <= |row| && forall i :: 0 <= i < |fields| ==> Fits(row[start + i], fields[i])
    ensures r.Ok? ==> r.value == row[start..start + |fields|]
    decreases |fields|
  {
    if fields == [] then Ok([])
    else match GetColumn(row, start, fields[0])
      case Err(m) => Err(m)
      case Ok(v) =>
        match ReadFields(fields[1..], row, start + 1)
        case Err(m) =>
          assert forall i :: 1 <= i < |fields| ==> fields[i] == fields[1..][i - 1];
          Err(m)
        case Ok(vs) =>
          assert forall i :: 1 <= i < |fields| ==> fields[i] == fields[1..][i - 1];
          Ok([v] + vs)
  }

  /** Whether `from_row` succeeds: the key, each field and both timestamps readable at their positions. */
  predicate Readable(spec: TableSpec, row: seq<SqlValue>)
  {
    var n := |spec.fields|;
    && |row| >= n + 3
    && Fits(row[0], ID_FIELD)
    && (forall i :: 0 <= i < n ==> Fits(row[1 + i], spec.fields[i]))
    && Fits(row[n + 1], CREATED_FIELD) && Fits(row[n + 2], UPDATED_FIELD)
  }

  /** `from_row`: id at 0, the fields at 1..n, `created_at` at n+1, `updated_at` at n+2; extra columns are ignored. */
  function FromRow(spec: TableSpec, row: seq<SqlValue>): (r: Result<Record>)
    ensures r.Ok? <==> Readable(spec, row)
    ensures r.Ok? ==> var n := |spec.fields|;
      r.value == Record(row[0].s, row[1..n + 1], row[n + 1].i, row[n + 2].i)
  {
    var n := |spec.fields|;
    match GetColumn(row, 0, ID_FIELD)
    case Err(m) => Err(m)
    case Ok(id) =>
      match ReadFields(spec.fields, row, 1)
      case Err(m) => Err(m)
      case Ok(values) =>
        match GetColumn(row, n + 1, CREATED_FIELD)
        case Err(m) => Err(m)
        case Ok(created) =>
          match GetColumn(row, n + 2, UPDATED_FIELD)
          case Err(m) => Err(m)
          case Ok(updated) => Ok(Record(id.s, values, created.i, updated.i))
  }

  /** The row `from_row` expects for a record: its values in `all_columns` order. */
  function RowOf(r: Record): (row: seq<SqlValue>)
    ensures |row| == |r.values| + 3
  {
    [Text(r.id)] + r.values + [Integer(r.createdAt), Integer(r.updatedAt)]
  }

  /** Reading back the row of a well-formed record gives the record. */
  lemma RowRoundTrip(spec: TableSpec, r: Record)
    requires WellFormed(spec, r)
    ensures FromRow(spec, RowOf(r)) == Ok(r)
  {
    var row := RowOf(r);
    var n := |spec.fields|;
    assert row[1..n + 1] == r.values;
    assert forall i :: 0 <= i < n ==> row[1 + i] == r.values[i];
  }

  /** Conversely, every row `from_row` accepts is the row of a well-formed record, up to extra columns. */
  lemma FromRowOnlyRowsOf(spec: TableSpec, row: seq<SqlValue>)
    requires FromRow(spec, row).Ok?
    ensures WellFormed(spec, FromRow(spec, row).value)
    ensures RowOf(FromRow(spec, row).value) == row[..|spec.fields| + 3]
  {
    var n := |spec.fields|;
    var r := FromRow(spec, row).value;
    assert forall i :: 0 <= i < n ==> r.values[i] == row[1 + i];
    assert RowOf(r) == row[..n + 3];
  }
}
