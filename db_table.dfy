/**
 * `DbTable<T>`: typed access to one SQLite table through the `Table`
 * implementation of `impl_table_auto!`. The table is a class holding its
 * column layout (the order `SELECT *` returns columns in) and its rows in
 * rowid order, each a map from column name to value; a column a row does
 * not hold reads as NULL. A where clause together with its parameters is a
 * predicate on rows; the generated UUID and the clock are parameters.
 */
module DbTable {
  import opened Wrappers
  import opened Strings
  import opened TableMacro

  type StoredRow = map<string, SqlValue>
  type Where = StoredRow -> bool

  /**
   * A table: its column layout, the columns its definition declares NOT NULL
   * and UNIQUE (the key is unique in any case), and its rows.
   */
  datatype TableState = TableState(layout: seq<string>, notNull: set<string>, unique: set<string>, rows: seq<StoredRow>)

  class SqliteTable {
    var layout: seq<string>
    var notNull: set<string>
    var unique: set<string>
    var rows: seq<StoredRow>

    /** A table just created with the given columns, in order, and column constraints. */
    constructor (layout: seq<string>, notNull: set<string>, unique: set<string>)
      ensures this.layout == layout && this.notNull == notNull && this.unique == unique && rows == []
    {
      this.layout := layout;
      this.notNull := notNull;
      this.unique := unique;
      rows := [];
    }

    function State(): TableState
      reads this
    {
      TableState(layout, notNull, unique, rows)
    }
  }

  // ---------------------------------------------------------------------------
  // Rows, columns and binding

  function Column(row: StoredRow, c: string): SqlValue
  {
    if c in row then row[c] else Null
  }

  function IdOf(row: StoredRow): SqlValue
  {
    Column(row, PRIMARY_KEY)
  }

  /** `WHERE id = ?1` with `key` bound. */
  function ById(key: string): Where
  {
    (row: StoredRow) => IdOf(row) == Text(key)
  }

  /** Every row: `select_all` has no where clause. */
  function AllRows(): Where
  {
    (row: StoredRow) => true
  }

  /** `SELECT *`: a row's values in the table's column order. */
  function Project(layout: seq<string>, row: StoredRow): (r: seq<SqlValue>)
    ensures |r| == |layout| && forall i :: 0 <= i < |layout| ==> r[i] == Column(row, layout[i])
  {
    seq(|layout|, i requires 0 <= i < |layout| => Column(row, layout[i]))
  }

  /** The row `(c1, ..., cn) VALUES (?1, ..., ?n)` stores: parameter `i` goes to column `i`. */
  function Bind(cols: seq<string>, params: seq<SqlValue>): (row: StoredRow)
    ensures row.Keys <= set c | c in cols
    decreases |cols|
  {
    if cols == [] || params == [] then map[] else Bind(cols[1..], params[1..])[cols[0] := params[0]]
  }

  /** With distinct column names, each column holds its own parameter and no other column is set. */
  lemma {:induction false} BindAt(cols: seq<string>, params: seq<SqlValue>)
    requires |cols| <= |params| && NoDuplicates(cols)
    ensures forall i :: 0 <= i < |cols| ==> cols[i] in Bind(cols, params) && Bind(cols, params)[cols[i]] == params[i]
    ensures forall c :: c !in cols ==> c !in Bind(cols, params)
    decreases |cols|
  {
    if cols != [] {
      assert NoDuplicates(cols[1..]) by {
        forall i, j | 0 <= i < j < |cols[1..]| ensures cols[1..][i] != cols[1..][j] {
          assert cols[1..][i] == cols[i + 1] && cols[1..][j] == cols[j + 1];
        }
      }
      BindAt(cols[1..], params[1..]);
      forall i | 1 <= i < |cols| ensures Bind(cols, params)[cols[i]] == params[i] {
        assert cols[i] != cols[0];
        assert cols[1..][i - 1] == cols[i];
      }
    }
  }

  /** The value bound to the `k`-th column is the `k`-th parameter. */
  lemma BindColumn(cols: seq<string>, params: seq<SqlValue>, k: nat)
    requires |cols| <= |params| && NoDuplicates(cols) && k < |cols|
    ensures Column(Bind(cols, params), cols[k]) == params[k]
  {
    BindAt(cols, params);
  }

  /** The table's layout is exactly the struct's column list, without repeated names. */
  predicate Aligned(spec: TableSpec, layout: seq<string>)
  {
    layout == AllColumns(spec) && NoDuplicates(layout)
  }

  /** A record stored by column name reads back as itself through an aligned layout. */
  lemma StoredRoundTrip(spec: TableSpec, layout: seq<string>, r: Record)
    requires Aligned(spec, layout) && WellFormed(spec, r)
    ensures FromRow(spec, Project(layout, Bind(AllColumns(spec), RowOf(r)))) == Ok(r)
  {
    ProjectBind(layout, RowOf(r));
    RowRoundTrip(spec, r);
  }

  /** Binding parameters to distinct columns and projecting those columns gives the parameters back. */
  lemma ProjectBind(cols: seq<string>, params: seq<SqlValue>)
    requires |cols| == |params| && NoDuplicates(cols)
    ensures Project(cols, Bind(cols, params)) == params
  {
    BindAt(cols, params);
    var p := Project(cols, Bind(cols, params));
    forall i | 0 <= i < |cols| ensures p[i] == params[i] {
    }
  }

  /** The first of `cols` the table lacks, if any. */
  function MissingColumn(layout: seq<string>, cols: seq<string>): (r: Option<string>)
    ensures r.None? <==> forall c :: c in cols ==> c in layout
    ensures r.Some? ==> r.value in cols && r.value !in layout
    decreases |cols|
  {
    if cols == [] then None
    else if cols[0] !in layout then Some(cols[0])
    else MissingColumn(layout, cols[1..])
  }

  /** SQLite's error texts: an insert naming an absent column, a statement using one. */
  function NoColumnNamed(table: string, c: string): string
  {
    "table " + table + " has no column named " + c
  }

  function NoSuchColumn(c: string): string
  {
    "no such column: " + c
  }

  /** A column constraint a statement breaks: a NULL in a NOT NULL column, or a repeated UNIQUE value. */
  datatype Violation = NotNull(column: string) | Unique(column: string)

  /** SQLite's text for a broken constraint, naming the table and the column. */
  function Refusal(table: string, v: Violation): string
  {
    match v
    case NotNull(c) => "NOT NULL constraint failed: " + table + "." + c
    case Unique(c) => "UNIQUE constraint failed: " + table + "." + c
  }

  /** The first of `cols` that is declared NOT NULL and that `row` leaves NULL. */
  function FirstNullIn(cols: seq<string>, notNull: set<string>, row: StoredRow): (r: Option<string>)
    ensures r.None? <==> forall c :: c in cols && c in notNull ==> Column(row, c) != Null
    ensures r.Some? ==> r.value in cols && r.value in notNull && Column(row, r.value) == Null
    decreases |cols|
  {
    if cols == [] then None
    else if cols[0] in notNull && Column(row, cols[0]) == Null then Some(cols[0])
    else FirstNullIn(cols[1..], notNull, row)
  }

  /** Some row of `rows` already holds `row`'s value in column `c`, and that value is not NULL (NULLs never clash). */
  predicate Taken(rows: seq<StoredRow>, row: StoredRow, c: string)
  {
    Column(row, c) != Null && exists i :: 0 <= i < |rows| && Column(rows[i], c) == Column(row, c)
  }

  /** The first of `cols` that is declared UNIQUE and whose value in `row` is already taken. */
  function FirstTaken(cols: seq<string>, unique: set<string>, rows: seq<StoredRow>, row: StoredRow): (r: Option<string>)
    ensures r.None? <==> forall c :: c in cols && c in unique ==> !Taken(rows, row, c)
    ensures r.Some? ==> r.value in cols && r.value in unique && Taken(rows, row, r.value)
    decreases |cols|
  {
    if cols == [] then None
    else if cols[0] in unique && Taken(rows, row, cols[0]) then Some(cols[0])
    else FirstTaken(cols[1..], unique, rows, row)
  }

  // ---------------------------------------------------------------------------
  // Filtering

  /** The rows a where clause selects, in rowid order. */
  function Matching(rows: seq<StoredRow>, where: Where): (r: seq<StoredRow>)
    ensures |r| <= |rows|
    ensures forall x :: x in r ==> x in rows && where(x)
    decreases |rows|
  {
    if rows == [] then []
    else Matching(rows[..|rows| - 1], where) + (if where(rows[|rows| - 1]) then [rows[|rows| - 1]] else [])
  }

  /** The rows a where clause leaves, in rowid order. */
  function Without(rows: seq<StoredRow>, where: Where): (r: seq<StoredRow>)
    ensures |r| <= |rows|
    ensures forall x :: x in r <==> x in rows && !where(x)
    decreases |rows|
  {
    if rows == [] then []
    else Without(rows[..|rows| - 1], where) + (if where(rows[|rows| - 1]) then [] else [rows[|rows| - 1]])
  }

  /** Filtering distributes over concatenation. */
  lemma {:induction false} MatchingAppend(a: seq<StoredRow>, b: seq<StoredRow>, where: Where)
    ensures Matching(a + b, where) == Matching(a, where) + Matching(b, where)
    decreases |b|
  {
    if b == [] {
      assert a + b == a;
    } else {
      var b', x := b[..|b| - 1], b[|b| - 1];
      var ab := a + b;
      assert ab[..|ab| - 1] == a + b' && ab[|ab| - 1] == x;
      assert Matching(ab, where) == Matching(a + b', where) + (if where(x) then [x] else []);
      assert Matching(b, where) == Matching(b', where) + (if where(x) then [x] else []);
      MatchingAppend(a, b', where);
    }
  }

  /** One more row of the scan: it is selected exactly when the clause holds for it. */
  lemma MatchingStep(rows: seq<StoredRow>, i: nat, where: Where)
    requires i < |rows|
    ensures Matching(rows[..i + 1], where) == Matching(rows[..i], where) + (if where(rows[i]) then [rows[i]] else [])
  {
    assert rows[..i + 1][..i] == rows[..i];
  }

  /** Every row is either selected or left, so the two counts add up. */
  lemma {:induction false} MatchingCount(rows: seq<StoredRow>, where: Where)
    ensures |Matching(rows, where)| + |Without(rows, where)| == |rows|
    decreases |rows|
  {
    if rows != [] {
      MatchingCount(rows[..|rows| - 1], where);
    }
  }

  /** A where clause no row satisfies selects nothing and leaves everything. */
  lemma {:induction false} MatchingNone(rows: seq<StoredRow>, where: Where)
    requires forall i :: 0 <= i < |rows| ==> !where(rows[i])
    ensures Matching(rows, where) == [] && Without(rows, where) == rows
    decreases |rows|
  {
    if rows != [] {
      var init := rows[..|rows| - 1];
      forall i | 0 <= i < |init| ensures !where(init[i]) {
        assert init[i] == rows[i];
      }
      MatchingNone(init, where);
      assert !where(rows[|rows| - 1]);
      assert rows == init + [rows[|rows| - 1]];
    }
  }

  /** `rows` has a row with primary key `key`. */
  predicate HasId(rows: seq<StoredRow>, key: string)
  {
    exists i :: 0 <= i < |rows| && IdOf(rows[i]) == Text(key)
  }

  // ---------------------------------------------------------------------------
  // Reading

  /** Each row decoded by `from_row` in turn; the first row that fails is the error. */
  function DecodeAll(spec: TableSpec, layout: seq<string>, rows: seq<StoredRow>): (r: Result<seq<Record>>)
    ensures r.Ok? <==> forall i :: 0 <= i < |rows| ==> FromRow(spec, Project(layout, rows[i])).Ok?
    ensures r.Ok? ==> |r.value| == |rows| && forall i :: 0 <= i < |rows| ==> FromRow(spec, Project(layout, rows[i])) == Ok(r.value[i])
    decreases |rows|
  {
    if rows == [] then Ok([])
    else
      assert forall i :: 0 <= i < |rows| - 1 ==> rows[..|rows| - 1][i] == rows[i];
      match DecodeAll(spec, layout, rows[..|rows| - 1])
      case Err(m) => Err(m)
      case Ok(rs) =>
        match FromRow(spec, Project(layout, rows[|rows| - 1]))
        case Err(m) => Err(m)
        case Ok(x) => DecodedAppend(spec, layout, rows, rs, x); Ok(rs + [x])
  }

  /** The records of all but the last row, followed by the last row's record, are the records of every row. */
  lemma DecodedAppend(spec: TableSpec, layout: seq<string>, rows: seq<StoredRow>, rs: seq<Record>, x: Record)
    requires |rows| > 0 && |rs| == |rows| - 1
    requires forall i :: 0 <= i < |rows| - 1 ==> FromRow(spec, Project(layout, rows[i])) == Ok(rs[i])
    requires FromRow(spec, Project(layout, rows[|rows| - 1])) == Ok(x)
    ensures forall i :: 0 <= i < |rows| ==> FromRow(spec, Project(layout, rows[i])) == Ok((rs + [x])[i])
  {
  }

  /** Once a row fails to decode, later rows do not change the error. */
  lemma {:induction false} DecodeErrorSticks(spec: TableSpec, layout: seq<string>, a: seq<StoredRow>, b: seq<StoredRow>)
    requires DecodeAll(spec, layout, a).Err?
    ensures DecodeAll(spec, layout, a + b) == DecodeAll(spec, layout, a)
    decreases |b|
  {
    if b != [] {
      var b' := b[..|b| - 1];
      assert (a + b)[..|a + b| - 1] == a + b';
      DecodeErrorSticks(spec, layout, a, b');
    } else {
      assert a + b == a;
    }
  }

  /** Decoding one more row appends its record, or ends with its error. */
  lemma DecodeStep(spec: TableSpec, layout: seq<string>, m: seq<StoredRow>, row: StoredRow, results: seq<Record>)
    requires DecodeAll(spec, layout, m) == Ok(results)
    ensures var rec := FromRow(spec, Project(layout, row));
      DecodeAll(spec, layout, m + [row]) == if rec.Ok? then Ok(results + [rec.value]) else Err(rec.msg)
  {
    assert (m + [row])[..|m + [row]| - 1] == m && (m + [row])[|m|] == row;
  }

  /** What `select_many` returns for a state. */
  function SelectManyOf(spec: TableSpec, s: TableState, where: Where): Result<seq<Record>>
  {
    DecodeAll(spec, s.layout, Matching(s.rows, where))
  }

  /** A row that fails to decode during the scan is the query's error. */
  lemma ScanError(spec: TableSpec, layout: seq<string>, rows: seq<StoredRow>, i: nat, where: Where)
    requires i < |rows| && DecodeAll(spec, layout, Matching(rows[..i + 1], where)).Err?
    ensures DecodeAll(spec, layout, Matching(rows, where)) == DecodeAll(spec, layout, Matching(rows[..i + 1], where))
  {
    SplitAt(rows, i + 1);
    MatchingAppend(rows[..i + 1], rows[i + 1..], where);
    DecodeErrorSticks(spec, layout, Matching(rows[..i + 1], where), Matching(rows[i + 1..], where));
  }

  /** A sequence is its prefix followed by the rest. */
  lemma SplitAt<T>(s: seq<T>, k: nat)
    requires k <= |s|
    ensures s == s[..k] + s[k..]
  {
  }

  /** `select_many`: the matching rows in order, each decoded; the first row that fails aborts the query. */
  method SelectMany(spec: TableSpec, db: SqliteTable, where: Where) returns (r: Result<seq<Record>>)
    ensures r == SelectManyOf(spec, db.State(), where)
  {
    var layout, rows := db.layout, db.rows;
    var results: seq<Record> := [];
    var i := 0;
    while i < |rows|
      invariant 0 <= i <= |rows|
      invariant DecodeAll(spec, layout, Matching(rows[..i], where)) == Ok(results)
    {
      var row := rows[i];
      MatchingStep(rows, i, where);
      if where(row) {
        var rec := FromRow(spec, Project(layout, row));
        DecodeStep(spec, layout, Matching(rows[..i], where), row, results);
        if rec.Err? {
          ScanError(spec, layout, rows, i, where);
          return Err(rec.msg);
        }
        results := results + [rec.value];
      } else {
        assert Matching(rows[..i + 1], where) == Matching(rows[..i], where);
      }
      i := i + 1;
    }
    assert rows[..i] == rows;
    r := Ok(results);
  }

  /** `select_all`: every row, decoded in order. */
  method SelectAll(spec: TableSpec, db: SqliteTable) returns (r: Result<seq<Record>>)
    ensures r == DecodeAll(spec, db.layout, db.rows)
  {
    MatchingAll(db.rows);
    r := SelectMany(spec, db, AllRows());
  }

  lemma {:induction false} MatchingAll(rows: seq<StoredRow>)
    ensures Matching(rows, AllRows()) == rows
    decreases |rows|
  {
    if rows != [] {
      MatchingAll(rows[..|rows| - 1]);
    }
  }

  /**
   * `select_one`: the LAST matching row (`Vec::pop`), `None` when none
   * matches; an error when `select_many` fails.
   */
  method SelectOne(spec: TableSpec, db: SqliteTable, where: Where) returns (r: Result<Option<Record>>)
    ensures var all := SelectManyOf(spec, db.State(), where);
      && (r.Err? <==> all.Err?)
      && (r.Err? ==> r.msg == all.msg)
      && (r.Ok? ==> (r.value.None? <==> all.value == []))
      && (r.Ok? && r.value.Some? ==> r.value.value == all.value[|all.value| - 1])
  {
    var rows := SelectMany(spec, db, where);
    if rows.Err? {
      return Err(rows.msg);
    }
    if |rows.value| == 0 {
      r := Ok(None);
    } else {
      r := Ok(Some(rows.value[|rows.value| - 1]));
    }
  }

  /** `select_one_or_error`: the caller's message when nothing matches. */
  method SelectOneOrError(spec: TableSpec, db: SqliteTable, where: Where, errorMsg: string) returns (r: Result<Record>)
    ensures var all := SelectManyOf(spec, db.State(), where);
      && (all.Err? ==> r == Err(all.msg))
      && (all.Ok? && all.value == [] ==> r == Err(errorMsg))
      && (all.Ok? && all.value != [] ==> r == Ok(all.value[|all.value| - 1]))
  {
    var one := SelectOne(spec, db, where);
    if one.Err? {
      return Err(one.msg);
    }
    if one.value.None? {
      return Err(errorMsg);
    }
    r := Ok(one.value.value);
  }

  /** `select`: the first row whose key is `key`; only that row is decoded. */
  function Select(spec: TableSpec, s: TableState, key: string): (r: Result<Option<Record>>)
    ensures PRIMARY_KEY !in s.layout ==> r == Err(NoSuchColumn(PRIMARY_KEY))
    ensures r == Ok(None) <==> PRIMARY_KEY in s.layout && !HasId(s.rows, key)
    ensures r.Ok? && r.value.Some? ==>
      exists i :: 0 <= i < |s.rows| && IdOf(s.rows[i]) == Text(key) && FromRow(spec, Project(s.layout, s.rows[i])) == Ok(r.value.value)
  {
    if PRIMARY_KEY !in s.layout then Err(NoSuchColumn(PRIMARY_KEY))
    else
      var m := Matching(s.rows, ById(key));
      MatchingEmptyIff(s.rows, key);
      if m == [] then Ok(None)
      else
        assert m[0] in m;
        match FromRow(spec, Project(s.layout, m[0]))
        case Err(msg) => Err(msg)
        case Ok(x) => Ok(Some(x))
  }

  /** `WHERE id = ?1` selects nothing exactly when no row has the key. */
  lemma {:induction false} MatchingEmptyIff(rows: seq<StoredRow>, key: string)
    ensures Matching(rows, ById(key)) == [] <==> !HasId(rows, key)
    decreases |rows|
  {
    if rows != [] {
      var p := rows[..|rows| - 1];
      MatchingEmptyIff(p, key);
      assert forall i :: 0 <= i < |p| ==> p[i] == rows[i];
      assert HasId(rows, key) <==> HasId(p, key) || IdOf(rows[|rows| - 1]) == Text(key);
    }
  }

  // ---------------------------------------------------------------------------
  // Statements

  /** `?{i+1}`: the placeholder of the `i`-th parameter. */
  function Placeholder(i: nat): string
  {
    "?" + NatToString(i + 1)
  }

  function Placeholders(n: nat): (r: seq<string>)
    ensures |r| == n && forall i :: 0 <= i < n ==> r[i] == Placeholder(i)
  {
    seq(n, i requires 0 <= i < n => Placeholder(i))
  }

  /** Each placeholder names its own parameter: `?{i+1}` reads back as `i + 1`. */
  lemma PlaceholderNumber(i: nat)
    ensures Placeholder(i)[0] == '?' && ParseUnsigned(Placeholder(i)[1..], i + 1) == Some(i + 1)
  {
    assert Placeholder(i)[1..] == NatToString(i + 1);
    ParseNatToString(i + 1, i + 1);
  }

  /** Different parameters have different placeholders. */
  lemma PlaceholderInjective(i: nat, j: nat)
    ensures Placeholder(i) == Placeholder(j) ==> i == j
  {
    DigitsOfNat(i + 1);
    DigitsOfNat(j + 1);
    assert Placeholder(i)[1..] == NatToString(i + 1);
    assert Placeholder(j)[1..] == NatToString(j + 1);
  }

  /** No two parameters share a placeholder. */
  lemma PlaceholdersDistinct(n: nat)
    ensures NoDuplicates(Placeholders(n))
  {
    forall i, j | 0 <= i < j < n ensures Placeholder(i) != Placeholder(j) {
      PlaceholderInjective(i, j);
    }
  }

  /** `INSERT [OR REPLACE] INTO t (all_columns) VALUES (?1, ..., ?n)`. */
  function InsertSql(spec: TableSpec, orReplace: bool): string
  {
    var cols := AllColumns(spec);
    (if orReplace then "INSERT OR REPLACE INTO " else "INSERT INTO ") + spec.table
      + " (" + Join(cols, ", ") + ") VALUES (" + Join(Placeholders(|cols|), ", ") + ")"
  }

  /** `col = ?{i+1}` for each update column. */
  function SetClauses(cols: seq<string>): (r: seq<string>)
    ensures |r| == |cols| && forall i :: 0 <= i < |cols| ==> r[i] == cols[i] + " = " + Placeholder(i)
  {
    seq(|cols|, i requires 0 <= i < |cols| => cols[i] + " = " + Placeholder(i))
  }

  /** `UPDATE t SET c1 = ?1, ..., ck = ?k, updated_at = ?{k+1} WHERE id = ?{k+2}`. */
  function UpdateSql(spec: TableSpec): string
  {
    var k := |spec.fields|;
    "UPDATE " + spec.table + " SET " + Join(SetClauses(UpdateColumns(spec)), ", ")
      + ", updated_at = " + Placeholder(k) + " WHERE " + PRIMARY_KEY + " = " + Placeholder(k + 1)
  }

  /** The record as stored: the given key and timestamps, the item's own data. */
  function Stamped(item: Record, id: string, created: int, now: int): Record
  {
    item.(id := id, createdAt := created, updatedAt := now)
  }

  /** The insert parameters: the key first, the data, then `created_at` and `updated_at`. */
  function InsertParams(item: Record, id: string, created: int, now: int): seq<SqlValue>
  {
    [Text(id)] + ToInsertParams(item) + [Integer(created), Integer(now)]
  }

  /**
   * The insert statement numbers as many placeholders as it names columns
   * and receives parameters, and parameter `i` is the stored record's value
   * for column `i`, whatever key and timestamps the item itself carries.
   */
  lemma InsertParamsAligned(spec: TableSpec, item: Record, id: string, created: int, now: int)
    requires |item.values| == |spec.fields|
    ensures var cols := AllColumns(spec);
      && |Placeholders(|cols|)| == |cols| == |InsertParams(item, id, created, now)|
      && InsertParams(item, id, created, now) == RowOf(Stamped(item, id, created, now))
      && forall i :: 1 <= i <= |spec.fields| ==>
           AllColumns(spec)[i] == spec.fields[i - 1].name && InsertParams(item, id, created, now)[i] == item.values[i - 1]
  {
    var cols := AllColumns(spec);
    assert forall i :: 1 <= i <= |spec.fields| ==> cols[i] == cols[1..|spec.fields| + 1][i - 1];
  }

  /** The update parameters: the data, then `updated_at`, then the key for the where clause. */
  function UpdateParams(item: Record, now: int): seq<SqlValue>
  {
    ToUpdateParams(item) + [Integer(now), Text(PrimaryKeyValue(item))]
  }

  /**
   * In the update, placeholder `?{i+1}` of the set list receives data value
   * `i`, `?{k+1}` the new `updated_at` and `?{k+2}` the record's own key.
   */
  lemma UpdateParamsAligned(spec: TableSpec, item: Record, now: int)
    requires |item.values| == |spec.fields|
    ensures var k := |spec.fields|; var p := UpdateParams(item, now);
      && |p| == k + 2
      && (forall i :: 0 <= i < k ==> SetClauses(UpdateColumns(spec))[i] == spec.fields[i].name + " = " + Placeholder(i) && p[i] == item.values[i])
      && p[k] == Integer(now) && p[k + 1] == Text(item.id)
  {
  }

  // ---------------------------------------------------------------------------
  // Effects of the statements on a state

  /**
   * What SQLite refuses a new row with key `id` for, in the order it checks:
   * a NULL in a NOT NULL column, then the key already present, then a value a
   * UNIQUE column already holds.
   */
  function InsertViolation(s: TableState, row: StoredRow, id: string): (r: Option<Violation>)
    ensures r.None? <==>
      && (forall c :: c in s.layout && c in s.notNull ==> Column(row, c) != Null)
      && !HasId(s.rows, id)
      && (forall c :: c in s.layout && c in s.unique ==> !Taken(s.rows, row, c))
  {
    match FirstNullIn(s.layout, s.notNull, row)
    case Some(c) => Some(NotNull(c))
    case None =>
      if HasId(s.rows, id) then Some(Unique(PRIMARY_KEY))
      else
        match FirstTaken(s.layout, s.unique, s.rows, row)
        case Some(c) => Some(Unique(c))
        case None => None
  }

  function InsertEffect(spec: TableSpec, s: TableState, item: Record, newId: string, now: int): (Result<string>, TableState)
  {
    var cols := AllColumns(spec);
    var row := Bind(cols, InsertParams(item, newId, now, now));
    match MissingColumn(s.layout, cols)
    case Some(c) => (Err(NoColumnNamed(spec.table, c)), s)
    case None =>
      match InsertViolation(s, row, newId)
      case Some(v) => (Err(Refusal(spec.table, v)), s)
      case None => (Ok(newId), s.(rows := s.rows + [row]))
  }

  /** The key `insert_or_replace` writes: the item's own when set, else a new one. */
  function ReplaceKey(item: Record, newId: string): string
  {
    if PrimaryKeyValue(item) == "" then newId else PrimaryKeyValue(item)
  }

  /**
   * The rows `INSERT OR REPLACE` deletes before adding `row`: those with its
   * key, and those holding one of its non-NULL values in a UNIQUE column.
   */
  function Conflicting(unique: set<string>, row: StoredRow): Where
  {
    (x: StoredRow) => IdOf(x) == IdOf(row) || exists c :: c in unique && Column(row, c) != Null && Column(x, c) == Column(row, c)
  }

  /**
   * `INSERT OR REPLACE`: a NULL in a NOT NULL column (none has a default)
   * still fails; otherwise every conflicting row is deleted and the new row
   * appended.
   */
  function ReplaceEffect(spec: TableSpec, s: TableState, item: Record, id: string, created: int, now: int): (Result<string>, TableState)
  {
    var cols := AllColumns(spec);
    var row := Bind(cols, InsertParams(item, id, created, now));
    match MissingColumn(s.layout, cols)
    case Some(c) => (Err(NoColumnNamed(spec.table, c)), s)
    case None =>
      match FirstNullIn(s.layout, s.notNull, row)
      case Some(c) => (Err(Refusal(spec.table, NotNull(c))), s)
      case None => (Ok(id), s.(rows := Without(s.rows, Conflicting(s.unique, row)) + [row]))
  }

  function InsertOrReplaceEffect(spec: TableSpec, s: TableState, item: Record, newId: string, now: int): (Result<string>, TableState)
  {
    var id := ReplaceKey(item, newId);
    match Select(spec, s, id)
    case Err(m) => (Err(m), s)
    case Ok(existing) =>
      var created := if existing.Some? then now else now;
      ReplaceEffect(spec, s, item, id, created, now)
  }

  function InsertOrReplaceSimpleEffect(spec: TableSpec, s: TableState, item: Record, newId: string, now: int): (Result<string>, TableState)
  {
    ReplaceEffect(spec, s, item, ReplaceKey(item, newId), now, now)
  }

  /** Each row the where clause selects takes the assignments in `set`; the others are untouched. */
  function Assigned(rows: seq<StoredRow>, where: Where, assigns: StoredRow): (r: seq<StoredRow>)
    ensures |r| == |rows| && forall i :: 0 <= i < |rows| ==> r[i] == if where(rows[i]) then rows[i] + assigns else rows[i]
  {
    seq(|rows|, i requires 0 <= i < |rows| => if where(rows[i]) then rows[i] + assigns else rows[i])
  }

  /**
   * Assigning `assigns` to the selected rows would leave the non-NULL value
   * it gives column `c` in two rows: two selected rows, or a selected row and
   * one left alone that already holds it.
   */
  predicate Repeats(rows: seq<StoredRow>, where: Where, assigns: StoredRow, c: string)
  {
    && c in assigns && assigns[c] != Null
    && (|Matching(rows, where)| >= 2 || (|Matching(rows, where)| == 1 && Taken(Without(rows, where), assigns, c)))
  }

  /** The first of `cols` that is declared UNIQUE and whose assigned value would repeat. */
  function FirstRepeated(cols: seq<string>, unique: set<string>, rows: seq<StoredRow>, where: Where, assigns: StoredRow)
    : (r: Option<string>)
    ensures r.None? <==> forall c :: c in cols && c in unique ==> !Repeats(rows, where, assigns, c)
    ensures r.Some? ==> r.value in cols && r.value in unique && Repeats(rows, where, assigns, r.value)
    decreases |cols|
  {
    if cols == [] then None
    else if cols[0] in unique && Repeats(rows, where, assigns, cols[0]) then Some(cols[0])
    else FirstRepeated(cols[1..], unique, rows, where, assigns)
  }

  /**
   * What SQLite refuses an update for: only the assigned columns are checked,
   * and only when a row is selected; a NULL assigned to a NOT NULL column,
   * then a UNIQUE column whose assigned value would repeat.
   */
  function UpdateViolation(s: TableState, where: Where, assigns: StoredRow): (r: Option<Violation>)
    ensures r.None? <==>
      || Matching(s.rows, where) == []
      || (&& (forall c :: c in s.layout && c in s.notNull && c in assigns ==> assigns[c] != Null)
          && (forall c :: c in s.layout && c in s.unique ==> !Repeats(s.rows, where, assigns, c)))
  {
    if Matching(s.rows, where) == [] then None
    else
      match FirstNullIn(s.layout, s.notNull * assigns.Keys, assigns)
      case Some(c) => Some(NotNull(c))
      case None =>
        match FirstRepeated(s.layout, s.unique, s.rows, where, assigns)
        case Some(c) => Some(Unique(c))
        case None => None
  }

  function UpdateEffect(spec: TableSpec, s: TableState, item: Record, now: int): (Result<()>, TableState)
  {
    var k := |spec.fields|;
    var setCols := UpdateColumns(spec) + ["updated_at"];
    var assigns := Bind(setCols, UpdateParams(item, now));
    var where := ById(PrimaryKeyValue(item));
    match MissingColumn(s.layout, setCols + [PRIMARY_KEY])
    case Some(c) => (Err(NoSuchColumn(c)), s)
    case None =>
      match UpdateViolation(s, where, assigns)
      case Some(v) => (Err(Refusal(spec.table, v)), s)
      case None => (Ok(()), s.(rows := Assigned(s.rows, where, assigns)))
  }

  function DeleteEffect(s: TableState, key: string): (Result<()>, TableState)
  {
    if PRIMARY_KEY !in s.layout then (Err(NoSuchColumn(PRIMARY_KEY)), s)
    else (Ok(()), s.(rows := Without(s.rows, ById(key))))
  }

  function DeleteManyEffect(s: TableState, where: Where): (Result<nat>, TableState)
  {
    (Ok(|Matching(s.rows, where)|), s.(rows := Without(s.rows, where)))
  }

  function UpsertByEffect(spec: TableSpec, s: TableState, where: Where, builder: Option<Record> -> Record,
                          newId: string, now: int): (Result<string>, TableState)
  {
    match SelectManyOf(spec, s, where)
    case Err(m) => (Err(m), s)
    case Ok(existing) =>
      var row := builder(if existing == [] then None else Some(existing[0]));
      if existing == [] then InsertEffect(spec, s, row, newId, now)
      else if PrimaryKeyValue(row) != PrimaryKeyValue(existing[0]) then InsertOrReplaceEffect(spec, s, row, newId, now)
      else
        var (res, s1) := UpdateEffect(spec, s, row, now);
        if res.Err? then (Err(res.msg), s1) else (Ok(PrimaryKeyValue(existing[0])), s1)
  }

  // ---------------------------------------------------------------------------
  // The operations

  /**
   * `insert`: the item's key and timestamps are ignored; a new key and the
   * current time are stored, unless a column constraint refuses the row.
   */
  method Insert(spec: TableSpec, db: SqliteTable, item: Record, newId: string, now: int) returns (r: Result<string>)
    modifies db
    ensures db.layout == old(db.layout)
    ensures (r, db.State()) == InsertEffect(spec, old(db.State()), item, newId, now)
  {
    var cols := AllColumns(spec);
    var params := ToInsertParams(item);
    params := [Text(newId)] + params;
    params := params + [Integer(now)];
    params := params + [Integer(now)];
    assert params == InsertParams(item, newId, now, now);
    var row := Bind(cols, params);
    var missing := MissingColumn(db.layout, cols);
    if missing.Some? {
      return Err(NoColumnNamed(spec.table, missing.value));
    }
    var nullIn := FirstNullIn(db.layout, db.notNull, row);
    if nullIn.Some? {
      return Err(Refusal(spec.table, NotNull(nullIn.value)));
    }
    if HasId(db.rows, newId) {
      return Err(Refusal(spec.table, Unique(PRIMARY_KEY)));
    }
    var taken := FirstTaken(db.layout, db.unique, db.rows, row);
    if taken.Some? {
      return Err(Refusal(spec.table, Unique(taken.value)));
    }
    db.rows := db.rows + [row];
    r := Ok(newId);
  }

  /** `insert_or_replace`: looks the key up first, then writes `created_at = now` whether or not a row existed. */
  method InsertOrReplace(spec: TableSpec, db: SqliteTable, item: Record, newId: string, now: int) returns (r: Result<string>)
    modifies db
    ensures db.layout == old(db.layout)
    ensures (r, db.State()) == InsertOrReplaceEffect(spec, old(db.State()), item, newId, now)
  {
    var id := if PrimaryKeyValue(item) == "" then newId else PrimaryKeyValue(item);
    var existing := Select(spec, db.State(), id);
    if existing.Err? {
      return Err(existing.msg);
    }
    var createdAt := if existing.value.Some? then now else now;
    r := ReplaceRow(spec, db, item, id, createdAt, now);
  }

  /** `insert_or_replace_simple`: the same statement without the lookup. */
  method InsertOrReplaceSimple(spec: TableSpec, db: SqliteTable, item: Record, newId: string, now: int) returns (r: Result<string>)
    modifies db
    ensures db.layout == old(db.layout)
    ensures (r, db.State()) == InsertOrReplaceSimpleEffect(spec, old(db.State()), item, newId, now)
  {
    var id := if PrimaryKeyValue(item) == "" then newId else PrimaryKeyValue(item);
    r := ReplaceRow(spec, db, item, id, now, now);
  }

  /** The `INSERT OR REPLACE` statement both variants run. */
  method ReplaceRow(spec: TableSpec, db: SqliteTable, item: Record, id: string, created: int, now: int) returns (r: Result<string>)
    modifies db
    ensures db.layout == old(db.layout)
    ensures (r, db.State()) == ReplaceEffect(spec, old(db.State()), item, id, created, now)
  {
    var cols := AllColumns(spec);
    var row := Bind(cols, [Text(id)] + ToInsertParams(item) + [Integer(created), Integer(now)]);
    var missing := MissingColumn(db.layout, cols);
    if missing.Some? {
      return Err(NoColumnNamed(spec.table, missing.value));
    }
    var nullIn := FirstNullIn(db.layout, db.notNull, row);
    if nullIn.Some? {
      return Err(Refusal(spec.table, NotNull(nullIn.value)));
    }
    db.rows := Without(db.rows, Conflicting(db.unique, row)) + [row];
    r := Ok(id);
  }

  /**
   * `update`: the data columns and `updated_at` of the rows with the item's
   * key, unless a constraint on an assigned column refuses it.
   */
  method Update(spec: TableSpec, db: SqliteTable, item: Record, now: int) returns (r: Result<()>)
    modifies db
    ensures db.layout == old(db.layout)
    ensures (r, db.State()) == UpdateEffect(spec, old(db.State()), item, now)
  {
    var k := |spec.fields|;
    var setCols := UpdateColumns(spec) + ["updated_at"];
    var params := ToUpdateParams(item);
    params := params + [Integer(now)];
    params := params + [Text(PrimaryKeyValue(item))];
    assert params == UpdateParams(item, now);
    var missing := MissingColumn(db.layout, setCols + [PRIMARY_KEY]);
    if missing.Some? {
      return Err(NoSuchColumn(missing.value));
    }
    var assigns := Bind(setCols, params);
    var where := ById(PrimaryKeyValue(item));
    var violation := UpdateViolation(db.State(), where, assigns);
    if violation.Some? {
      return Err(Refusal(spec.table, violation.value));
    }
    db.rows := Assigned(db.rows, where, assigns);
    r := Ok(());
  }

  /** `delete`: every row with the key. */
  method Delete(db: SqliteTable, key: string) returns (r: Result<()>)
    modifies db
    ensures db.layout == old(db.layout)
    ensures (r, db.State()) == DeleteEffect(old(db.State()), key)
  {
    if PRIMARY_KEY !in db.layout {
      return Err(NoSuchColumn(PRIMARY_KEY));
    }
    db.rows := Without(db.rows, ById(key));
    r := Ok(());
  }

  /** `delete_many`: the rows the where clause selects; the result is how many there were. */
  method DeleteMany(db: SqliteTable, where: Where) returns (r: Result<nat>)
    modifies db
    ensures db.layout == old(db.layout)
    ensures (r, db.State()) == DeleteManyEffect(old(db.State()), where)
  {
    var affected := |Matching(db.rows, where)|;
    db.rows := Without(db.rows, where);
    r := Ok(affected);
  }

  /**
   * `upsert_by`: the builder sees the first matching row. With no match the
   * built row is inserted; when the builder kept the match's key it is
   * updated and that key returned; otherwise it goes through `insert_or_replace`.
   */
  method UpsertBy(spec: TableSpec, db: SqliteTable, where: Where, builder: Option<Record> -> Record, newId: string, now: int)
    returns (r: Result<string>)
    modifies db
    ensures db.layout == old(db.layout)
    ensures (r, db.State()) == UpsertByEffect(spec, old(db.State()), where, builder, newId, now)
  {
    var existing := SelectMany(spec, db, where);
    if existing.Err? {
      return Err(existing.msg);
    }
    var first := if existing.value == [] then None else Some(existing.value[0]);
    var row := builder(first);
    if existing.value == [] {
      r := Insert(spec, db, row, newId, now);
    } else {
      var existingId := PrimaryKeyValue(existing.value[0]);
      if PrimaryKeyValue(row) != existingId {
        r := InsertOrReplace(spec, db, row, newId, now);
      } else {
        var u := Update(spec, db, row, now);
        if u.Err? {
          return Err(u.msg);
        }
        r := Ok(existingId);
      }
    }
  }

  // ---------------------------------------------------------------------------
  // What the statements do

  /** Appending a row with a key no earlier row has: it is the key's only match, and the rest is left. */
  lemma AppendOneMatch(w: seq<StoredRow>, row: StoredRow, id: string)
    requires !HasId(w, id) && IdOf(row) == Text(id)
    ensures Matching(w + [row], ById(id)) == [row] && Without(w + [row], ById(id)) == w
  {
    MatchingNone(w, ById(id));
    var rows := w + [row];
    assert rows[..|rows| - 1] == w && rows[|rows| - 1] == row;
  }

  /** The row an insert stores holds the key it was given and reads back as the stamped record. */
  lemma InsertedRowReads(spec: TableSpec, layout: seq<string>, item: Record, id: string, created: int, now: int)
    requires Aligned(spec, layout) && WellFormed(spec, item) && I64_MIN <= now <= I64_MAX && I64_MIN <= created <= I64_MAX
    ensures var row := Bind(AllColumns(spec), InsertParams(item, id, created, now));
      IdOf(row) == Text(id) && FromRow(spec, Project(layout, row)) == Ok(Stamped(item, id, created, now))
  {
    InsertParamsAligned(spec, item, id, created, now);
    var st := Stamped(item, id, created, now);
    assert WellFormed(spec, st);
    StoredRoundTrip(spec, layout, st);
    BindAt(AllColumns(spec), RowOf(st));
    assert AllColumns(spec)[0] == PRIMARY_KEY;
  }

  /**
   * Appending the row of a well-formed record under a key no row has: that
   * row is the key's only match and reads back as the record, and the other
   * rows are what is left without the key.
   */
  lemma AppendFreshKey(spec: TableSpec, layout: seq<string>, notNull: set<string>, unique: set<string>, w: seq<StoredRow>,
                       item: Record, id: string, created: int, now: int)
    requires Aligned(spec, layout) && WellFormed(spec, item) && I64_MIN <= now <= I64_MAX && I64_MIN <= created <= I64_MAX
    requires !HasId(w, id)
    ensures var rows := w + [Bind(AllColumns(spec), InsertParams(item, id, created, now))];
      && Matching(rows, ById(id)) == [Bind(AllColumns(spec), InsertParams(item, id, created, now))]
      && Without(rows, ById(id)) == w
      && Select(spec, TableState(layout, notNull, unique, rows), id) == Ok(Some(Stamped(item, id, created, now)))
  {
    var row := Bind(AllColumns(spec), InsertParams(item, id, created, now));
    InsertedRowReads(spec, layout, item, id, created, now);
    AppendOneMatch(w, row, id);
    assert PRIMARY_KEY in layout by {
      assert layout[0] == PRIMARY_KEY;
    }
  }

  /**
   * On an aligned table a well-formed insert is refused exactly when the new
   * row leaves a NOT NULL column NULL, its key is already present, or a value
   * of a UNIQUE column is already held; a refused insert changes nothing and
   * names the constraint. Otherwise exactly one row is added at the end, and
   * selecting the new key returns the item with that key and both
   * timestamps set to `now`.
   */
  lemma InsertMeaning(spec: TableSpec, s: TableState, item: Record, newId: string, now: int)
    requires Aligned(spec, s.layout) && WellFormed(spec, item) && I64_MIN <= now <= I64_MAX
    ensures var (r, s1) := InsertEffect(spec, s, item, newId, now);
      var row := Bind(AllColumns(spec), InsertParams(item, newId, now, now));
      && (r.Ok? <==>
            && (forall c :: c in s.layout && c in s.notNull ==> Column(row, c) != Null)
            && !HasId(s.rows, newId)
            && (forall c :: c in s.layout && c in s.unique ==> !Taken(s.rows, row, c)))
      && (r.Err? ==> s1 == s && exists v :: r.msg == Refusal(spec.table, v))
      && (r.Ok? ==> r.value == newId && s1.layout == s.layout && s1.notNull == s.notNull && s1.unique == s.unique
                    && |s1.rows| == |s.rows| + 1 && s1.rows[..|s.rows|] == s.rows
                    && s1.rows[|s.rows|] == row
                    && Select(spec, s1, newId) == Ok(Some(Stamped(item, newId, now, now))))
  {
    var (r, s1) := InsertEffect(spec, s, item, newId, now);
    var row := Bind(AllColumns(spec), InsertParams(item, newId, now, now));
    var v := InsertViolation(s, row, newId);
    if v.Some? {
      assert r.msg == Refusal(spec.table, v.value);
    } else {
      assert s1.rows == s.rows + [row];
      assert s1.rows[..|s.rows|] == s.rows;
      AppendFreshKey(spec, s.layout, s.notNull, s.unique, s.rows, item, newId, now, now);
    }
  }

  /** No row is left with the where clause's match, and the count is what was removed. */
  lemma DeleteManyMeaning(s: TableState, where: Where)
    ensures var (r, s1) := DeleteManyEffect(s, where);
      && r.Ok? && r.value + |s1.rows| == |s.rows|
      && (forall i :: 0 <= i < |s1.rows| ==> !where(s1.rows[i]))
      && (forall x :: x in s1.rows <==> x in s.rows && !where(x))
      && s1.layout == s.layout
  {
    MatchingCount(s.rows, where);
    var s1 := DeleteManyEffect(s, where).1;
    forall i | 0 <= i < |s1.rows| ensures !where(s1.rows[i]) {
      assert s1.rows[i] in s1.rows;
    }
  }

  /** After `delete`, no row has the key. */
  lemma DeleteMeaning(s: TableState, key: string)
    requires PRIMARY_KEY in s.layout
    ensures DeleteEffect(s, key).0.Ok? && !HasId(DeleteEffect(s, key).1.rows, key)
    ensures forall x :: x in DeleteEffect(s, key).1.rows <==> x in s.rows && IdOf(x) != Text(key)
  {
    var rows := DeleteEffect(s, key).1.rows;
    forall i | 0 <= i < |rows| ensures IdOf(rows[i]) != Text(key) {
      assert rows[i] in rows;
    }
  }

  /** Deleting by key is `delete_many` with `WHERE id = ?1`, apart from the count. */
  lemma DeleteIsDeleteMany(s: TableState, key: string)
    requires PRIMARY_KEY in s.layout
    ensures DeleteEffect(s, key).1 == DeleteManyEffect(s, ById(key)).1
  {
  }

  /**
   * `insert_or_replace` fails exactly when the lookup of the key fails or the
   * row leaves a NOT NULL column NULL, and then changes nothing. Otherwise
   * the rows that share neither the key nor a non-NULL UNIQUE value with the
   * new row stay as they were, in order; no other row holds the key or any
   * of those values; and the key has exactly one row, which reads back as
   * the item with `created_at` reset to `now` even when a row with that key
   * existed before.
   */
  lemma InsertOrReplaceMeaning(spec: TableSpec, s: TableState, item: Record, newId: string, now: int)
    requires Aligned(spec, s.layout) && WellFormed(spec, item) && I64_MIN <= now <= I64_MAX
    ensures var id := ReplaceKey(item, newId); var row := Bind(AllColumns(spec), InsertParams(item, id, now, now));
      var (r, s1) := InsertOrReplaceEffect(spec, s, item, newId, now);
      && (r.Err? <==> Select(spec, s, id).Err? || exists c :: c in s.layout && c in s.notNull && Column(row, c) == Null)
      && (r.Err? ==> s1 == s)
      && (r.Ok? ==> && r.value == id && s1.layout == s.layout
                    && Without(s1.rows, ById(id)) == Without(s.rows, Conflicting(s.unique, row))
                    && (forall c :: c in s.unique ==> !Taken(Without(s1.rows, ById(id)), row, c))
                    && |Matching(s1.rows, ById(id))| == 1
                    && Select(spec, s1, id) == Ok(Some(Stamped(item, id, now, now))))
  {
    var id := ReplaceKey(item, newId);
    var (r, s1) := InsertOrReplaceEffect(spec, s, item, newId, now);
    var row := Bind(AllColumns(spec), InsertParams(item, id, now, now));
    if r.Ok? {
      InsertedRowReads(spec, s.layout, item, id, now, now);
      var w := Without(s.rows, Conflicting(s.unique, row));
      assert s1.rows == w + [row];
      forall i | 0 <= i < |w| ensures IdOf(w[i]) != Text(id) {
        assert w[i] in w;
      }
      AppendFreshKey(spec, s.layout, s.notNull, s.unique, w, item, id, now, now);
      forall c | c in s.unique ensures !Taken(w, row, c) {
        forall i | 0 <= i < |w| ensures Column(row, c) != Null ==> Column(w[i], c) != Column(row, c) {
          assert w[i] in w;
        }
      }
    }
  }

  /** Whenever the lookup succeeds, the simple variant has exactly the same effect. */
  lemma InsertOrReplaceSimpleAgrees(spec: TableSpec, s: TableState, item: Record, newId: string, now: int)
    requires Select(spec, s, ReplaceKey(item, newId)).Ok?
    ensures InsertOrReplaceSimpleEffect(spec, s, item, newId, now) == InsertOrReplaceEffect(spec, s, item, newId, now)
  {
  }

  /** The columns `update` assigns, as positions of an aligned layout. */
  lemma UpdateColumnsInLayout(spec: TableSpec, layout: seq<string>)
    requires Aligned(spec, layout)
    ensures var setCols := UpdateColumns(spec) + ["updated_at"]; var n := |spec.fields|;
      && |setCols| == n + 1
      && (forall j :: 0 <= j < n ==> setCols[j] == layout[j + 1])
      && setCols[n] == layout[n + 2]
      && NoDuplicates(setCols)
      && PRIMARY_KEY !in setCols && "created_at" !in setCols
      && MissingColumn(layout, setCols + [PRIMARY_KEY]).None?
  {
    var setCols := UpdateColumns(spec) + ["updated_at"];
    var n := |spec.fields|;
    assert forall j :: 0 <= j < n ==> setCols[j] == layout[1..n + 1][j];
    forall j | 0 <= j < n + 1 ensures setCols[j] != layout[0] && setCols[j] != layout[n + 1] {
      if j < n {
        assert setCols[j] == layout[j + 1];
      }
    }
  }

  /** `update` leaves the key and `created_at` of a row as they were. */
  lemma UpdateKeepsColumns(spec: TableSpec, layout: seq<string>, row: StoredRow, item: Record, now: int)
    requires Aligned(spec, layout) && |item.values| == |spec.fields|
    ensures var b := Bind(UpdateColumns(spec) + ["updated_at"], UpdateParams(item, now));
      PRIMARY_KEY !in b && "created_at" !in b
  {
    UpdateColumnsInLayout(spec, layout);
    BindAt(UpdateColumns(spec) + ["updated_at"], UpdateParams(item, now));
  }

  /** `update` sets each data column `j` to data value `j` and `updated_at` to `now`. */
  lemma UpdateSetsColumns(spec: TableSpec, layout: seq<string>, item: Record, now: int)
    requires Aligned(spec, layout) && |item.values| == |spec.fields|
    ensures var n := |spec.fields|; var b := Bind(UpdateColumns(spec) + ["updated_at"], UpdateParams(item, now));
      && (forall j :: 1 <= j <= n ==> layout[j] in b && b[layout[j]] == item.values[j - 1])
      && layout[n + 2] in b && b[layout[n + 2]] == Integer(now)
  {
    var setCols := UpdateColumns(spec) + ["updated_at"];
    var params := UpdateParams(item, now);
    var b := Bind(setCols, params);
    var n := |spec.fields|;
    UpdateColumnsInLayout(spec, layout);
    BindAt(setCols, params);
    forall j | 1 <= j <= n ensures layout[j] in b && b[layout[j]] == item.values[j - 1] {
      assert setCols[j - 1] == layout[j];
      assert params[j - 1] == item.values[j - 1];
    }
    assert setCols[n] == layout[n + 2] && params[n] == Integer(now);
  }

  /** What `SELECT *` returns for a row after the assignments of `update`. */
  lemma UpdatedProjection(spec: TableSpec, layout: seq<string>, row: StoredRow, item: Record, now: int)
    requires Aligned(spec, layout) && |item.values| == |spec.fields|
    ensures var n := |spec.fields|;
      var p := Project(layout, row);
      var q := Project(layout, row + Bind(UpdateColumns(spec) + ["updated_at"], UpdateParams(item, now)));
      && q[0] == p[0] && q[1..n + 1] == item.values && q[n + 1] == p[n + 1] && q[n + 2] == Integer(now)
  {
    var n := |spec.fields|;
    var b := Bind(UpdateColumns(spec) + ["updated_at"], UpdateParams(item, now));
    UpdateKeepsColumns(spec, layout, row, item, now);
    UpdateSetsColumns(spec, layout, item, now);
    var q := Project(layout, row + b);
    assert layout[0] == PRIMARY_KEY && layout[n + 1] == "created_at";
    forall j | 0 <= j < n ensures q[1..n + 1][j] == item.values[j] {
      assert q[1..n + 1][j] == q[j + 1];
      assert layout[j + 1] in b;
    }
  }

  /** The row with the item's key after `update`: the key and `created_at` kept, the data and `updated_at` new. */
  lemma UpdatedRowReads(spec: TableSpec, layout: seq<string>, row: StoredRow, item: Record, now: int)
    requires Aligned(spec, layout) && WellFormed(spec, item) && I64_MIN <= now <= I64_MAX
    requires IdOf(row) == Text(item.id) && FromRow(spec, Project(layout, row)).Ok?
    ensures var setCols := UpdateColumns(spec) + ["updated_at"];
      FromRow(spec, Project(layout, row + Bind(setCols, UpdateParams(item, now))))
        == Ok(Stamped(item, item.id, FromRow(spec, Project(layout, row)).value.createdAt, now))
  {
    var n := |spec.fields|;
    UpdatedProjection(spec, layout, row, item, now);
    var q := Project(layout, row + Bind(UpdateColumns(spec) + ["updated_at"], UpdateParams(item, now)));
    forall i | 0 <= i < n ensures Fits(q[1 + i], spec.fields[i]) {
      assert q[1 + i] == q[1..n + 1][i];
    }
    assert Readable(spec, q);
  }

  /**
   * On an aligned table `update` is refused exactly when it selects a row and
   * assigns NULL to a NOT NULL column or a value that would repeat in a
   * UNIQUE column; a refused update changes nothing. A successful one keeps
   * the number and order of rows; rows with other keys are untouched, and
   * each readable row with the item's key reads back with the item's data,
   * its own `created_at` and `updated_at = now`.
   */
  lemma UpdateMeaning(spec: TableSpec, s: TableState, item: Record, now: int)
    requires Aligned(spec, s.layout) && WellFormed(spec, item) && I64_MIN <= now <= I64_MAX
    ensures var (r, s1) := UpdateEffect(spec, s, item, now);
      var where := ById(item.id);
      var assigns := Bind(UpdateColumns(spec) + ["updated_at"], UpdateParams(item, now));
      && s1.layout == s.layout && |s1.rows| == |s.rows|
      && (r.Ok? <==>
            || Matching(s.rows, where) == []
            || (&& (forall c :: c in s.layout && c in s.notNull && c in assigns ==> assigns[c] != Null)
                && (forall c :: c in s.layout && c in s.unique ==> !Repeats(s.rows, where, assigns, c))))
      && (r.Err? ==> s1 == s && exists v :: r.msg == Refusal(spec.table, v))
      && (r.Ok? ==> forall i :: 0 <= i < |s.rows| && IdOf(s.rows[i]) != Text(item.id) ==> s1.rows[i] == s.rows[i])
      && (r.Ok? ==> forall i :: 0 <= i < |s.rows| && IdOf(s.rows[i]) == Text(item.id) && FromRow(spec, Project(s.layout, s.rows[i])).Ok? ==>
            FromRow(spec, Project(s.layout, s1.rows[i]))
              == Ok(Stamped(item, item.id, FromRow(spec, Project(s.layout, s.rows[i])).value.createdAt, now)))
  {
    UpdateByViolation(spec, s, item, now);
    AssignedRowsRead(spec, s.layout, s.rows, item, now);
  }

  /** Each readable row with the item's key reads back, once assigned, with the item's data and `updated_at = now`. */
  lemma AssignedRowsRead(spec: TableSpec, layout: seq<string>, rows: seq<StoredRow>, item: Record, now: int)
    requires Aligned(spec, layout) && WellFormed(spec, item) && I64_MIN <= now <= I64_MAX
    ensures var rows1 := Assigned(rows, ById(item.id), Bind(UpdateColumns(spec) + ["updated_at"], UpdateParams(item, now)));
      forall i :: 0 <= i < |rows| && IdOf(rows[i]) == Text(item.id) && FromRow(spec, Project(layout, rows[i])).Ok? ==>
        FromRow(spec, Project(layout, rows1[i])) == Ok(Stamped(item, item.id, FromRow(spec, Project(layout, rows[i])).value.createdAt, now))
  {
    var rows1 := Assigned(rows, ById(item.id), Bind(UpdateColumns(spec) + ["updated_at"], UpdateParams(item, now)));
    forall i | 0 <= i < |rows| && IdOf(rows[i]) == Text(item.id) && FromRow(spec, Project(layout, rows[i])).Ok?
      ensures FromRow(spec, Project(layout, rows1[i]))
              == Ok(Stamped(item, item.id, FromRow(spec, Project(layout, rows[i])).value.createdAt, now))
    {
      UpdatedRowReads(spec, layout, rows[i], item, now);
    }
  }

  /** On an aligned table no updated column is missing, so the update effect is decided by the constraint check alone. */
  lemma UpdateByViolation(spec: TableSpec, s: TableState, item: Record, now: int)
    requires Aligned(spec, s.layout)
    ensures var where := ById(item.id);
      var assigns := Bind(UpdateColumns(spec) + ["updated_at"], UpdateParams(item, now));
      var v := UpdateViolation(s, where, assigns);
      UpdateEffect(spec, s, item, now)
        == if v.Some? then (Err(Refusal(spec.table, v.value)), s) else (Ok(()), s.(rows := Assigned(s.rows, where, assigns)))
  {
    UpdateColumnsInLayout(spec, s.layout);
  }

  /**
   * The three branches of `upsert_by`: no match inserts the built row; a
   * built row that keeps the first match's key updates it and, unless the
   * update is refused, returns that key; any other key goes through
   * `insert_or_replace`.
   */
  lemma UpsertByBranches(spec: TableSpec, s: TableState, where: Where, builder: Option<Record> -> Record, newId: string, now: int)
    requires Aligned(spec, s.layout)
    ensures var sel := SelectManyOf(spec, s, where); var up := UpsertByEffect(spec, s, where, builder, newId, now);
      && (sel.Err? ==> up == (Err(sel.msg), s))
      && (sel == Ok([]) ==> up == InsertEffect(spec, s, builder(None), newId, now))
      && (sel.Ok? && sel.value != [] && PrimaryKeyValue(builder(Some(sel.value[0]))) == PrimaryKeyValue(sel.value[0]) ==>
            var u := UpdateEffect(spec, s, builder(Some(sel.value[0])), now);
            up == (if u.0.Ok? then Ok(PrimaryKeyValue(sel.value[0])) else Err(u.0.msg), u.1))
      && (sel.Ok? && sel.value != [] && PrimaryKeyValue(builder(Some(sel.value[0]))) != PrimaryKeyValue(sel.value[0]) ==>
            up == InsertOrReplaceEffect(spec, s, builder(Some(sel.value[0])), newId, now))
  {
    UpdateColumnsInLayout(spec, s.layout);
  }

  /** The first record `select_many` returns came from a row holding its key, so `WHERE id = ?1` on that key selects a row. */
  lemma SelectedKeyPresent(spec: TableSpec, s: TableState, where: Where)
    requires Aligned(spec, s.layout)
    requires SelectManyOf(spec, s, where).Ok? && SelectManyOf(spec, s, where).value != []
    ensures Matching(s.rows, ById(SelectManyOf(spec, s, where).value[0].id)) != []
  {
    var m := Matching(s.rows, where);
    var rec := SelectManyOf(spec, s, where).value[0];
    var p := Project(s.layout, m[0]);
    assert FromRow(spec, p) == Ok(rec);
    assert p[0] == IdOf(m[0]) by {
      assert s.layout[0] == PRIMARY_KEY;
    }
    assert Fits(p[0], ID_FIELD);
    assert m[0] in m;
    var i :| 0 <= i < |s.rows| && s.rows[i] == m[0];
    assert IdOf(s.rows[i]) == Text(rec.id);
    MatchingEmptyIff(s.rows, rec.id);
  }

  /**
   * With a builder that keeps the key of the row it is given, a successful
   * `upsert_by` adds a row exactly when nothing matched.
   */
  lemma UpsertByRowCount(spec: TableSpec, s: TableState, where: Where, builder: Option<Record> -> Record, newId: string, now: int)
    requires Aligned(spec, s.layout) && WellFormed(spec, builder(None)) && I64_MIN <= now <= I64_MAX
    requires forall rec :: PrimaryKeyValue(builder(Some(rec))) == PrimaryKeyValue(rec)
    requires UpsertByEffect(spec, s, where, builder, newId, now).0.Ok?
    ensures var sel := SelectManyOf(spec, s, where); var s1 := UpsertByEffect(spec, s, where, builder, newId, now).1;
      && sel.Ok?
      && |s1.rows| == |s.rows| + (if sel.value == [] then 1 else 0)
  {
    UpsertByBranches(spec, s, where, builder, newId, now);
    var sel := SelectManyOf(spec, s, where);
    if sel.Ok? && sel.value == [] {
      InsertMeaning(spec, s, builder(None), newId, now);
    }
  }

  // ---------------------------------------------------------------------------
  // Creating a table

  /** One column definition: the column name, then its type and constraints (`name TEXT NOT NULL`). */
  datatype ColumnDef = ColumnDef(name: string, decl: string)

  function DefText(d: ColumnDef): string
  {
    d.name + " " + d.decl
  }

  /** The column names a `CREATE TABLE` column list declares, in order. */
  function LayoutOf(defs: seq<ColumnDef>): (r: seq<string>)
    ensures |r| == |defs| && forall i :: 0 <= i < |defs| ==> r[i] == defs[i].name
  {
    seq(|defs|, i requires 0 <= i < |defs| => defs[i].name)
  }

  function DefsText(defs: seq<ColumnDef>): string
  {
    Join(seq(|defs|, i requires 0 <= i < |defs| => DefText(defs[i])), ", ")
  }

  const KEY_DEF := ColumnDef(PRIMARY_KEY, "TEXT PRIMARY KEY")
  const CREATED_DEF := ColumnDef("created_at", "INTEGER NOT NULL")
  const UPDATED_DEF := ColumnDef("updated_at", "INTEGER NOT NULL")

  /** `create_table_sql` as written: the key, both timestamps, then the given columns. */
  function CreateDefsAsWritten(columns: seq<ColumnDef>): seq<ColumnDef>
  {
    [KEY_DEF, CREATED_DEF, UPDATED_DEF] + columns
  }

  function CreateTableSqlAsWritten(table: string, columns: seq<ColumnDef>): string
  {
    "CREATE TABLE IF NOT EXISTS " + table + " (" + DefsText(CreateDefsAsWritten(columns)) + ")"
  }

  /** The column order `from_row` reads: the key, the given columns, then both timestamps. */
  function CreateDefs(columns: seq<ColumnDef>): seq<ColumnDef>
  {
    [KEY_DEF] + columns + [CREATED_DEF, UPDATED_DEF]
  }

  function CreateTableSql(table: string, columns: seq<ColumnDef>): string
  {
    "CREATE TABLE IF NOT EXISTS " + table + " (" + DefsText(CreateDefs(columns)) + ")"
  }

  /** Stored by column name, column `i` of `all_columns` holds value `i` of the record's row. */
  lemma StoredColumn(spec: TableSpec, r: Record, i: nat)
    requires NoDuplicates(AllColumns(spec)) && |r.values| == |spec.fields| && i < |spec.fields| + 3
    ensures Column(Bind(AllColumns(spec), RowOf(r)), AllColumns(spec)[i]) == RowOf(r)[i]
  {
    BindAt(AllColumns(spec), RowOf(r));
  }

  /**
   * As written, a table made by `create_table_sql` returns `created_at` where
   * `from_row` expects the first data field, so a stored record whose first
   * value is not its creation time never reads back as itself.
   */
  lemma CreateTableAsWrittenMisreads(spec: TableSpec, columns: seq<ColumnDef>, r: Record)
    requires LayoutOf(columns) == Names(spec.fields) && NoDuplicates(AllColumns(spec)) && WellFormed(spec, r)
    requires |spec.fields| > 0 && r.values[0] != Integer(r.createdAt)
    ensures FromRow(spec, Project(LayoutOf(CreateDefsAsWritten(columns)), Bind(AllColumns(spec), RowOf(r)))) != Ok(r)
  {
    var p := Project(LayoutOf(CreateDefsAsWritten(columns)), Bind(AllColumns(spec), RowOf(r)));
    AsWrittenSecondColumn(spec, columns, r);
    FirstValueRead(spec, p);
  }

  /** `from_row` takes the first data value from the second column. */
  lemma FirstValueRead(spec: TableSpec, p: seq<SqlValue>)
    requires |spec.fields| > 0
    ensures FromRow(spec, p).Ok? ==> FromRow(spec, p).value.values[0] == p[1]
  {
  }

  /** As written, the second column `SELECT *` returns is `created_at`. */
  lemma AsWrittenSecondColumn(spec: TableSpec, columns: seq<ColumnDef>, r: Record)
    requires NoDuplicates(AllColumns(spec)) && |r.values| == |spec.fields|
    ensures var p := Project(LayoutOf(CreateDefsAsWritten(columns)), Bind(AllColumns(spec), RowOf(r)));
      |p| > 1 && p[1] == Integer(r.createdAt)
  {
    var n := |spec.fields|;
    var layout := LayoutOf(CreateDefsAsWritten(columns));
    assert layout[1] == "created_at" == AllColumns(spec)[n + 1];
    StoredColumn(spec, r, n + 1);
  }

  /** A table whose only field is a text column: reading back any record fails on a type mismatch. */
  lemma CreateTableAsWrittenExample()
    ensures var spec := TableSpec("t", [Field("name", TextKind, true)]);
      FromRow(spec, Project(LayoutOf(CreateDefsAsWritten([ColumnDef("name", "TEXT")])), Bind(AllColumns(spec), RowOf(Record("k", [Text("x")], 1, 1))))).Err?
  {
    var spec := TableSpec("t", [Field("name", TextKind, true)]);
    var r := Record("k", [Text("x")], 1, 1);
    assert AllColumns(spec)[2] == "created_at";
    assert NoDuplicates(AllColumns(spec));
    BindAt(AllColumns(spec), RowOf(r));
    var p := Project(LayoutOf(CreateDefsAsWritten([ColumnDef("name", "TEXT")])), Bind(AllColumns(spec), RowOf(r)));
    assert p[1] == Integer(1);
  }

  /** Corrected: the created layout is `all_columns`, so every well-formed record reads back as itself. */
  lemma CreateTableRoundTrip(spec: TableSpec, columns: seq<ColumnDef>, r: Record)
    requires LayoutOf(columns) == Names(spec.fields) && NoDuplicates(AllColumns(spec)) && WellFormed(spec, r)
    ensures Aligned(spec, LayoutOf(CreateDefs(columns)))
    ensures FromRow(spec, Project(LayoutOf(CreateDefs(columns)), Bind(AllColumns(spec), RowOf(r)))) == Ok(r)
  {
    var layout := LayoutOf(CreateDefs(columns));
    CreateLayout(spec, columns);
    StoredRoundTrip(spec, layout, r);
  }

  /** The corrected statement declares exactly the columns `all_columns` lists, in its order. */
  lemma CreateLayout(spec: TableSpec, columns: seq<ColumnDef>)
    requires LayoutOf(columns) == Names(spec.fields)
    ensures LayoutOf(CreateDefs(columns)) == AllColumns(spec)
  {
    var defs := CreateDefs(columns);
    var layout := LayoutOf(defs);
    var all := AllColumns(spec);
    var n := |spec.fields|;
    assert |columns| == |LayoutOf(columns)| == n;
    forall j | 0 <= j < n + 3 ensures layout[j] == all[j] {
      if 1 <= j <= n {
        assert defs[j] == columns[j - 1];
        assert all[j] == all[1..n + 1][j - 1] == Names(spec.fields)[j - 1];
        assert columns[j - 1].name == LayoutOf(columns)[j - 1];
      } else if j == n + 1 {
        assert defs[j] == CREATED_DEF;
      } else if j == n + 2 {
        assert defs[j] == UPDATED_DEF;
      }
    }
  }

  /** A new table from the corrected statement. */
  method CreateTable(columns: seq<ColumnDef>) returns (db: SqliteTable)
    ensures fresh(db) && db.layout == LayoutOf(CreateDefs(columns)) && db.rows == []
    ensures db.notNull == Declaring(CreateDefs(columns), "NOT NULL") && db.unique == Declaring(CreateDefs(columns), "UNIQUE")
  {
    var defs := CreateDefs(columns);
    db := new SqliteTable(LayoutOf(defs), Declaring(defs, "NOT NULL"), Declaring(defs, "UNIQUE"));
  }

  /** The columns whose declaration carries a constraint, in any letter case (`hostname TEXT NOT NULL UNIQUE`). */
  function Declaring(defs: seq<ColumnDef>, constraint: string): (r: set<string>)
    ensures forall c :: c in r <==> exists i :: 0 <= i < |defs| && defs[i].name == c && Contains(ToUpper(defs[i].decl), constraint)
  {
    set i | 0 <= i < |defs| && Contains(ToUpper(defs[i].decl), constraint) :: defs[i].name
  }
}
