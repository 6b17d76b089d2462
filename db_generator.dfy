/**
 * The code generator behind `halvor db generate`: it reads each table's
 * columns and unique indexes, maps names and SQL types to Rust, and
 * writes a struct, a data struct and CRUD wrappers per table. The model
 * keeps the decisions (names, types, defaults, which fields and which
 * delete functions appear, in which order) and the text of the lines that
 * the generator pushes one per field; the fixed template text around them
 * is a constant of the generator and is not modelled.
 */
module DbGenerator {
  import opened Wrappers
  import opened Strings

  // ---------------------------------------------------------------------------
  // Schema read through PRAGMA queries

  /** `ColumnInfo`. */
  datatype ColumnInfo = ColumnInfo(name: string, sqlType: string, notNull: bool, isPrimaryKey: bool, isUnique: bool)

  /** `UniqueConstraint`. */
  datatype UniqueConstraint = UniqueConstraint(columns: seq<string>)

  /** `TableInfo`. */
  datatype TableInfo = TableInfo(name: string, columns: seq<ColumnInfo>, uniqueConstraints: seq<UniqueConstraint>)

  /** A row of `PRAGMA table_info`: name, declared type, notnull and pk flags. */
  datatype PragmaRow = PragmaRow(name: string, sqlType: string, notNull: int, pk: int)

  /** A row of `PRAGMA index_list` with the columns `PRAGMA index_info` lists for it. */
  datatype IndexEntry = IndexEntry(name: string, unique: int, columns: seq<string>)

  function FromPragma(row: PragmaRow): ColumnInfo
  {
    ColumnInfo(row.name, ToUpper(row.sqlType), row.notNull != 0, row.pk != 0, false)
  }

  /** The columns in `PRAGMA table_info` order, none yet unique. */
  function PragmaColumns(rows: seq<PragmaRow>): (cs: seq<ColumnInfo>)
    ensures |cs| == |rows| && forall i :: 0 <= i < |rows| ==> cs[i] == FromPragma(rows[i])
  {
    seq(|rows|, i requires 0 <= i < |rows| => FromPragma(rows[i]))
  }

  /**
   * The test on the `CREATE TABLE` text: a column other than `id` is
   * unique when the upper-cased statement contains `NAME UNIQUE` or
   * `UNIQUE(NAME)` with the upper-cased name.
   */
  predicate IsUniqueColumn(name: string, createSql: string)
  {
    name != "id" &&
    (Contains(ToUpper(createSql), ToUpper(name) + " UNIQUE") || Contains(ToUpper(createSql), "UNIQUE(" + ToUpper(name) + ")"))
  }

  function Marked(c: ColumnInfo, createSql: string): ColumnInfo
  {
    if IsUniqueColumn(c.name, createSql) then c.(isUnique := true) else c
  }

  function MarkedAll(cs: seq<ColumnInfo>, createSql: string): (r: seq<ColumnInfo>)
    ensures |r| == |cs| && forall i :: 0 <= i < |cs| ==> r[i] == Marked(cs[i], createSql)
  {
    seq(|cs|, i requires 0 <= i < |cs| => Marked(cs[i], createSql))
  }

  /** The `for col in &mut columns` loop: each column is marked in place. */
  method MarkUniqueColumns(columns: array<ColumnInfo>, createSql: string)
    modifies columns
    ensures forall i :: 0 <= i < columns.Length ==> columns[i] == Marked(old(columns[i]), createSql)
  {
    for i := 0 to columns.Length
      invariant forall k :: 0 <= k < i ==> columns[k] == Marked(old(columns[k]), createSql)
      invariant forall k :: i <= k < columns.Length ==> columns[k] == old(columns[k])
    {
      if columns[i].name != "id" {
        if IsUniqueColumn(columns[i].name, createSql) {
          columns[i] := columns[i].(isUnique := true);
        }
      }
    }
  }

  /** The unique constraints: one per unique index that lists at least one column, in index order. */
  function UniqueConstraintsOf(indexes: seq<IndexEntry>): seq<UniqueConstraint>
  {
    if indexes == [] then []
    else
      var last := indexes[|indexes| - 1];
      UniqueConstraintsOf(indexes[..|indexes| - 1]) +
        (if last.unique != 0 && last.columns != [] then [UniqueConstraint(last.columns)] else [])
  }

  /** The loop over `PRAGMA index_list`. */
  method CollectUniqueConstraints(indexes: seq<IndexEntry>) returns (cs: seq<UniqueConstraint>)
    ensures cs == UniqueConstraintsOf(indexes)
  {
    cs := [];
    for i := 0 to |indexes|
      invariant cs == UniqueConstraintsOf(indexes[..i])
    {
      assert indexes[..i + 1][..i] == indexes[..i];
      var index := indexes[i];
      if index.unique != 0 {
        var constraintCols := index.columns;
        if constraintCols != [] {
          cs := cs + [UniqueConstraint(constraintCols)];
        }
      }
    }
    assert indexes[..|indexes|] == indexes;
  }

  /**
   * Each constraint is the column list of a unique index and is never
   * empty, and every unique index with columns gives one.
   */
  lemma {:induction false} UniqueConstraintsMeaning(indexes: seq<IndexEntry>)
    ensures var r := UniqueConstraintsOf(indexes);
      && |r| <= |indexes|
      && (forall u :: u in r ==> u.columns != [] && exists i :: 0 <= i < |indexes| && indexes[i].unique != 0 && indexes[i].columns == u.columns)
      && (forall i :: 0 <= i < |indexes| && indexes[i].unique != 0 && indexes[i].columns != [] ==> UniqueConstraint(indexes[i].columns) in r)
  {
    if indexes != [] {
      var n := |indexes| - 1;
      var init := indexes[..n];
      UniqueConstraintsMeaning(init);
      assert forall i :: 0 <= i < n ==> init[i] == indexes[i];
      var r := UniqueConstraintsOf(indexes);
      forall u | u in r ensures u.columns != [] && exists i :: 0 <= i < |indexes| && indexes[i].unique != 0 && indexes[i].columns == u.columns {
        if u !in UniqueConstraintsOf(init) {
          assert indexes[n].unique != 0 && indexes[n].columns == u.columns;
        }
      }
    }
  }

  /** The `TableInfo` one table yields, given what the three PRAGMA queries and `sqlite_master` return. */
  function TableInfoOf(name: string, rows: seq<PragmaRow>, indexes: seq<IndexEntry>, createSql: string): TableInfo
  {
    TableInfo(name, MarkedAll(PragmaColumns(rows), createSql), UniqueConstraintsOf(indexes))
  }

  /** The body of the per-table loop of `get_database_schema_from_pragma`, the query results given. */
  method ReadTableInfo(name: string, rows: seq<PragmaRow>, indexes: seq<IndexEntry>, createSql: string) returns (info: TableInfo)
    ensures info == TableInfoOf(name, rows, indexes, createSql)
  {
    var columns: seq<ColumnInfo> := [];
    for i := 0 to |rows|
      invariant |columns| == i && forall k :: 0 <= k < i ==> columns[k] == FromPragma(rows[k])
    {
      columns := columns + [FromPragma(rows[i])];
    }
    var uniqueConstraints := CollectUniqueConstraints(indexes);
    var a := new ColumnInfo[|columns|](i requires 0 <= i < |columns| => columns[i]);
    MarkUniqueColumns(a, createSql);
    info := TableInfo(name, a[..], uniqueConstraints);
  }

  /**
   * Column by column, a table's info keeps the PRAGMA order, the
   * upper-cased type, both flags, and is unique exactly when the
   * `CREATE TABLE` text says so.
   */
  lemma TableInfoMeaning(name: string, rows: seq<PragmaRow>, indexes: seq<IndexEntry>, createSql: string)
    ensures var info := TableInfoOf(name, rows, indexes, createSql);
      && info.name == name
      && |info.columns| == |rows|
      && forall i :: 0 <= i < |rows| ==>
        && info.columns[i].name == rows[i].name
        && info.columns[i].sqlType == ToUpper(rows[i].sqlType)
        && (info.columns[i].notNull <==> rows[i].notNull != 0)
        && (info.columns[i].isPrimaryKey <==> rows[i].pk != 0)
        && (info.columns[i].isUnique <==> IsUniqueColumn(rows[i].name, createSql))
  {
  }

  /** A `UNIQUE(name)` table constraint anywhere in the statement marks the column, whatever its case. */
  lemma UniqueByConstraint(name: string, before: string, after: string)
    requires name != "id"
    ensures IsUniqueColumn(name, before + "UNIQUE(" + name + ")" + after)
  {
    var key := "UNIQUE(" + ToUpper(name) + ")";
    ToUpperConcat(before + "UNIQUE(" + name, ")" + after);
    ToUpperConcat(before + "UNIQUE(", name);
    ToUpperConcat(before, "UNIQUE(");
    ToUpperConcat(")", after);
    assert ToUpper("UNIQUE(") == "UNIQUE(";
    assert ToUpper(")") == ")";
    assert ToUpper(before + "UNIQUE(" + name + ")" + after) == ToUpper(before) + key + ToUpper(after);
    ContainsMiddle(ToUpper(before), key, ToUpper(after));
  }

  /** The `id` column is never marked, whatever the statement says. */
  lemma IdNeverUnique(createSql: string, c: ColumnInfo)
    requires c.name == "id"
    ensures Marked(c, createSql) == c
  {
  }

  // ---------------------------------------------------------------------------
  // Names and types

  /** The first character upper-cased, the rest as it is. */
  function Capitalize(w: string): string
  {
    if w == [] then [] else [UpperChar(w[0])] + w[1..]
  }

  function CapitalizeAll(ws: seq<string>): (r: seq<string>)
    ensures |r| == |ws| && forall i :: 0 <= i < |ws| ==> r[i] == Capitalize(ws[i])
  {
    if ws == [] then [] else [Capitalize(ws[0])] + CapitalizeAll(ws[1..])
  }

  /** `to_struct_name`: each `_`-separated segment capitalised, concatenated, then `Row`. */
  function StructName(tableName: string): string
  {
    Join(CapitalizeAll(Split(tableName, '_')), "") + "Row"
  }

  /** For a table name made of `_`-free segments, the struct name is those segments capitalised and `Row`. */
  lemma StructNameOfSegments(segments: seq<string>)
    requires |segments| >= 1
    requires forall i :: 0 <= i < |segments| ==> '_' !in segments[i]
    ensures StructName(Join(segments, "_")) == Join(CapitalizeAll(segments), "") + "Row"
  {
    SplitJoin(segments, '_');
  }

  lemma {:induction false} JoinWithout(parts: seq<string>, c: char)
    requires forall i :: 0 <= i < |parts| ==> c !in parts[i]
    ensures c !in Join(parts, "")
    decreases |parts|
  {
    if |parts| > 1 {
      JoinWithout(parts[1..], c);
    }
  }

  /** A struct name has no `_` and always ends in `Row`. */
  lemma StructNameShape(tableName: string)
    ensures '_' !in StructName(tableName)[..|StructName(tableName)| - 3]
    ensures EndsWith(StructName(tableName), "Row")
  {
    var segments := Split(tableName, '_');
    var caps := CapitalizeAll(segments);
    forall i | 0 <= i < |caps| ensures '_' !in caps[i] {
      assert '_' !in segments[i];
      assert caps[i] == Capitalize(segments[i]);
    }
    JoinWithout(caps, '_');
    var pascal := Join(caps, "");
    assert StructName(tableName)[..|StructName(tableName)| - 3] == pascal;
  }

  /** `to_field_name`: `hostname_field` is singled out but kept, so every column keeps its name. */
  function FieldName(columnName: string): (r: string)
    ensures r == columnName
  {
    if columnName == "hostname_field" then "hostname_field" else columnName
  }

  /** The Rust type before nullability: INTEGER is `i64` (`i32` for the two install flags), TEXT `String`, REAL `f64`, BLOB `Vec<u8>`, anything else `String`. */
  function BaseType(sqlType: string, columnName: string): string
  {
    if sqlType == "INTEGER" then
      (if columnName == "tailscale_installed" || columnName == "portainer_installed" then "i32" else "i64")
    else if sqlType == "TEXT" then "String"
    else if sqlType == "REAL" then "f64"
    else if sqlType == "BLOB" then "Vec<u8>"
    else "String"
  }

  /** `sql_type_to_rust`. */
  function RustType(sqlType: string, notNull: bool, columnName: string): string
  {
    var t := BaseType(sqlType, columnName);
    if notNull then t else "Option<" + t + ">"
  }

  /** The base type a field type wraps, when it is an `Option`. */
  function Unwrapped(rustType: string): string
  {
    if |rustType| >= 8 && StartsWith(rustType, "Option<") && EndsWith(rustType, ">") then rustType[7..|rustType| - 1] else rustType
  }

  /** A field is an `Option` exactly when its column may be NULL, and unwrapping gives the base type back. */
  lemma RustTypeMeaning(sqlType: string, notNull: bool, columnName: string)
    ensures var r := RustType(sqlType, notNull, columnName);
      && (StartsWith(r, "Option<") <==> !notNull)
      && Unwrapped(r) == BaseType(sqlType, columnName)
  {
    var t := BaseType(sqlType, columnName);
    var r := RustType(sqlType, notNull, columnName);
    assert !StartsWith(t, "Option<") by {
      assert t == "i32" || t == "i64" || t == "String" || t == "f64" || t == "Vec<u8>";
      if t == "Vec<u8>" {
        assert t[0] != 'O';
      }
    }
    if !notNull {
      assert r[..7] == "Option<";
      assert r[7..|r| - 1] == t;
    }
  }

  /** The default the upsert closure starts a new row with, decided on the Rust type text. */
  function DefaultExpr(rustType: string): string
  {
    if StartsWith(rustType, "Option<") then "None"
    else if rustType == "String" then "String::new()"
    else if rustType == "i64" || rustType == "i32" then "0"
    else "Default::default()"
  }

  /**
   * The defaults by column: `None` for a nullable column; for a NOT NULL
   * one `0` for INTEGER, `Default::default()` for REAL and BLOB, and the
   * empty string for TEXT and every other type.
   */
  lemma DefaultOfColumn(sqlType: string, notNull: bool, columnName: string)
    ensures DefaultExpr(RustType(sqlType, notNull, columnName)) ==
      if !notNull then "None"
      else if sqlType == "INTEGER" then "0"
      else if sqlType == "REAL" || sqlType == "BLOB" then "Default::default()"
      else "String::new()"
  {
    RustTypeMeaning(sqlType, notNull, columnName);
  }

  // ---------------------------------------------------------------------------
  // The lines generated per field

  const MANAGED: seq<string> := ["id", "created_at", "updated_at"]

  /** The data fields: every column but the three the table layer manages, in order. */
  function DataFields(cols: seq<ColumnInfo>): seq<ColumnInfo>
  {
    if cols == [] then []
    else DataFields(cols[..|cols| - 1]) + (if cols[|cols| - 1].name in MANAGED then [] else [cols[|cols| - 1]])
  }

  /** The filter keeps exactly the unmanaged columns and keeps them in order. */
  lemma {:induction false} DataFieldsMeaning(a: seq<ColumnInfo>, b: seq<ColumnInfo>)
    ensures DataFields(a + b) == DataFields(a) + DataFields(b)
    ensures forall c :: c in DataFields(a) <==> c in a && c.name !in MANAGED
    decreases |b|
  {
    if b != [] {
      var init := b[..|b| - 1];
      assert (a + b)[..|a + b| - 1] == a + init;
      DataFieldsMeaning(a, init);
    } else {
      assert a + b == a;
    }
    DataFieldsMembers(a);
  }

  lemma {:induction false} DataFieldsMembers(a: seq<ColumnInfo>)
    ensures forall c :: c in DataFields(a) <==> c in a && c.name !in MANAGED
  {
    if a != [] {
      var init := a[..|a| - 1];
      DataFieldsMembers(init);
      assert a == init + [a[|a| - 1]];
    }
  }

  /** What the per-field templates use of a data field: its Rust name, its Rust type and the default of that type. */
  datatype FieldView = FieldView(name: string, rustType: string, defaultExpr: string)

  function ViewOf(c: ColumnInfo): FieldView
  {
    var t := RustType(c.sqlType, c.notNull, c.name);
    FieldView(FieldName(c.name), t, DefaultExpr(t))
  }

  /** The view of every field, in order. */
  function Views(fields: seq<ColumnInfo>): (r: seq<FieldView>)
    ensures |r| == |fields|
  {
    if fields == [] then [] else Views(fields[..|fields| - 1]) + [ViewOf(fields[|fields| - 1])]
  }

  lemma {:induction false} ViewsAt(fields: seq<ColumnInfo>)
    ensures forall i :: 0 <= i < |fields| ==> Views(fields)[i] == ViewOf(fields[i])
  {
    if fields != [] {
      ViewsAt(fields[..|fields| - 1]);
    }
  }

  /** Which of the field's values a template puts after its separator. */
  datatype Slot = NameSlot | TypeSlot | DefaultSlot

  /** A per-field line of the generated code: `lead`, the field name, `sep`, the slot's value, `tail`. */
  datatype FieldTemplate = FieldTemplate(lead: string, sep: string, slot: Slot, tail: string)

  const STRUCT_FIELD := FieldTemplate("    pub ", ": ", TypeSlot, ",")
  const DATA_PARAM := FieldTemplate("        ", ": data.", NameSlot, ".clone(),")
  const DEFAULT_VALUE := FieldTemplate("                ", ": ", DefaultSlot, ",")
  const INITIAL_ASSIGNMENT := FieldTemplate("                r.", " = data.", NameSlot, ".clone();")
  const FIELD_UPDATE := FieldTemplate("            row.", " = data.", NameSlot, ";")

  function SlotValue(s: Slot, v: FieldView): string
  {
    match s
    case NameSlot => v.name
    case TypeSlot => v.rustType
    case DefaultSlot => v.defaultExpr
  }

  /** The line a template gives for one data field. */
  function FieldLine(t: FieldTemplate, v: FieldView): string
  {
    t.lead + v.name + t.sep + SlotValue(t.slot, v) + t.tail
  }

  /** One line per field, in the fields' order. */
  function FieldLines(t: FieldTemplate, views: seq<FieldView>): (r: seq<string>)
    ensures |r| == |views|
  {
    if views == [] then [] else FieldLines(t, views[..|views| - 1]) + [FieldLine(t, views[|views| - 1])]
  }

  lemma {:induction false} FieldLinesAt(t: FieldTemplate, views: seq<FieldView>)
    ensures forall i :: 0 <= i < |views| ==> FieldLines(t, views)[i] == FieldLine(t, views[i])
  {
    if views != [] {
      FieldLinesAt(t, views[..|views| - 1]);
    }
  }

  /** The `for` loops that `push_str` one line per data field. */
  method RenderFieldLines(t: FieldTemplate, views: seq<FieldView>) returns (text: string)
    ensures text == Unlines(FieldLines(t, views))
  {
    text := "";
    for i := 0 to |views|
      invariant text == Unlines(FieldLines(t, views[..i]))
    {
      assert views[..i + 1][..i] == views[..i];
      UnlinesSnoc(FieldLines(t, views[..i]), FieldLine(t, views[i]));
      text := text + FieldLine(t, views[i]) + "\n";
    }
    assert views[..|views|] == views;
  }

  lemma UnlinesSnoc(ls: seq<string>, x: string)
    ensures Unlines(ls + [x]) == Unlines(ls) + x + "\n"
  {
    assert (ls + [x])[..|ls|] == ls;
  }

  /** `generate_field_updates`. */
  method GenerateFieldUpdates(dataFields: seq<ColumnInfo>) returns (updates: string)
    ensures updates == Unlines(FieldLines(FIELD_UPDATE, Views(dataFields)))
  {
    updates := RenderFieldLines(FIELD_UPDATE, Views(dataFields));
  }

  /** Column names that fit on one line. */
  predicate PlainNames(cols: seq<ColumnInfo>)
  {
    forall i :: 0 <= i < |cols| ==> '\n' !in cols[i].name
  }

  /** No Rust type and no default contains a line break. */
  lemma PlainView(c: ColumnInfo)
    ensures '\n' !in ViewOf(c).rustType && '\n' !in ViewOf(c).defaultExpr
  {
    var rt := RustType(c.sqlType, c.notNull, c.name);
    var b := BaseType(c.sqlType, c.name);
    assert b == "i32" || b == "i64" || b == "String" || b == "f64" || b == "Vec<u8>";
    assert '\n' !in rt;
    var d := DefaultExpr(rt);
    assert d == "None" || d == "String::new()" || d == "0" || d == "Default::default()";
  }

  /** A template whose fixed text has no line break and does not end the line with a carriage return. */
  predicate PlainTemplate(t: FieldTemplate)
  {
    '\n' !in t.lead && '\n' !in t.sep && '\n' !in t.tail && t.tail != [] && t.tail[|t.tail| - 1] != '\r'
  }

  lemma PlainTemplates()
    ensures PlainTemplate(STRUCT_FIELD) && PlainTemplate(DATA_PARAM) && PlainTemplate(DEFAULT_VALUE)
    ensures PlainTemplate(INITIAL_ASSIGNMENT) && PlainTemplate(FIELD_UPDATE)
  {
  }

  /** A plain template keeps a field on one line. */
  lemma PlainFieldLine(t: FieldTemplate, v: FieldView)
    requires PlainTemplate(t)
    requires '\n' !in v.name && '\n' !in v.rustType && '\n' !in v.defaultExpr
    ensures PlainLine(FieldLine(t, v))
  {
    var l := FieldLine(t, v);
    assert l[|l| - 1] == t.tail[|t.tail| - 1];
  }

  /** With one-line names every rendered line is a plain line. */
  lemma PlainFieldLines(t: FieldTemplate, cols: seq<ColumnInfo>)
    requires PlainTemplate(t) && PlainNames(cols)
    ensures forall i :: 0 <= i < |cols| ==> PlainLine(FieldLines(t, Views(cols))[i])
  {
    var vs := Views(cols);
    FieldLinesAt(t, vs);
    ViewsAt(cols);
    forall i | 0 <= i < |cols| ensures PlainLine(FieldLines(t, vs)[i]) {
      PlainView(cols[i]);
      PlainFieldLine(t, vs[i]);
    }
  }

  /** With one-line names, the rendered lines read back as the template's lines. */
  lemma PlainLinesOf(t: FieldTemplate, cols: seq<ColumnInfo>)
    requires PlainTemplate(t) && PlainNames(cols)
    ensures Lines(Unlines(FieldLines(t, Views(cols)))) == FieldLines(t, Views(cols))
  {
    PlainFieldLines(t, cols);
    LinesOfUnlines(FieldLines(t, Views(cols)));
  }

  /** The field updates read back as one assignment per data field, in the fields' order. */
  lemma FieldUpdatesLines(dataFields: seq<ColumnInfo>)
    requires PlainNames(dataFields)
    ensures var ls := Lines(Unlines(FieldLines(FIELD_UPDATE, Views(dataFields))));
      && |ls| == |dataFields|
      && forall i :: 0 <= i < |dataFields| ==>
        ls[i] == "            row." + dataFields[i].name + " = data." + dataFields[i].name + ";"
  {
    PlainTemplates();
    PlainLinesOf(FIELD_UPDATE, dataFields);
    FieldLinesAt(FIELD_UPDATE, Views(dataFields));
    ViewsAt(dataFields);
  }

  // ---------------------------------------------------------------------------
  // The struct of a table

  const ID_LINE: string := "    pub id: String,"
  const CREATED_LINE: string := "    pub created_at: i64,"
  const UPDATED_LINE: string := "    pub updated_at: i64,"

  /** The struct's field lines: `id`, the data fields, then the two timestamps. */
  function StructFieldLines(cols: seq<ColumnInfo>): seq<string>
  {
    [ID_LINE] + FieldLines(STRUCT_FIELD, Views(DataFields(cols))) + [CREATED_LINE] + [UPDATED_LINE]
  }

  /** Building `struct_fields` in `generate_structs`. */
  method BuildStructFields(cols: seq<ColumnInfo>) returns (text: string)
    ensures text == Unlines(StructFieldLines(cols))
  {
    var dataFields := DataFields(cols);
    text := ID_LINE + "\n";
    var fields := RenderFieldLines(STRUCT_FIELD, Views(dataFields));
    text := text + fields;
    text := text + CREATED_LINE + "\n";
    text := text + UPDATED_LINE + "\n";
    UnlinesFramed(ID_LINE, FieldLines(STRUCT_FIELD, Views(dataFields)), CREATED_LINE, UPDATED_LINE);
  }

  /** A block of lines between one line before and two after, as pushed in that order. */
  lemma UnlinesFramed(a: string, data: seq<string>, b: string, c: string)
    ensures Unlines([a] + data + [b] + [c]) == a + "\n" + Unlines(data) + b + "\n" + c + "\n"
  {
    UnlinesSnoc([], a);
    assert [] + [a] == [a];
    UnlinesConcat([a], data);
    UnlinesSnoc([a] + data, b);
    UnlinesSnoc([a] + data + [b], c);
  }

  /** Where the framed block's lines sit. */
  lemma FramedAt(a: string, data: seq<string>, b: string, c: string)
    ensures var ls := [a] + data + [b] + [c];
      && |ls| == |data| + 3 && ls[0] == a && ls[|data| + 1] == b && ls[|data| + 2] == c
      && ls[1..|data| + 1] == data
      && forall i :: 0 <= i < |data| ==> ls[i + 1] == data[i]
  {
    var ls := [a] + data + [b] + [c];
    assert ls[1..|data| + 1] == data;
  }

  /**
   * The struct puts `id: String` first, one `pub name: type` line per data
   * field in column order, then `created_at` and `updated_at` as `i64`.
   */
  lemma StructFieldsLayout(cols: seq<ColumnInfo>)
    ensures var ls := StructFieldLines(cols);
      var data := DataFields(cols);
      && |ls| == |data| + 3
      && ls[0] == ID_LINE
      && (forall i :: 0 <= i < |data| ==> ls[i + 1] == "    pub " + data[i].name + ": " + RustType(data[i].sqlType, data[i].notNull, data[i].name) + ",")
      && ls[|data| + 1] == CREATED_LINE && ls[|data| + 2] == UPDATED_LINE
  {
    FieldLinesAt(STRUCT_FIELD, Views(DataFields(cols)));
    ViewsAt(DataFields(cols));
    FramedAt(ID_LINE, FieldLines(STRUCT_FIELD, Views(DataFields(cols))), CREATED_LINE, UPDATED_LINE);
  }

  /** With one-line column names, the generated text reads back as those lines. */
  lemma StructFieldsReadBack(cols: seq<ColumnInfo>)
    requires PlainNames(cols)
    ensures Lines(Unlines(StructFieldLines(cols))) == StructFieldLines(cols)
  {
    PlainStructLines(cols);
    LinesOfUnlines(StructFieldLines(cols));
  }

  lemma PlainStructLines(cols: seq<ColumnInfo>)
    requires PlainNames(cols)
    ensures forall i :: 0 <= i < |StructFieldLines(cols)| ==> PlainLine(StructFieldLines(cols)[i])
  {
    var data := DataFields(cols);
    var ls := StructFieldLines(cols);
    DataFieldsMembers(cols);
    assert PlainNames(data) by {
      forall i | 0 <= i < |data| ensures '\n' !in data[i].name {
        assert data[i] in cols;
      }
    }
    PlainTemplates();
    PlainFieldLines(STRUCT_FIELD, data);
    PlainFixedLines();
    PlainFramed(ID_LINE, FieldLines(STRUCT_FIELD, Views(data)), CREATED_LINE, UPDATED_LINE);
  }

  lemma PlainFixedLines()
    ensures PlainLine(ID_LINE) && PlainLine(CREATED_LINE) && PlainLine(UPDATED_LINE)
  {
  }

  lemma PlainFramed(a: string, data: seq<string>, b: string, c: string)
    requires PlainLine(a) && PlainLine(b) && PlainLine(c)
    requires forall i :: 0 <= i < |data| ==> PlainLine(data[i])
    ensures var ls := [a] + data + [b] + [c];
      forall i :: 0 <= i < |ls| ==> PlainLine(ls[i])
  {
    FramedAt(a, data, b, c);
  }

  /** The `impl_table_auto!` field list: the data field names joined with `, `. */
  function FieldList(cols: seq<ColumnInfo>): string
  {
    Join(FieldNames(DataFields(cols)), ", ")
  }

  /** The field name of every column, in order. */
  function FieldNames(cols: seq<ColumnInfo>): (r: seq<string>)
    ensures |r| == |cols|
  {
    if cols == [] then [] else FieldNames(cols[..|cols| - 1]) + [FieldName(cols[|cols| - 1].name)]
  }

  /** The field list names every column, in order. */
  lemma {:induction false} FieldNamesAt(cols: seq<ColumnInfo>)
    ensures forall i :: 0 <= i < |cols| ==> FieldNames(cols)[i] == cols[i].name
  {
    if cols != [] {
      FieldNamesAt(cols[..|cols| - 1]);
    }
  }

  // ---------------------------------------------------------------------------
  // CRUD operations

  /** The names of the `delete_by_<column>` functions: one per single-column unique constraint, in order. */
  function DeleteByNames(constraints: seq<UniqueConstraint>): seq<string>
  {
    if constraints == [] then []
    else
      var last := constraints[|constraints| - 1];
      DeleteByNames(constraints[..|constraints| - 1]) +
        (if |last.columns| == 1 then ["delete_by_" + FieldName(last.columns[0])] else [])
  }

  /** Every delete function comes from a single-column constraint and every such constraint gets one; wider ones get none. */
  lemma {:induction false} DeleteByMeaning(constraints: seq<UniqueConstraint>)
    ensures var r := DeleteByNames(constraints);
      && |r| <= |constraints|
      && (forall n :: n in r ==> exists i :: 0 <= i < |constraints| && |constraints[i].columns| == 1 && n == "delete_by_" + constraints[i].columns[0])
      && (forall i :: 0 <= i < |constraints| && |constraints[i].columns| == 1 ==> "delete_by_" + constraints[i].columns[0] in r)
  {
    if constraints != [] {
      var k := |constraints| - 1;
      var init := constraints[..k];
      DeleteByMeaning(init);
      assert forall i :: 0 <= i < k ==> init[i] == constraints[i];
      var r := DeleteByNames(constraints);
      forall n | n in r ensures exists i :: 0 <= i < |constraints| && |constraints[i].columns| == 1 && n == "delete_by_" + constraints[i].columns[0] {
        if n !in DeleteByNames(init) {
          assert |constraints[k].columns| == 1 && n == "delete_by_" + constraints[k].columns[0];
        }
      }
    }
  }

  /** What `generate_crud_operations` builds per field and per constraint; the rest is fixed template text. */
  datatype CrudParts = CrudParts(
    dataStructFields: string,
    dataStructParams: string,
    defaultFields: string,
    initialAssignments: string,
    fieldUpdates: string,
    deleteBy: seq<string>)

  function CrudPartsOf(dataFields: seq<ColumnInfo>, constraints: seq<UniqueConstraint>): CrudParts
  {
    CrudParts(
      Unlines(FieldLines(STRUCT_FIELD, Views(dataFields))),
      Unlines(FieldLines(DATA_PARAM, Views(dataFields))),
      Unlines(FieldLines(DEFAULT_VALUE, Views(dataFields))),
      Unlines(FieldLines(INITIAL_ASSIGNMENT, Views(dataFields))),
      Unlines(FieldLines(FIELD_UPDATE, Views(dataFields))),
      DeleteByNames(constraints))
  }

  /** `generate_crud_operations`: its loops over the data fields and the constraints. */
  method GenerateCrudOperations(dataFields: seq<ColumnInfo>, constraints: seq<UniqueConstraint>) returns (parts: CrudParts)
    ensures parts == CrudPartsOf(dataFields, constraints)
  {
    var structFields := RenderFieldLines(STRUCT_FIELD, Views(dataFields));
    var params := RenderFieldLines(DATA_PARAM, Views(dataFields));
    var defaults := RenderFieldLines(DEFAULT_VALUE, Views(dataFields));
    var initial := RenderFieldLines(INITIAL_ASSIGNMENT, Views(dataFields));
    var updates := GenerateFieldUpdates(dataFields);
    var deleteBy := CollectDeleteBy(constraints);
    parts := CrudParts(structFields, params, defaults, initial, updates, deleteBy);
  }

  /** The loop over the unique constraints. */
  method CollectDeleteBy(constraints: seq<UniqueConstraint>) returns (deleteBy: seq<string>)
    ensures deleteBy == DeleteByNames(constraints)
  {
    deleteBy := [];
    for i := 0 to |constraints|
      invariant deleteBy == DeleteByNames(constraints[..i])
    {
      assert constraints[..i + 1][..i] == constraints[..i];
      if |constraints[i].columns| == 1 {
        var colName := constraints[i].columns[0];
        deleteBy := deleteBy + ["delete_by_" + FieldName(colName)];
      }
    }
    assert constraints[..|constraints|] == constraints;
  }

  /** The default `generate_crud_operations` writes for a column, by its declared type. */
  function ColumnDefault(c: ColumnInfo): string
  {
    if !c.notNull then "None"
    else if c.sqlType == "INTEGER" then "0"
    else if c.sqlType == "REAL" || c.sqlType == "BLOB" then "Default::default()"
    else "String::new()"
  }

  lemma DefaultLineOf(c: ColumnInfo)
    ensures FieldLine(DEFAULT_VALUE, ViewOf(c)) == "                " + c.name + ": " + ColumnDefault(c) + ","
  {
    DefaultOfColumn(c.sqlType, c.notNull, c.name);
  }

  /**
   * The new row the upsert starts from gives each data field, in order,
   * `None` when its column may be NULL and otherwise the zero of its type.
   */
  lemma DefaultLinesMeaning(dataFields: seq<ColumnInfo>)
    ensures var ls := FieldLines(DEFAULT_VALUE, Views(dataFields));
      forall i :: 0 <= i < |dataFields| ==> ls[i] == "                " + dataFields[i].name + ": " + ColumnDefault(dataFields[i]) + ","
  {
    FieldLinesAt(DEFAULT_VALUE, Views(dataFields));
    ViewsAt(dataFields);
    forall i | 0 <= i < |dataFields| {
      DefaultLineOf(dataFields[i]);
    }
  }

  /** The data struct's fields are the table struct's lines between `id` and the timestamps. */
  lemma CrudPartsAgree(cols: seq<ColumnInfo>, constraints: seq<UniqueConstraint>)
    ensures var parts := CrudPartsOf(DataFields(cols), constraints);
      parts.dataStructFields == Unlines(StructFieldLines(cols)[1..|DataFields(cols)| + 1])
  {
    FramedAt(ID_LINE, FieldLines(STRUCT_FIELD, Views(DataFields(cols))), CREATED_LINE, UPDATED_LINE);
  }

  lemma {:induction false} UnlinesConcat(a: seq<string>, b: seq<string>)
    ensures Unlines(a + b) == Unlines(a) + Unlines(b)
    decreases |b|
  {
    if b == [] {
      assert a + b == a;
    } else {
      var init := b[..|b| - 1];
      assert (a + b)[..|a + b| - 1] == a + init;
      UnlinesConcat(a, init);
    }
  }

  // ---------------------------------------------------------------------------
  // Files per table and mod.rs

  /** The decisions `generate_structs` makes for one table's file. */
  datatype GeneratedFile = GeneratedFile(
    fileName: string,
    structName: string,
    structFields: string,
    fieldList: string,
    serde: bool,
    operations: CrudParts)

  function FileOf(tableName: string, info: TableInfo): GeneratedFile
  {
    GeneratedFile(
      tableName + ".rs",
      StructName(tableName),
      Unlines(StructFieldLines(info.columns)),
      FieldList(info.columns),
      tableName == "encrypted_env_data",
      CrudPartsOf(DataFields(info.columns), info.uniqueConstraints))
  }

  /** The body of the per-table loop of `generate_structs`, up to the file write. */
  method GenerateTable(tableName: string, info: TableInfo) returns (g: GeneratedFile)
    ensures g == FileOf(tableName, info) && g.fileName == tableName + ".rs"
  {
    var structName := StructName(tableName);
    var dataFields := DataFields(info.columns);
    var structFields := BuildStructFields(info.columns);
    var fieldList := FieldList(info.columns);
    var operations := GenerateCrudOperations(dataFields, info.uniqueConstraints);
    g := GeneratedFile(tableName + ".rs", structName, structFields, fieldList, tableName == "encrypted_env_data", operations);
  }

  function ModLine(tableName: string): string
  {
    "pub mod " + tableName + ";"
  }

  /** One `pub mod` line per table, in order. */
  function ModLines(tables: seq<string>): (r: seq<string>)
    ensures |r| == |tables|
  {
    if tables == [] then [] else ModLines(tables[..|tables| - 1]) + [ModLine(tables[|tables| - 1])]
  }

  /** The three re-export lines per table. */
  function ExportLines(tableName: string): seq<string>
  {
    var s := StructName(tableName);
    ["pub use " + tableName + "::" + s + ";",
     "pub use " + tableName + "::" + s + "Data;",
     "pub use " + tableName + EXPORTED_FUNCTIONS]
  }

  /** The generated CRUD functions every table module re-exports. */
  const EXPORTED_FUNCTIONS := "::{insert_one, insert_many, upsert_one, select_one, select_many, delete_by_id};"

  function AllExports(tables: seq<string>): seq<string>
  {
    if tables == [] then [] else AllExports(tables[..|tables| - 1]) + ExportLines(tables[|tables| - 1])
  }

  /**
   * `generate_structs` over the schema map, the hash map's order given as
   * `order`: one file per table in that order, one `pub mod` line per
   * table and its three exports in the same order.
   */
  method GenerateStructs(schemas: map<string, TableInfo>) returns (files: seq<GeneratedFile>, modDeclarations: string, exports: string, ghost order: seq<string>)
    ensures NoDuplicates(order) && forall t :: t in order <==> t in schemas
    ensures files == FilesOf(order, schemas)
    ensures forall i, j :: 0 <= i < j < |files| ==> files[i].fileName == order[i] + ".rs" && files[i].fileName != files[j].fileName
    ensures modDeclarations == Unlines(ModLines(order))
    ensures exports == Unlines(AllExports(order))
  {
    var tables := Enumerate(schemas.Keys);
    order := tables;
    files, modDeclarations, exports := GenerateInOrder(tables, schemas);
    FileNamesDistinct(files, tables);
  }

  /** The loop of `generate_structs` over the tables in a given order. */
  method GenerateInOrder(tables: seq<string>, schemas: map<string, TableInfo>) returns (files: seq<GeneratedFile>, modDeclarations: string, exports: string)
    requires forall t :: t in tables ==> t in schemas
    ensures files == FilesOf(tables, schemas)
    ensures modDeclarations == Unlines(ModLines(tables))
    ensures exports == Unlines(AllExports(tables))
  {
    files, modDeclarations, exports := [], "", "";
    for i := 0 to |tables|
      invariant files == FilesOf(tables[..i], schemas)
      invariant modDeclarations == Unlines(ModLines(tables[..i]))
      invariant exports == Unlines(AllExports(tables[..i]))
    {
      files := FilesStep(files, tables, i, schemas);
      modDeclarations := ModStep(modDeclarations, tables, i);
      exports := ExportsStep(exports, tables, i);
    }
    assert tables[..|tables|] == tables;
  }

  /** The generated files, one per table in order. */
  function FilesOf(tables: seq<string>, schemas: map<string, TableInfo>): (r: seq<GeneratedFile>)
    requires forall t :: t in tables ==> t in schemas
    ensures |r| == |tables|
    ensures forall k :: 0 <= k < |r| ==> r[k].fileName == tables[k] + ".rs"
  {
    if tables == [] then []
    else FilesOf(tables[..|tables| - 1], schemas) + [FileOf(tables[|tables| - 1], schemas[tables[|tables| - 1]])]
  }

  /** The i-th file is the one generated for the i-th table. */
  lemma {:induction false} FilesOfAt(tables: seq<string>, schemas: map<string, TableInfo>, i: nat)
    requires forall t :: t in tables ==> t in schemas
    requires i < |tables|
    ensures FilesOf(tables, schemas)[i] == FileOf(tables[i], schemas[tables[i]])
  {
    if i < |tables| - 1 {
      var init := tables[..|tables| - 1];
      FilesOfAt(init, schemas, i);
      assert init[i] == tables[i];
    }
  }

  lemma TakeNext<T>(s: seq<T>, i: nat)
    requires i < |s|
    ensures s[..i + 1] == s[..i] + [s[i]] && s[..i + 1][..i] == s[..i]
  {
  }

  /** The `pub mod` line for the next table. */
  method ModStep(mods: string, tables: seq<string>, i: nat) returns (r: string)
    requires i < |tables| && mods == Unlines(ModLines(tables[..i]))
    ensures r == Unlines(ModLines(tables[..i + 1]))
  {
    TakeNext(tables, i);
    UnlinesSnoc(ModLines(tables[..i]), ModLine(tables[i]));
    r := mods + ModLine(tables[i]) + "\n";
  }

  /** The three `exports.push_str` calls for the next table. */
  method ExportsStep(exports: string, tables: seq<string>, i: nat) returns (r: string)
    requires i < |tables| && exports == Unlines(AllExports(tables[..i]))
    ensures r == Unlines(AllExports(tables[..i + 1]))
  {
    var lines := ExportLines(tables[i]);
    ghost var e := AllExports(tables[..i]);
    TakeNext(tables, i);
    assert AllExports(tables[..i + 1]) == e + [lines[0]] + [lines[1]] + [lines[2]];
    UnlinesSnoc(e, lines[0]);
    r := exports + lines[0] + "\n";
    UnlinesSnoc(e + [lines[0]], lines[1]);
    r := r + lines[1] + "\n";
    UnlinesSnoc(e + [lines[0]] + [lines[1]], lines[2]);
    r := r + lines[2] + "\n";
  }

  /** The file for the next table. */
  method FilesStep(files: seq<GeneratedFile>, tables: seq<string>, i: nat, schemas: map<string, TableInfo>) returns (r: seq<GeneratedFile>)
    requires i < |tables| && forall t :: t in tables ==> t in schemas
    requires files == FilesOf(tables[..i], schemas)
    ensures r == FilesOf(tables[..i + 1], schemas)
  {
    var g := GenerateTable(tables[i], schemas[tables[i]]);
    TakeNext(tables, i);
    r := files + [g];
  }

  /** Files named after pairwise distinct tables have pairwise distinct names. */
  lemma FileNamesDistinct(files: seq<GeneratedFile>, order: seq<string>)
    requires NoDuplicates(order) && |files| == |order|
    requires forall k :: 0 <= k < |files| ==> files[k].fileName == order[k] + ".rs"
    ensures forall i, j :: 0 <= i < j < |files| ==> files[i].fileName != files[j].fileName
  {
    forall i, j | 0 <= i < j < |files| ensures files[i].fileName != files[j].fileName {
      SuffixCancels(order[i], order[j], ".rs");
    }
  }

  lemma SuffixCancels(a: string, b: string, suffix: string)
    ensures a + suffix == b + suffix ==> a == b
  {
    if a + suffix == b + suffix {
      assert a == (a + suffix)[..|a|];
      assert b == (b + suffix)[..|b|];
    }
  }
}
