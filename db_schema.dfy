/**
 * Schema tooling: reading a table's columns back from its `CREATE TABLE`
 * statement, and turning the difference between an expected and an
 * actual table into migration statements.
 */
module DbSchema {
  import opened Wrappers
  import opened Strings

  /** `ColumnDef`. */
  datatype ColumnDef = ColumnDef(name: string, sqlType: string, notNull: bool, defaultValue: Option<string>, primaryKey: bool)

  /** `TableSchema`. */
  datatype TableSchema = TableSchema(name: string, columns: seq<ColumnDef>)

  /** Rendered in place of the process abort a Rust slice out of range causes. */
  const SLICE_PANIC: string := "panic: byte index out of range"
  const WORDS_PANIC: string := "panic: range start index 2 out of range"

  // ---------------------------------------------------------------------------
  // Locating the column list

  function FirstOr(o: Option<nat>, d: nat): nat
  {
    match o
    case Some(i) => i
    case None => d
  }

  /**
   * The text between the first `(` after `CREATE TABLE` (or from the start
   * when that is missing) and the last `)`: the slice panics when the two
   * are out of order.
   */
  function ColumnDefsText(sql: string): (r: Result<string>)
    ensures r.Ok? ==> |r.value| <= |sql|
  {
    var start := FirstOr(FindSub(ToUpper(sql), "CREATE TABLE"), 0);
    var parenStart := FirstOr(IndexOf(sql[start..], '('), 0) + start;
    var parenEnd := FirstOr(LastIndexOf(sql, ')'), |sql|);
    if parenStart + 1 <= parenEnd then Ok(sql[parenStart + 1..parenEnd]) else Err(SLICE_PANIC)
  }

  /**
   * For a statement of the shape diff_schemas writes, `CREATE TABLE` then a
   * name without `(`, the reader finds exactly the text inside the outer
   * parentheses.
   */
  lemma ColumnDefsOfCreate(rest: string, body: string)
    requires '(' !in rest
    ensures ColumnDefsText("CREATE TABLE" + rest + "(" + body + ")") == Ok(body)
  {
    var head := "CREATE TABLE" + rest;
    var sql := head + "(" + body + ")";
    CreateAtStart(rest + "(" + body + ")");
    assert sql == "CREATE TABLE" + (rest + "(" + body + ")");
    assert sql[0..] == sql;
    OpenParenAt(head, body);
    BodyBetween(head, body);
  }

  /** A statement that begins with `CREATE TABLE` has it at offset 0. */
  lemma CreateAtStart(tail: string)
    ensures FindSub(ToUpper("CREATE TABLE" + tail), "CREATE TABLE") == Some(0)
  {
    ToUpperConcat("CREATE TABLE", tail);
    assert ToUpper("CREATE TABLE" + tail)[..12] == ToUpper("CREATE TABLE");
  }

  /** The last `)` is the closing one, and the text between the parentheses is `body`. */
  lemma BodyBetween(head: string, body: string)
    ensures var sql := head + "(" + body + ")";
      LastIndexOf(sql, ')') == Some(|sql| - 1) && sql[|head| + 1..|sql| - 1] == body
  {
  }

  /** The first `(` of `head + "(" + body + ")"` is the one after `head`, when `head` has none. */
  lemma OpenParenAt(head: string, body: string)
    requires '(' !in head
    ensures IndexOf(head + "(" + body + ")", '(') == Some(|head|)
  {
    var sql := head + "(" + body + ")";
    assert sql[..|head|] == head;
    assert forall j :: 0 <= j < |head| ==> sql[j] == head[j];
    assert forall j :: |head| < j <= |sql| ==> sql[..j][|head|] == '(';
  }

  // ---------------------------------------------------------------------------
  // Splitting at top-level commas

  function Delta(c: char): int
  {
    if c == '(' then 1 else if c == ')' then -1 else 0
  }

  /** The parenthesis depth after reading `s`. */
  function Depth(s: string): int
  {
    if s == [] then 0 else Depth(s[..|s| - 1]) + Delta(s[|s| - 1])
  }

  /** The comma-separated pieces of `s`, a comma splitting only where the depth is zero; untrimmed. */
  function Pieces(s: string): (ps: seq<string>)
    ensures |ps| >= 1
  {
    if s == [] then [""]
    else
      var ps := Pieces(s[..|s| - 1]);
      var c := s[|s| - 1];
      var last := ps[|ps| - 1];
      if c == ',' && Depth(last) == 0 then ps + [""] else ps[..|ps| - 1] + [last + [c]]
  }

  function TrimAll(ps: seq<string>): seq<string>
  {
    if ps == [] then [] else TrimAll(ps[..|ps| - 1]) + [Trim(ps[|ps| - 1])]
  }

  /** The parts the splitter keeps: every piece trimmed, the last one only when not blank. */
  function ColumnParts(defs: string): seq<string>
  {
    var ps := Pieces(defs);
    var last := Trim(ps[|ps| - 1]);
    TrimAll(ps[..|ps| - 1]) + (if last != [] then [last] else [])
  }

  /** One more character: a top-level comma starts a new piece, anything else extends the last one. */
  lemma PiecesStep(defs: string, i: nat, raw: seq<string>, current: string)
    requires i < |defs| && Pieces(defs[..i]) == raw + [current]
    ensures var c := defs[i];
      && Pieces(defs[..i + 1]) == (if c == ',' && Depth(current) == 0 then raw + [current] + [""] else raw + [current + [c]])
      && Depth(current + [c]) == Depth(current) + Delta(c)
  {
    assert defs[..i + 1][..i] == defs[..i];
    assert (current + [defs[i]])[..|current|] == current;
  }

  /** The splitter's loop over the characters, with its `depth` counter and `current` buffer. */
  method SplitColumnDefs(defs: string) returns (parts: seq<string>)
    ensures parts == ColumnParts(defs)
  {
    parts := [];
    var current := "";
    var depth := 0;
    ghost var raw: seq<string> := [];
    for i := 0 to |defs|
      invariant Pieces(defs[..i]) == raw + [current]
      invariant parts == TrimAll(raw)
      invariant depth == Depth(current)
    {
      var ch := defs[i];
      PiecesStep(defs, i, raw, current);
      if ch == '(' {
        depth := depth + 1;
        current := current + [ch];
      } else if ch == ')' {
        depth := depth - 1;
        current := current + [ch];
      } else if ch == ',' && depth == 0 {
        assert (raw + [current])[..|raw|] == raw;
        parts := parts + [Trim(current)];
        raw := raw + [current];
        current := "";
      } else {
        current := current + [ch];
      }
    }
    SplitDone(defs, raw, current);
    if Trim(current) != [] {
      parts := parts + [Trim(current)];
    }
  }

  /** After the last character, the buffer is the last piece. */
  lemma SplitDone(defs: string, raw: seq<string>, current: string)
    requires Pieces(defs[..|defs|]) == raw + [current]
    ensures ColumnParts(defs) == TrimAll(raw) + (if Trim(current) != [] then [Trim(current)] else [])
  {
    assert defs[..|defs|] == defs;
    assert (raw + [current])[..|raw|] == raw;
  }

  /** Joining the pieces with commas gives back the text: nothing is lost or reordered. */
  lemma {:induction false} PiecesJoin(s: string)
    ensures Join(Pieces(s), ",") == s
  {
    if s != [] {
      var init, c := s[..|s| - 1], s[|s| - 1];
      var ps := Pieces(init);
      var last := ps[|ps| - 1];
      PiecesJoin(init);
      assert s == init + [c];
      if c == ',' && Depth(last) == 0 {
        assert Pieces(s) == ps + [""];
        JoinSnoc(ps, "", ",");
      } else {
        assert Pieces(s) == ps[..|ps| - 1] + [last + [c]];
        JoinExtendLast(ps, c, ",");
      }
    }
  }

  /** Extending the last piece by `c` extends the joined text by `c`. */
  lemma JoinExtendLast(ps: seq<string>, c: char, sep: string)
    requires |ps| >= 1
    ensures Join(ps[..|ps| - 1] + [ps[|ps| - 1] + [c]], sep) == Join(ps, sep) + [c]
  {
    var last := ps[|ps| - 1];
    if |ps| == 1 {
      assert ps == [last];
    } else {
      var front := ps[..|ps| - 1];
      assert ps == front + [last];
      JoinSnoc(front, last, sep);
      JoinSnoc(front, last + [c], sep);
    }
  }

  /** `p` holds no comma at depth zero, measured from its start. */
  predicate NoTopLevelComma(p: string)
  {
    forall i :: 0 <= i < |p| && p[i] == ',' ==> Depth(p[..i]) != 0
  }

  /** No piece holds a comma at depth zero, measured from the start of the piece. */
  lemma {:induction false} PiecesNoTopLevelComma(s: string)
    ensures forall k :: 0 <= k < |Pieces(s)| ==> NoTopLevelComma(Pieces(s)[k])
  {
    if s != [] {
      var init, c := s[..|s| - 1], s[|s| - 1];
      var ps := Pieces(init);
      var last := ps[|ps| - 1];
      PiecesNoTopLevelComma(init);
      var qs := Pieces(s);
      if c == ',' && Depth(last) == 0 {
        assert qs == ps + [""];
        forall k | 0 <= k < |qs| ensures NoTopLevelComma(qs[k]) {
          if k < |ps| {
            assert qs[k] == ps[k];
          }
        }
      } else {
        var front := ps[..|ps| - 1];
        assert qs == front + [last + [c]];
        assert NoTopLevelComma(last);
        ExtendNoTopLevelComma(last, c);
        forall k | 0 <= k < |qs| ensures NoTopLevelComma(qs[k]) {
          if k < |front| {
            assert qs[k] == ps[k];
          }
        }
      }
    }
  }

  /** A character that is not a depth-zero comma keeps a piece free of them. */
  lemma ExtendNoTopLevelComma(p: string, c: char)
    requires NoTopLevelComma(p) && !(c == ',' && Depth(p) == 0)
    ensures NoTopLevelComma(p + [c])
  {
    var q := p + [c];
    forall i | 0 <= i < |q| && q[i] == ',' ensures Depth(q[..i]) != 0 {
      if i < |p| {
        assert q[..i] == p[..i];
      } else {
        assert q[..i] == p;
      }
    }
  }

  /** Commas inside parentheses do not split: a text whose every comma is nested is one piece. */
  lemma {:induction false} NestedCommasDoNotSplit(s: string)
    requires forall i :: 0 <= i < |s| && s[i] == ',' ==> Depth(s[..i]) != 0
    ensures Pieces(s) == [s]
  {
    if s != [] {
      var init := s[..|s| - 1];
      forall i | 0 <= i < |init| && init[i] == ',' ensures Depth(init[..i]) != 0 {
        assert init[..i] == s[..i];
      }
      NestedCommasDoNotSplit(init);
      assert s == init + [s[|s| - 1]];
    }
  }

  // ---------------------------------------------------------------------------
  // Reading one column definition

  /** Table constraints and blank parts, which name no column. */
  predicate IsTableConstraint(part: string)
  {
    var u := ToUpper(part);
    part == [] || StartsWith(u, "PRIMARY KEY") || StartsWith(u, "UNIQUE") || StartsWith(u, "FOREIGN KEY") || StartsWith(u, "CHECK")
  }

  predicate IsNotNullWord(w: string) { ToUpper(w) == "NOT" || ToUpper(w) == "NULL" }
  predicate IsKeyWord(w: string) { ToUpper(w) == "PRIMARY" || ToUpper(w) == "KEY" }
  predicate IsDefaultWord(w: string) { ToUpper(w) == "DEFAULT" }

  /** `words.iter().position(...)` for `DEFAULT`, over all words. */
  function FirstDefault(words: seq<string>): (r: Option<nat>)
    ensures r.Some? ==> r.value < |words| && IsDefaultWord(words[r.value]) && forall j :: 0 <= j < r.value ==> !IsDefaultWord(words[j])
    ensures r.None? ==> forall j :: 0 <= j < |words| ==> !IsDefaultWord(words[j])
  {
    if words == [] then None
    else if IsDefaultWord(words[0]) then Some(0)
    else match FirstDefault(words[1..])
      case None => None
      case Some(i) => Some(i + 1)
  }

  /** The word after the first `DEFAULT`, when there is one. */
  function DefaultAfterFirst(words: seq<string>): Option<string>
  {
    match FirstDefault(words)
    case Some(d) => if d + 1 < |words| then Some(words[d + 1]) else None
    case None => None
  }

  /**
   * The loop over `words[2..]`: `NOT` or `NULL` set `not_null`, `PRIMARY`
   * or `KEY` set `primary_key`, and a `DEFAULT` takes the word after the
   * first `DEFAULT` among all the words.
   */
  method ScanWords(words: seq<string>) returns (notNull: bool, primaryKey: bool, defaultValue: Option<string>)
    requires |words| >= 2
    ensures notNull <==> exists i :: 2 <= i < |words| && IsNotNullWord(words[i])
    ensures primaryKey <==> exists i :: 2 <= i < |words| && !IsNotNullWord(words[i]) && IsKeyWord(words[i])
    ensures defaultValue == if exists i :: 2 <= i < |words| && IsDefaultWord(words[i]) then DefaultAfterFirst(words) else None
  {
    notNull, primaryKey, defaultValue := false, false, None;
    for i := 2 to |words|
      invariant notNull <==> exists j :: 2 <= j < i && IsNotNullWord(words[j])
      invariant primaryKey <==> exists j :: 2 <= j < i && !IsNotNullWord(words[j]) && IsKeyWord(words[j])
      invariant defaultValue == if exists j :: 2 <= j < i && IsDefaultWord(words[j]) then DefaultAfterFirst(words) else None
    {
      var upper := ToUpper(words[i]);
      if upper == "NOT" || upper == "NULL" {
        notNull := true;
      } else if upper == "PRIMARY" || upper == "KEY" {
        primaryKey := true;
      } else if upper == "DEFAULT" {
        var position := FirstDefault(words);
        if position.Some? && position.value + 1 < |words| {
          defaultValue := Some(words[position.value + 1]);
        }
      }
    }
  }

  function StripName(w: string): string
  {
    TrimMatches(TrimMatches(w, '"'), '`')
  }

  /** The declared type upper-cased, with `INTEGER ... PRIMARY KEY` read as `TEXT` (keys are UUID strings). */
  function TypeOf(words: seq<string>, part: string): string
    requires |words| >= 2
  {
    var t := ToUpper(words[1]);
    if t == "INTEGER" && Contains(ToUpper(part), "PRIMARY KEY") then "TEXT" else t
  }

  /**
   * One trimmed part: `None` when it is skipped, an error for the panic a
   * one-word part causes, else the column.
   */
  function ColumnOf(part: string): Option<Result<ColumnDef>>
  {
    if IsTableConstraint(part) then None
    else
      var words := SplitWhitespace(part);
      if words == [] then None
      else if |words| < 2 then Some(Err(WORDS_PANIC))
      else
        var notNull := exists i :: 2 <= i < |words| && IsNotNullWord(words[i]);
        var primaryKey := exists i :: 2 <= i < |words| && !IsNotNullWord(words[i]) && IsKeyWord(words[i]);
        var defaultValue := if exists i :: 2 <= i < |words| && IsDefaultWord(words[i]) then DefaultAfterFirst(words) else None;
        Some(Ok(ColumnDef(StripName(words[0]), TypeOf(words, part), notNull, defaultValue, primaryKey)))
  }

  /** The body of the part loop for one part. */
  method ParseColumn(part: string) returns (r: Option<Result<ColumnDef>>)
    ensures r == ColumnOf(part)
  {
    if IsTableConstraint(part) {
      return None;
    }
    var words := SplitWhitespace(part);
    if words == [] {
      return None;
    }
    if |words| < 2 {
      return Some(Err(WORDS_PANIC));
    }
    var notNull, primaryKey, defaultValue := ScanWords(words);
    r := Some(Ok(ColumnDef(StripName(words[0]), TypeOf(words, part), notNull, defaultValue, primaryKey)));
  }

  /** A text with a non-whitespace character splits into at least one word. */
  lemma SomeWord(s: string)
    requires s != [] && !IsWhitespace(s[0])
    ensures SplitWhitespace(s) != []
  {
    assert TrimStart(s) == s;
  }

  /** A non-blank trimmed part is skipped exactly when it starts with a table-constraint keyword. */
  lemma ColumnOfSkips(part: string)
    requires part == Trim(part)
    ensures ColumnOf(part).None? <==> IsTableConstraint(part)
  {
    if part != [] {
      SomeWord(part);
    }
  }

  /** A non-constraint part of one word is the out-of-range panic; one of two or more is a column. */
  lemma ColumnOfWordCount(part: string)
    requires part == Trim(part) && !IsTableConstraint(part)
    ensures ColumnOf(part) == Some(Err(WORDS_PANIC)) <==> |SplitWhitespace(part)| == 1
    ensures ColumnOf(part).Some? && ColumnOf(part).value.Ok? <==> |SplitWhitespace(part)| >= 2
  {
    SomeWord(part);
  }

  /** `INTEGER` with `PRIMARY KEY` anywhere in the part reads as `TEXT`; any other type is the second word upper-cased. */
  lemma TypeOfMeaning(words: seq<string>, part: string)
    requires |words| >= 2
    ensures ToUpper(words[1]) == "INTEGER" && Contains(ToUpper(part), "PRIMARY KEY") ==> TypeOf(words, part) == "TEXT"
    ensures ToUpper(words[1]) != "INTEGER" ==> TypeOf(words, part) == ToUpper(words[1])
    ensures TypeOf(words, part) == ToUpper(TypeOf(words, part))
  {
  }

  /** The columns of the parts in order; the first panicking part ends the reading. */
  function ColumnsOf(parts: seq<string>): Result<seq<ColumnDef>>
  {
    if parts == [] then Ok([])
    else match ColumnOf(parts[0])
      case Some(Err(m)) => Err(m)
      case Some(Ok(c)) => (match ColumnsOf(parts[1..]) case Ok(cs) => Ok([c] + cs) case Err(m) => Err(m))
      case None => ColumnsOf(parts[1..])
  }

  /** `get_table_schema`, the table's `CREATE TABLE` text given. */
  function TableSchemaOf(tableName: string, createSql: string): Result<TableSchema>
  {
    match ColumnDefsText(createSql)
    case Err(m) => Err(m)
    case Ok(defs) => SchemaOfParts(tableName, ColumnParts(defs))
  }

  function SchemaOfParts(tableName: string, parts: seq<string>): Result<TableSchema>
  {
    match ColumnsOf(parts)
    case Err(m) => Err(m)
    case Ok(cs) => Ok(TableSchema(tableName, cs))
  }

  function PrependColumns(cs: seq<ColumnDef>, r: Result<seq<ColumnDef>>): Result<seq<ColumnDef>>
  {
    match r
    case Ok(rest) => Ok(cs + rest)
    case Err(m) => Err(m)
  }

  /** `get_table_schema`: split, then parse each part in turn. */
  method GetTableSchema(tableName: string, createSql: string) returns (r: Result<TableSchema>)
    ensures r == TableSchemaOf(tableName, createSql)
  {
    var defs := ColumnDefsText(createSql);
    if defs.Err? {
      return Err(defs.msg);
    }
    var parts := SplitColumnDefs(defs.value);
    r := ParseParts(tableName, parts);
  }

  /** The loop over the parts. */
  method ParseParts(tableName: string, parts: seq<string>) returns (r: Result<TableSchema>)
    ensures r == SchemaOfParts(tableName, parts)
  {
    var columns: seq<ColumnDef> := [];
    assert parts[0..] == parts;
    assert ColumnsOf(parts).Ok? ==> [] + ColumnsOf(parts).value == ColumnsOf(parts).value;
    for i := 0 to |parts|
      invariant PrependColumns(columns, ColumnsOf(parts[i..])) == ColumnsOf(parts)
    {
      var c := ParseColumn(parts[i]);
      ColumnsOfStep(parts, i, columns);
      if c.Some? && c.value.Err? {
        return Err(c.value.msg);
      }
      if c.Some? {
        columns := columns + [c.value.value];
      }
    }
    assert parts[|parts|..] == [];
    assert columns + [] == columns;
    r := Ok(TableSchema(tableName, columns));
  }

  /** One part of the loop: a panic ends it, a column is appended, a skipped part changes nothing. */
  lemma ColumnsOfStep(parts: seq<string>, i: nat, columns: seq<ColumnDef>)
    requires i < |parts|
    ensures var rest := ColumnsOf(parts[i..]);
      match ColumnOf(parts[i])
      case Some(Err(m)) => PrependColumns(columns, rest) == Err(m)
      case Some(Ok(c)) => PrependColumns(columns, rest) == PrependColumns(columns + [c], ColumnsOf(parts[i + 1..]))
      case None => rest == ColumnsOf(parts[i + 1..])
  {
    assert parts[i..][1..] == parts[i + 1..];
    match ColumnOf(parts[i])
    case Some(Ok(c)) => {
      match ColumnsOf(parts[i + 1..])
      case Ok(cs) => assert columns + ([c] + cs) == columns + [c] + cs;
      case Err(_) =>
    }
    case _ =>
  }

  /** `get_database_schema`'s query: tables not `LIKE 'sqlite_%'` (ASCII case-insensitive, `_` any one character) and not `migrations`. */
  predicate IsUserTable(name: string)
  {
    !(|name| >= 7 && ToLower(name[..6]) == "sqlite") && name != "migrations"
  }

  /** The schemas of the catalogue's user tables read in order; the first failure is the result. */
  function SchemasOf(catalogue: seq<(string, string)>): Result<map<string, TableSchema>>
  {
    if catalogue == [] then Ok(map[])
    else
      var (name, sql) := catalogue[|catalogue| - 1];
      match SchemasOf(catalogue[..|catalogue| - 1])
      case Err(m) => Err(m)
      case Ok(schemas) =>
        if !IsUserTable(name) then Ok(schemas)
        else match TableSchemaOf(name, sql)
          case Err(m) => Err(m)
          case Ok(t) => Ok(schemas[name := t])
  }

  /** `get_database_schema` over the catalogue's `(name, sql)` pairs. */
  method GetDatabaseSchema(catalogue: seq<(string, string)>) returns (r: Result<map<string, TableSchema>>)
    ensures r == SchemasOf(catalogue)
  {
    var schemas: map<string, TableSchema> := map[];
    for i := 0 to |catalogue|
      invariant SchemasOf(catalogue[..i]) == Ok(schemas)
    {
      var (name, sql) := catalogue[i];
      assert catalogue[..i + 1][..i] == catalogue[..i];
      if IsUserTable(name) {
        var schema := GetTableSchema(name, sql);
        if schema.Err? {
          SchemasOfFailure(catalogue, i + 1);
          return Err(schema.msg);
        }
        schemas := schemas[name := schema.value];
      }
    }
    assert catalogue[..|catalogue|] == catalogue;
    r := Ok(schemas);
  }

  /** Once a prefix fails, the whole catalogue fails with the same message. */
  lemma {:induction false} SchemasOfFailure(catalogue: seq<(string, string)>, i: nat)
    requires i <= |catalogue| && SchemasOf(catalogue[..i]).Err?
    ensures SchemasOf(catalogue) == SchemasOf(catalogue[..i])
    decreases |catalogue| - i
  {
    if i < |catalogue| {
      assert catalogue[..i + 1][..i] == catalogue[..i];
      SchemasOfFailure(catalogue, i + 1);
    } else {
      assert catalogue[..i] == catalogue;
    }
  }

  /** A catalogue entry that reading the database can get past: not a user table, or one whose statement reads. */
  predicate Readable(entry: (string, string))
  {
    IsUserTable(entry.0) ==> TableSchemaOf(entry.0, entry.1).Ok?
  }

  /** One entry more: the new map, in terms of the map before it. */
  lemma SchemasOfSnoc(init: seq<(string, string)>, name: string, sql: string)
    ensures var c := init + [(name, sql)];
      && (SchemasOf(c).Ok? <==> SchemasOf(init).Ok? && Readable((name, sql)))
      && (SchemasOf(c).Ok? && !IsUserTable(name) ==> SchemasOf(c).value == SchemasOf(init).value)
      && (SchemasOf(c).Ok? && IsUserTable(name) ==>
            SchemasOf(c).value == SchemasOf(init).value[name := TableSchemaOf(name, sql).value])
  {
    assert (init + [(name, sql)])[..|init|] == init;
  }

  /** Reading the catalogue fails exactly when one of its user tables cannot be read. */
  lemma {:induction false} SchemasOfOk(catalogue: seq<(string, string)>)
    ensures SchemasOf(catalogue).Ok? <==> forall i :: 0 <= i < |catalogue| ==> Readable(catalogue[i])
  {
    if catalogue != [] {
      var n := |catalogue| - 1;
      var init := catalogue[..n];
      SchemasOfOk(init);
      assert catalogue == init + [catalogue[n]];
      SchemasOfSnoc(init, catalogue[n].0, catalogue[n].1);
      assert forall i :: 0 <= i < n ==> init[i] == catalogue[i];
    }
  }

  /** Every key of the schema map is a user table of the catalogue. */
  lemma {:induction false} SchemasOfKeys(catalogue: seq<(string, string)>)
    requires SchemasOf(catalogue).Ok?
    ensures forall t :: t in SchemasOf(catalogue).value ==> exists i :: 0 <= i < |catalogue| && catalogue[i].0 == t && IsUserTable(t)
  {
    if catalogue != [] {
      var n := |catalogue| - 1;
      var init := catalogue[..n];
      var (name, sql) := catalogue[n];
      assert catalogue == init + [(name, sql)];
      SchemasOfSnoc(init, name, sql);
      SchemasOfKeys(init);
      var schemas := SchemasOf(init).value;
      forall t | t in SchemasOf(catalogue).value ensures exists i :: 0 <= i < |catalogue| && catalogue[i].0 == t && IsUserTable(t) {
        if t in schemas {
          var i :| 0 <= i < n && init[i].0 == t && IsUserTable(t);
          assert catalogue[i].0 == t;
        } else {
          assert catalogue[n].0 == t && IsUserTable(t);
        }
      }
    }
  }

  /**
   * With the distinct names SQLite keeps, every user table is in the schema
   * map, read from its own statement.
   */
  lemma {:induction false} SchemasOfValues(catalogue: seq<(string, string)>)
    requires forall i, j :: 0 <= i < j < |catalogue| ==> catalogue[i].0 != catalogue[j].0
    requires SchemasOf(catalogue).Ok?
    ensures forall i :: 0 <= i < |catalogue| && IsUserTable(catalogue[i].0) ==>
      && catalogue[i].0 in SchemasOf(catalogue).value
      && TableSchemaOf(catalogue[i].0, catalogue[i].1).Ok?
      && SchemasOf(catalogue).value[catalogue[i].0] == TableSchemaOf(catalogue[i].0, catalogue[i].1).value
  {
    if catalogue != [] {
      var n := |catalogue| - 1;
      var init := catalogue[..n];
      var (name, sql) := catalogue[n];
      assert catalogue == init + [(name, sql)];
      SchemasOfSnoc(init, name, sql);
      assert forall i :: 0 <= i < n ==> init[i] == catalogue[i];
      SchemasOfValues(init);
      var all := SchemasOf(catalogue).value;
      forall i | 0 <= i < |catalogue| && IsUserTable(catalogue[i].0)
        ensures catalogue[i].0 in all && TableSchemaOf(catalogue[i].0, catalogue[i].1).Ok?
          && all[catalogue[i].0] == TableSchemaOf(catalogue[i].0, catalogue[i].1).value
      {
        if i < n {
          assert catalogue[i].0 != name;
        }
      }
    }
  }

  // ---------------------------------------------------------------------------
  // Differences between an expected and an actual table

  function ColumnNames(cols: seq<ColumnDef>): (r: seq<string>)
    ensures |r| == |cols| && forall i :: 0 <= i < |cols| ==> r[i] == cols[i].name
  {
    seq(|cols|, i requires 0 <= i < |cols| => cols[i].name)
  }

  /** The column a name maps to once the columns are collected into a map: the last with that name. */
  function LastNamed(cols: seq<ColumnDef>, n: string): (c: ColumnDef)
    ensures n in ColumnNames(cols) ==> c in cols && c.name == n
  {
    if cols == [] then ColumnDef(n, "", false, None, false)
    else if cols[|cols| - 1].name == n then cols[|cols| - 1]
    else
      assert ColumnNames(cols[..|cols| - 1]) == ColumnNames(cols)[..|cols| - 1];
      LastNamed(cols[..|cols| - 1], n)
  }

  function CreateColumnSql(col: ColumnDef): string
  {
    col.name + " " + col.sqlType + (if col.notNull then " NOT NULL" else "") + (if col.primaryKey then " PRIMARY KEY" else "")
      + (match col.defaultValue case Some(d) => " DEFAULT " + d case None => "")
  }

  function CreateSql(t: TableSchema): string
  {
    "CREATE TABLE IF NOT EXISTS " + t.name + " (" + Join(seq(|t.columns|, i requires 0 <= i < |t.columns| => CreateColumnSql(t.columns[i])), ", ") + ")"
  }

  function DropSql(name: string): string
  {
    "DROP TABLE IF EXISTS " + name
  }

  /** The `ADD COLUMN` statement: name, type, `NOT NULL`, default; never `PRIMARY KEY`. */
  function AlterSql(table: string, col: ColumnDef): string
  {
    "ALTER TABLE " + table + " ADD COLUMN " + col.name + " " + col.sqlType + (if col.notNull then " NOT NULL" else "")
      + (match col.defaultValue case Some(d) => " DEFAULT " + d case None => "")
  }

  function DropNote(name: string): string
  {
    "-- Note: SQLite doesn't support DROP COLUMN. Manual intervention required for " + name
  }

  function ExtraWarning(name: string): string
  {
    "-- Warning: Column " + name + " exists in database but not in struct. Manual removal required."
  }

  /** The statements for the missing columns, in the given order. */
  function Alters(table: string, cols: seq<ColumnDef>, names: seq<string>): (r: seq<string>)
    ensures |r| == |names|
  {
    if names == [] then [] else Alters(table, cols, names[..|names| - 1]) + [AlterSql(table, LastNamed(cols, names[|names| - 1]))]
  }

  function Notes(names: seq<string>): (r: seq<string>)
    ensures |r| == |names|
  {
    if names == [] then [] else Notes(names[..|names| - 1]) + [DropNote(names[|names| - 1])]
  }

  function Warnings(names: seq<string>): (r: seq<string>)
    ensures |r| == |names|
  {
    if names == [] then [] else Warnings(names[..|names| - 1]) + [ExtraWarning(names[|names| - 1])]
  }

  /**
   * The statements `diff_schemas` gives when its hash maps are visited with
   * the missing names in the order `missing` and the extra ones in `extra`.
   */
  ghost predicate DiffStatements(expected: TableSchema, actual: Option<TableSchema>, up: seq<string>, down: seq<string>,
                                 missing: seq<string>, extra: seq<string>)
  {
    && (actual.None? ==> up == [CreateSql(expected)] && down == [DropSql(expected.name)])
    && (actual.Some? ==>
      && NoDuplicates(missing) && NoDuplicates(extra)
      && (forall n :: n in missing <==> n in ColumnNames(expected.columns) && n !in ColumnNames(actual.value.columns))
      && (forall n :: n in extra <==> n in ColumnNames(actual.value.columns) && n !in ColumnNames(expected.columns))
      && up == Alters(actual.value.name, expected.columns, missing) + Warnings(extra)
      && down == Notes(missing))
  }

  /** The statements `diff_schemas` gives for one target table, in some visiting order of its maps. */
  ghost predicate TableStatements(current: map<string, TableSchema>, target: map<string, TableSchema>, name: string,
                                  up: seq<string>, down: seq<string>)
    requires name in target
  {
    exists missing, extra :: DiffStatements(target[name], Get(current, name), up, down, missing, extra)
  }

  /**
   * `diff_schemas`. With no actual table: create and drop it. Otherwise an
   * `ALTER` and a down-note for each expected column the table lacks, then
   * a warning for each column it has that is not expected; both loops go
   * over hash maps, so `missing` and `extra` are the orders they took.
   */
  method DiffSchemas(expected: TableSchema, actual: Option<TableSchema>)
    returns (up: seq<string>, down: seq<string>, ghost missing: seq<string>, ghost extra: seq<string>)
    ensures DiffStatements(expected, actual, up, down, missing, extra)
  {
    missing, extra := [], [];
    if actual.None? {
      up := [CreateSql(expected)];
      down := [DropSql(expected.name)];
      return;
    }
    var act := actual.value;
    var expectedKeys := Enumerate(set n | n in ColumnNames(expected.columns));
    var actualKeys := Enumerate(set n | n in ColumnNames(act.columns));
    var alters, notes := CollectMissing(act.name, expected.columns, expectedKeys, ColumnNames(act.columns));
    var warnings := CollectExtra(actualKeys, ColumnNames(expected.columns));
    missing, extra := Absent(expectedKeys, ColumnNames(act.columns)), Absent(actualKeys, ColumnNames(expected.columns));
    AbsentMeaning(expectedKeys, ColumnNames(act.columns));
    AbsentMeaning(actualKeys, ColumnNames(expected.columns));
    up, down := alters + warnings, notes;
  }

  /** The keys not in `present`, in order. */
  function Absent(keys: seq<string>, present: seq<string>): seq<string>
  {
    if keys == [] then []
    else
      var rest := Absent(keys[..|keys| - 1], present);
      if keys[|keys| - 1] in present then rest else rest + [keys[|keys| - 1]]
  }

  /** `Absent` keeps exactly the keys not present, and no key twice when there were none twice. */
  lemma {:induction false} AbsentMeaning(keys: seq<string>, present: seq<string>)
    requires NoDuplicates(keys)
    ensures NoDuplicates(Absent(keys, present))
    ensures forall n :: n in Absent(keys, present) <==> n in keys && n !in present
  {
    if keys != [] {
      var init, last := keys[..|keys| - 1], keys[|keys| - 1];
      assert keys == init + [last];
      assert NoDuplicates(init);
      AbsentMeaning(init, present);
      assert last !in init by {
        forall j | 0 <= j < |init| ensures init[j] != last {
          assert keys[j] != keys[|keys| - 1];
        }
      }
    }
  }

  /** The loop over the expected columns: an `ALTER` and a note for each one the table lacks. */
  method CollectMissing(table: string, cols: seq<ColumnDef>, keys: seq<string>, present: seq<string>)
    returns (alters: seq<string>, notes: seq<string>)
    ensures alters == Alters(table, cols, Absent(keys, present)) && notes == Notes(Absent(keys, present))
  {
    alters, notes := [], [];
    ghost var missing: seq<string> := [];
    for i := 0 to |keys|
      invariant missing == Absent(keys[..i], present)
      invariant alters == Alters(table, cols, missing)
      invariant notes == Notes(missing)
    {
      var name := keys[i];
      assert keys[..i + 1][..i] == keys[..i];
      if name !in present {
        assert (missing + [name])[..|missing|] == missing;
        missing := missing + [name];
        alters := alters + [AlterSql(table, LastNamed(cols, name))];
        notes := notes + [DropNote(name)];
      }
    }
    assert keys[..|keys|] == keys;
  }

  /** The loop over the actual columns: a warning for each one not expected. */
  method CollectExtra(keys: seq<string>, expectedNames: seq<string>) returns (warnings: seq<string>)
    ensures warnings == Warnings(Absent(keys, expectedNames))
  {
    warnings := [];
    ghost var extra: seq<string> := [];
    for i := 0 to |keys|
      invariant extra == Absent(keys[..i], expectedNames)
      invariant warnings == Warnings(extra)
    {
      var name := keys[i];
      assert keys[..i + 1][..i] == keys[..i];
      if name !in expectedNames {
        assert (extra + [name])[..|extra|] == extra;
        extra := extra + [name];
        warnings := warnings + [ExtraWarning(name)];
      }
    }
    assert keys[..|keys|] == keys;
  }

  /** Same column names, whatever the order and the types. */
  predicate SameNames(a: seq<ColumnDef>, b: seq<ColumnDef>)
  {
    (forall n :: n in ColumnNames(a) ==> n in ColumnNames(b)) && (forall n :: n in ColumnNames(b) ==> n in ColumnNames(a))
  }

  /** The names of `a` that `b` lacks. */
  function NamesNotIn(a: seq<string>, b: seq<string>): (r: set<string>)
    ensures forall n :: n in r <==> n in a && n !in b
  {
    set n | n in a && n !in b
  }

  /**
   * The counts, for the expected names `a` and the actual names `b`, of
   * what diff_schemas returns (one `ALTER` and one note per missing name,
   * one warning per extra name, as `Alters`, `Notes` and `Warnings` keep
   * the length): one of each per absent name, and nothing at all exactly
   * when the names agree.
   */
  lemma DiffCounts(a: seq<string>, b: seq<string>, up: seq<string>, down: seq<string>, missing: seq<string>, extra: seq<string>)
    requires NoDuplicates(missing) && NoDuplicates(extra)
    requires forall n :: n in missing <==> n in a && n !in b
    requires forall n :: n in extra <==> n in b && n !in a
    requires |up| == |missing| + |extra| && |down| == |missing|
    ensures |down| == |NamesNotIn(a, b)|
    ensures |up| == |down| + |NamesNotIn(b, a)|
    ensures up == [] && down == [] <==> (forall n :: n in a ==> n in b) && (forall n :: n in b ==> n in a)
  {
    DistinctLength(missing, NamesNotIn(a, b));
    DistinctLength(extra, NamesNotIn(b, a));
    if missing != [] {
      assert missing[0] in missing;
    }
    if extra != [] {
      assert extra[0] in extra;
    }
  }

  /** The statements of several tables, one after another. */
  function Flat(xss: seq<seq<string>>): (r: seq<string>)
    ensures xss == [] ==> r == []
  {
    if xss == [] then [] else Flat(xss[..|xss| - 1]) + xss[|xss| - 1]
  }

  lemma FlatSnoc(xss: seq<seq<string>>, xs: seq<string>)
    ensures Flat(xss + [xs]) == Flat(xss) + xs
  {
    assert (xss + [xs])[..|xss|] == xss;
  }

  /** The statements are empty exactly when every table's are. */
  lemma {:induction false} FlatEmpty(xss: seq<seq<string>>)
    ensures Flat(xss) == [] <==> forall k :: 0 <= k < |xss| ==> xss[k] == []
  {
    if xss != [] {
      FlatEmpty(xss[..|xss| - 1]);
    }
  }

  /** Table `order[k]` has the statements `ups[k]` and `downs[k]`, which are empty exactly when it is in sync. */
  ghost predicate TablesDiffed(current: map<string, TableSchema>, target: map<string, TableSchema>, order: seq<string>,
                               ups: seq<seq<string>>, downs: seq<seq<string>>)
  {
    && |ups| == |order| && |downs| == |order|
    && forall k :: 0 <= k < |order| ==>
         && order[k] in target
         && TableStatements(current, target, order[k], ups[k], downs[k])
         && (ups[k] == [] && downs[k] == [] <==> InSync(current, target, order[k]))
  }

  lemma TablesDiffedSnoc(current: map<string, TableSchema>, target: map<string, TableSchema>, order: seq<string>,
                         ups: seq<seq<string>>, downs: seq<seq<string>>, t: string, up: seq<string>, down: seq<string>)
    requires TablesDiffed(current, target, order, ups, downs)
    requires t in target && TableStatements(current, target, t, up, down)
    requires up == [] && down == [] <==> InSync(current, target, t)
    ensures TablesDiffed(current, target, order + [t], ups + [up], downs + [down])
  {
    var order', ups', downs' := order + [t], ups + [up], downs + [down];
    forall k | 0 <= k < |order'|
      ensures order'[k] in target && TableStatements(current, target, order'[k], ups'[k], downs'[k])
      ensures ups'[k] == [] && downs'[k] == [] <==> InSync(current, target, order'[k])
    {
      if k < |order| {
        assert order'[k] == order[k] && ups'[k] == ups[k] && downs'[k] == downs[k];
      }
    }
  }

  /** All tables' statements are empty exactly when every table of `target` is in sync. */
  lemma NoneMeansInSync(current: map<string, TableSchema>, target: map<string, TableSchema>, order: seq<string>,
                        ups: seq<seq<string>>, downs: seq<seq<string>>)
    requires forall t :: t in order <==> t in target
    requires TablesDiffed(current, target, order, ups, downs)
    ensures Flat(ups) == [] && Flat(downs) == [] <==> forall t :: t in target ==> InSync(current, target, t)
  {
    FlatEmpty(ups);
    FlatEmpty(downs);
    if forall k :: 0 <= k < |order| ==> InSync(current, target, order[k]) {
      forall t | t in target ensures InSync(current, target, t) {
        var k :| 0 <= k < |order| && order[k] == t;
      }
    }
  }

  /** A table whose expected and actual column names agree needs no statement. */
  predicate InSync(current: map<string, TableSchema>, target: map<string, TableSchema>, t: string)
    requires t in target
  {
    t in current && SameNames(target[t].columns, current[t].columns)
  }

  /**
   * `generate_migration_from_schema_diff`: the statements of every target
   * table in the map's order, `None` exactly when every target table exists
   * with the same column names. Tables only in `current` play no part.
   */
  method GenerateMigrationFromSchemaDiff(current: map<string, TableSchema>, target: map<string, TableSchema>)
    returns (r: Option<(seq<string>, seq<string>)>, ghost order: seq<string>, ghost ups: seq<seq<string>>, ghost downs: seq<seq<string>>)
    ensures NoDuplicates(order) && forall t :: t in order <==> t in target
    ensures TablesDiffed(current, target, order, ups, downs)
    ensures r.None? <==> forall t :: t in target ==> InSync(current, target, t)
    ensures r.None? <==> Flat(ups) == [] && Flat(downs) == []
    ensures r.Some? ==> r.value == (Flat(ups), Flat(downs))
  {
    var tables := Enumerate(target.Keys);
    order := tables;
    var allUp, allDown;
    allUp, allDown, ups, downs := DiffTables(current, target, tables);
    NoneMeansInSync(current, target, order, ups, downs);
    if allUp == [] && allDown == [] {
      r := None;
    } else {
      r := Some((allUp, allDown));
    }
  }

  /** The loop over the target tables, collecting each table's statements in turn. */
  method DiffTables(current: map<string, TableSchema>, target: map<string, TableSchema>, tables: seq<string>)
    returns (allUp: seq<string>, allDown: seq<string>, ghost ups: seq<seq<string>>, ghost downs: seq<seq<string>>)
    requires forall t :: t in tables ==> t in target
    ensures TablesDiffed(current, target, tables, ups, downs)
    ensures allUp == Flat(ups) && allDown == Flat(downs)
  {
    allUp, allDown, ups, downs := [], [], [], [];
    for i := 0 to |tables|
      invariant TablesDiffed(current, target, tables[..i], ups, downs)
      invariant allUp == Flat(ups) && allDown == Flat(downs)
    {
      allUp, allDown, ups, downs := DiffNext(current, target, tables[..i], tables[i], allUp, allDown, ups, downs);
      assert tables[..i + 1] == tables[..i] + [tables[i]];
    }
    assert tables[..|tables|] == tables;
  }

  /** One table's statements appended to those of the tables before it. */
  method DiffNext(current: map<string, TableSchema>, target: map<string, TableSchema>, done: seq<string>, t: string,
                  allUp: seq<string>, allDown: seq<string>, ghost ups: seq<seq<string>>, ghost downs: seq<seq<string>>)
    returns (allUp': seq<string>, allDown': seq<string>, ghost ups': seq<seq<string>>, ghost downs': seq<seq<string>>)
    requires t in target
    requires TablesDiffed(current, target, done, ups, downs)
    requires allUp == Flat(ups) && allDown == Flat(downs)
    ensures TablesDiffed(current, target, done + [t], ups', downs')
    ensures allUp' == Flat(ups') && allDown' == Flat(downs')
  {
    var up, down := TableDiff(current, target, t);
    FlatSnoc(ups, up);
    FlatSnoc(downs, down);
    TablesDiffedSnoc(current, target, done, ups, downs, t, up, down);
    ups', downs' := ups + [up], downs + [down];
    allUp', allDown' := allUp + up, allDown + down;
  }

  /** The statements for one target table: those of `diff_schemas`, and none exactly when it is in sync. */
  method TableDiff(current: map<string, TableSchema>, target: map<string, TableSchema>, name: string)
    returns (up: seq<string>, down: seq<string>)
    requires name in target
    ensures TableStatements(current, target, name, up, down)
    ensures up == [] && down == [] <==> InSync(current, target, name)
  {
    ghost var missing, extra;
    up, down, missing, extra := DiffSchemas(target[name], Get(current, name));
    assert DiffStatements(target[name], Get(current, name), up, down, missing, extra);
    if name in current {
      DiffCounts(ColumnNames(target[name].columns), ColumnNames(current[name].columns), up, down, missing, extra);
    }
  }
}
