/**
 * `halvor migrate generate`: the description becomes a snake-case file
 * name suffix, the next version is one more than the highest numbered
 * migration file, and the new file's `up`/`down` bodies are built from
 * SQL statements, a `--` statement as a comment line and any other as a
 * `conn.execute` call.
 */
module Migrate {
  import opened Wrappers
  import opened Strings

  const DESCRIPTION_REQUIRED: string := "Migration description is required. Example: halvor migrate generate add users table"

  // ---------------------------------------------------------------------------
  // The description

  /** `generate_migration`: the words joined with `_`, lower-cased, and every space turned into `_`. */
  function MigrationDescription(words: seq<string>): Result<string>
  {
    if words == [] then Err(DESCRIPTION_REQUIRED)
    else Ok(Replace(ToLower(Join(words, "_")), " ", "_"))
  }

  /**
   * No description is an error; otherwise the description keeps one
   * character per character of the joined words, each lower-cased, with
   * `_` for every space, so it has no space and no upper-case letter left.
   */
  lemma DescriptionMeaning(words: seq<string>)
    ensures MigrationDescription(words).Err? <==> words == []
    ensures MigrationDescription(words).Ok? ==>
      var joined := Join(words, "_");
      var d := MigrationDescription(words).value;
      && |d| == |joined|
      && (forall i :: 0 <= i < |d| ==> d[i] == if joined[i] == ' ' then '_' else LowerChar(joined[i]))
      && ' ' !in d
      && forall i :: 0 <= i < |d| ==> !IsAsciiUpper(d[i])
  {
    if words != [] {
      var joined := Join(words, "_");
      ReplaceChar(ToLower(joined), ' ', '_');
      var d := MigrationDescription(words).value;
      forall i | 0 <= i < |d| ensures d[i] != ' ' {
      }
    }
  }

  // ---------------------------------------------------------------------------
  // Version numbering

  /**
   * The version a directory entry declares: a `.rs` file other than
   * `mod.rs`, `.rs` stripped (repeatedly), whose text before the first
   * `_` parses as a `u32`.
   */
  function FileVersion(fileName: string): Option<nat>
  {
    if EndsWith(fileName, ".rs") && fileName != "mod.rs" then
      ParseUnsigned(Split(TrimEndMatches(fileName, ".rs"), '_')[0], U32_MAX)
    else None
  }

  /** The highest declared version, 0 when no entry declares one. */
  function MaxVersion(fileNames: seq<string>): nat
  {
    MaxBy(fileNames, FileVersion)
  }

  /** The highest value `version` gives an entry, 0 when it gives none. */
  function MaxBy(xs: seq<string>, version: string -> Option<nat>): nat
  {
    if xs == [] then 0
    else
      var m := MaxBy(xs[..|xs| - 1], version);
      match version(xs[|xs| - 1])
      case Some(v) => if v > m then v else m
      case None => m
  }

  /** The directory loop of `create_migration_file`. */
  method HighestVersion(fileNames: seq<string>) returns (maxVersion: nat)
    ensures maxVersion == MaxVersion(fileNames)
  {
    maxVersion := 0;
    for i := 0 to |fileNames|
      invariant maxVersion == MaxVersion(fileNames[..i])
    {
      assert fileNames[..i + 1][..i] == fileNames[..i];
      var fileName := fileNames[i];
      if EndsWith(fileName, ".rs") && fileName != "mod.rs" {
        var parts := Split(TrimEndMatches(fileName, ".rs"), '_');
        var version := ParseUnsigned(parts[0], U32_MAX);
        if version.Some? {
          maxVersion := if version.value > maxVersion then version.value else maxVersion;
        }
      }
    }
    assert fileNames[..|fileNames|] == fileNames;
  }

  /** No entry declares a version above the maximum, which fits a `u32`. */
  lemma MaxVersionBound(fileNames: seq<string>)
    ensures MaxVersion(fileNames) <= U32_MAX
    ensures forall i :: 0 <= i < |fileNames| && FileVersion(fileNames[i]).Some? ==> FileVersion(fileNames[i]).value <= MaxVersion(fileNames)
  {
    assert forall x :: FileVersion(x).Some? ==> FileVersion(x).value <= U32_MAX;
    MaxByBound(fileNames, FileVersion, U32_MAX);
  }

  /** Unless it is 0, the maximum is the version some entry declares; entries that declare nothing do not count. */
  lemma MaxVersionAttained(fileNames: seq<string>)
    ensures MaxVersion(fileNames) == 0 || exists i :: 0 <= i < |fileNames| && FileVersion(fileNames[i]) == Some(MaxVersion(fileNames))
  {
    MaxByAttained(fileNames, FileVersion);
  }

  lemma {:induction false} MaxByBound(xs: seq<string>, version: string -> Option<nat>, bound: nat)
    requires forall x :: version(x).Some? ==> version(x).value <= bound
    ensures MaxBy(xs, version) <= bound
    ensures forall i :: 0 <= i < |xs| && version(xs[i]).Some? ==> version(xs[i]).value <= MaxBy(xs, version)
  {
    if xs != [] {
      var n := |xs| - 1;
      var init := xs[..n];
      MaxByBound(init, version, bound);
      forall i | 0 <= i < |xs| && version(xs[i]).Some?
        ensures version(xs[i]).value <= MaxBy(xs, version)
      {
        if i < n {
          assert init[i] == xs[i];
        }
      }
    }
  }

  lemma {:induction false} MaxByAttained(xs: seq<string>, version: string -> Option<nat>)
    ensures MaxBy(xs, version) == 0 || exists i :: 0 <= i < |xs| && version(xs[i]) == Some(MaxBy(xs, version))
  {
    if xs != [] {
      var n := |xs| - 1;
      var init := xs[..n];
      MaxByAttained(init, version);
      var m := MaxBy(xs, version);
      if m != 0 && m == MaxBy(init, version) {
        var i :| 0 <= i < n && version(init[i]) == Some(m);
        assert init[i] == xs[i];
      }
    }
  }

  /** `max_version + 1`: a directory already holding version `u32::MAX` overflows the counter. */
  function NextVersion(fileNames: seq<string>): Result<nat>
  {
    var m := MaxVersion(fileNames);
    if m == U32_MAX then Err("attempt to add with overflow") else Ok(m + 1)
  }

  /** `format!("{:03}_{}.rs", next_version, desc)`. */
  function MigrationFileName(version: nat, desc: string): string
  {
    ZeroPad(version, 3) + "_" + desc + ".rs"
  }

  /** A string ending in `p` with a tail shorter than `p` has the prefix's last character inside `p`. */
  lemma ShortTailOverlaps(prefix: string, t: string, p: string)
    requires |prefix| > 0
    ensures EndsWith(prefix + t, p) && |t| < |p| ==> prefix[|prefix| - 1] in p
  {
    var s := prefix + t;
    if EndsWith(s, p) && |t| < |p| {
      assert p[|p| - |t| - 1] == s[|s| - |t| - 1];
    }
  }

  /** With a tail at least as long as `p`, the whole ends in `p` exactly when the tail does. */
  lemma LongTailEnds(prefix: string, t: string, p: string)
    ensures |t| >= |p| ==> (EndsWith(prefix + t, p) <==> EndsWith(t, p))
  {
    var s := prefix + t;
    if |t| >= |p| {
      assert s[|s| - |p|..] == t[|t| - |p|..];
    }
  }

  /** Stripping a suffix pattern never reaches into a prefix whose last character is not in the pattern. */
  lemma {:induction false} TrimEndKeepsPrefix(prefix: string, t: string, p: string)
    requires |p| > 0 && |prefix| > 0 && prefix[|prefix| - 1] !in p
    ensures TrimEndMatches(prefix + t, p) == prefix + TrimEndMatches(t, p)
    decreases |t|
  {
    var s := prefix + t;
    ShortTailOverlaps(prefix, t, p);
    LongTailEnds(prefix, t, p);
    if EndsWith(s, p) {
      var u := t[..|t| - |p|];
      assert EndsWith(t, p);
      assert s[..|s| - |p|] == prefix + u;
      assert TrimEndMatches(s, p) == TrimEndMatches(prefix + u, p);
      assert TrimEndMatches(t, p) == TrimEndMatches(u, p);
      TrimEndKeepsPrefix(prefix, u, p);
    } else {
      assert !EndsWith(t, p);
    }
  }

  /** The first `_`-separated piece of `a + "_" + rest` is `a` when `a` has no `_`. */
  lemma FirstSegment(a: string, rest: string)
    requires '_' !in a
    ensures Split(a + "_" + rest, '_')[0] == a
  {
    IndexOfAfter(a, '_', rest);
    assert a + "_" + rest == a + ['_'] + rest;
  }

  /** The next run reads back the version a created file was named with. */
  lemma FileNameRoundTrip(version: nat, desc: string)
    requires version <= U32_MAX
    ensures FileVersion(MigrationFileName(version, desc)) == Some(version)
  {
    var pad := ZeroPad(version, 3);
    var name := MigrationFileName(version, desc);
    assert '_' !in pad;
    assert name == (pad + "_") + (desc + ".rs");
    TrimEndKeepsPrefix(pad + "_", desc + ".rs", ".rs");
    FirstSegment(pad, TrimEndMatches(desc + ".rs", ".rs"));
    assert (pad + "_") + TrimEndMatches(desc + ".rs", ".rs") == pad + "_" + TrimEndMatches(desc + ".rs", ".rs");
    assert name[|name| - 3..] == ".rs";
    assert name != "mod.rs" by {
      assert IsDigit(name[0]);
    }
    ParseZeroPad(version, 3, U32_MAX);
  }

  /** After creating the file the next version counts it: versions keep increasing. */
  lemma NextVersionAfterCreate(fileNames: seq<string>, desc: string)
    requires NextVersion(fileNames).Ok?
    ensures var v := NextVersion(fileNames).value;
      MaxVersion(fileNames + [MigrationFileName(v, desc)]) == v
  {
    var v := NextVersion(fileNames).value;
    MaxVersionBound(fileNames);
    FileNameRoundTrip(v, desc);
    assert (fileNames + [MigrationFileName(v, desc)])[..|fileNames|] == fileNames;
  }

  // ---------------------------------------------------------------------------
  // The migration's text

  /**
   * A character `{:?}` writes as `\u{…}`: a C0 control without a short
   * escape, DEL, or a C1 control.
   */
  predicate IsControl(c: char)
  {
    c as int < 0x20 || 0x7f <= c as int <= 0x9f
  }

  predicate IsHexDigit(c: char)
  {
    '0' <= c <= '9' || 'a' <= c <= 'f' || 'A' <= c <= 'F'
  }

  function HexDigitChar(d: nat): (c: char)
    requires d < 16
    ensures IsHexDigit(c) && c != '}' && HexDigitValue(c) == d
  {
    if d < 10 then (('0' as int) + d) as char else (('a' as int) + d - 10) as char
  }

  function HexDigitValue(c: char): (d: nat)
    requires IsHexDigit(c)
    ensures d < 16
  {
    if '0' <= c <= '9' then c as int - '0' as int
    else if 'a' <= c <= 'f' then c as int - 'a' as int + 10
    else c as int - 'A' as int + 10
  }

  /** `{:x}` of a number below 256: lower-case digits without leading zeros. */
  function LowerHex(n: nat): (r: string)
    requires n < 256
    ensures 1 <= |r| <= 2 && forall i :: 0 <= i < |r| ==> IsHexDigit(r[i]) && r[i] != '}'
  {
    if n < 16 then [HexDigitChar(n)] else [HexDigitChar(n / 16), HexDigitChar(n % 16)]
  }

  /** The number hexadecimal digits denote. */
  function HexValue(s: string): nat
    requires forall i :: 0 <= i < |s| ==> IsHexDigit(s[i])
    decreases |s|
  {
    if s == [] then 0 else HexValue(s[..|s| - 1]) * 16 + HexDigitValue(s[|s| - 1])
  }

  /** A value `\u{…}` may name: a Unicode scalar value. */
  predicate IsScalar(n: nat)
  {
    n < 0xD800 || 0xE000 <= n < 0x11_0000
  }

  /** `{:?}` of a character inside a string literal. */
  function EscapeChar(c: char): string
  {
    if c == '"' then "\\\""
    else if c == '\\' then "\\\\"
    else if c == '\n' then "\\n"
    else if c == '\r' then "\\r"
    else if c == '\t' then "\\t"
    else if c == '\0' then "\\0"
    else if IsControl(c) then "\\u{" + LowerHex(c as int) + "}"
    else [c]
  }

  /** The body of `{:?}` of a string. */
  function Escape(s: string): string
  {
    if s == [] then [] else EscapeChar(s[0]) + Escape(s[1..])
  }

  /** `format!("{:?}", s)`: the escaped text in double quotes. */
  function Quoted(s: string): string
  {
    "\"" + Escape(s) + "\""
  }

  /**
   * The character an escape denotes, read after its backslash, and how many
   * characters it takes: the short escapes and `u{…}` with one to six hex
   * digits naming a scalar value.
   */
  function ReadEscape(t: string): (r: Option<(char, nat)>)
    ensures r.Some? ==> 1 <= r.value.1 <= |t|
  {
    if t == [] then None
    else if t[0] == '"' then Some(('"', 1))
    else if t[0] == '\\' then Some(('\\', 1))
    else if t[0] == 'n' then Some(('\n', 1))
    else if t[0] == 'r' then Some(('\r', 1))
    else if t[0] == 't' then Some(('\t', 1))
    else if t[0] == '0' then Some(('\0', 1))
    else if t[0] == 'u' && |t| >= 2 && t[1] == '{' then
      match IndexOf(t[2..], '}')
      case None => None
      case Some(k) =>
        var digits := t[2..2 + k];
        if 1 <= k <= 6 && (forall i :: 0 <= i < k ==> IsHexDigit(digits[i])) && IsScalar(HexValue(digits))
        then Some((HexValue(digits) as char, k + 3))
        else None
    else None
  }

  /** Reading an escaped literal body back, as the Rust compiler does for the escapes `{:?}` emits. */
  function Unescape(e: string): Option<string>
    decreases |e|
  {
    if e == [] then Some([])
    else if e[0] == '"' then None
    else if e[0] != '\\' then
      (match Unescape(e[1..]) case Some(r) => Some([e[0]] + r) case None => None)
    else
      match ReadEscape(e[1..])
      case None => None
      case Some((x, k)) =>
        match Unescape(e[1 + k..])
        case Some(r) => Some([x] + r)
        case None => None
  }

  /** The digits `{:x}` writes denote the number again. */
  lemma LowerHexValue(n: nat)
    requires n < 256
    ensures HexValue(LowerHex(n)) == n
  {
    var h := LowerHex(n);
    if n < 16 {
      assert h[..0] == [];
    } else {
      assert h[..1] == [HexDigitChar(n / 16)];
      assert h[..1][..0] == [];
      assert HexValue(h[..1]) == n / 16;
      assert HexValue(h) == (n / 16) * 16 + n % 16;
    }
  }

  /** A `\u{…}` escape reads back as its character, whatever follows. */
  lemma ReadUnicodeEscape(c: char, rest: string)
    requires IsControl(c)
    ensures var h := LowerHex(c as int);
      ReadEscape("u{" + h + "}" + rest) == Some((c, |h| + 3))
  {
    var h := LowerHex(c as int);
    var t := "u{" + h + "}" + rest;
    var u := t[2..];
    assert u == h + "}" + rest;
    assert u[..|h|] == h && u[|h|] == '}';
    var k := IndexOf(u, '}');
    assert k.Some?;
    assert k.value == |h|;
    assert t[2..2 + |h|] == h;
    LowerHexValue(c as int);
  }

  lemma UnescapeChar(c: char, rest: string)
    ensures Unescape(EscapeChar(c) + rest) == match Unescape(rest) case Some(r) => Some([c] + r) case None => None
  {
    var e := EscapeChar(c) + rest;
    if c == '"' || c == '\\' || c == '\n' || c == '\r' || c == '\t' || c == '\0' {
      assert e[1..] == [EscapeChar(c)[1]] + rest;
      assert e[2..] == rest;
    } else if IsControl(c) {
      var h := LowerHex(c as int);
      assert e[1..] == "u{" + h + "}" + rest;
      ReadUnicodeEscape(c, rest);
      assert e[1 + |h| + 3..] == rest;
    } else {
      assert e[1..] == rest;
    }
  }

  /** The literal `{:?}` writes denotes the SQL text again, and it has no bare double quote to end it early. */
  lemma {:induction false} EscapeRoundTrip(s: string)
    ensures Unescape(Escape(s)) == Some(s)
    decreases |s|
  {
    if s != [] {
      EscapeRoundTrip(s[1..]);
      UnescapeChar(s[0], Escape(s[1..]));
      assert s == [s[0]] + s[1..];
    }
  }

  /** One statement of a body: a `--` comment is written as a line, anything else as a `conn.execute` call with `failure` as context. */
  function SqlItem(sql: string, failure: string): string
  {
    if StartsWith(sql, "--") then "    " + sql + "\n"
    else "    conn.execute(\n        " + Quoted(sql) + ",\n        [],\n    )\n    .context(\"" + failure + "\")?;\n\n"
  }

  function SqlItems(sqls: seq<string>, failure: string): string
  {
    if sqls == [] then "" else SqlItems(sqls[..|sqls| - 1], failure) + SqlItem(sqls[|sqls| - 1], failure)
  }

  const UP_PLACEHOLDER: string :=
    "    // TODO: Implement migration\n    // Example:\n    // conn.execute(\n" +
    "    //     \"CREATE TABLE IF NOT EXISTS example (\n    //         id TEXT PRIMARY KEY,\n" +
    "    //         name TEXT NOT NULL,\n    //         created_at INTEGER NOT NULL,\n" +
    "    //         updated_at INTEGER NOT NULL\n    //     )\",\n    //     [],\n    // )\n" +
    "    // .context(\"Failed to create example table\")?;\n    \n    Ok(())"
  const DOWN_PLACEHOLDER: string :=
    "    // TODO: Implement rollback\n    // Example:\n    // conn.execute(\"DROP TABLE IF EXISTS example\", [])\n" +
    "    //     .context(\"Failed to drop example table\")?;\n    \n    Ok(())"
  const UP_FAILURE: string := "Failed to execute migration"
  const DOWN_FAILURE: string := "Failed to execute rollback"

  /** A body: the placeholder when there are no statements, else every statement in order and `Ok(())`. */
  function Body(sqls: seq<string>, failure: string, placeholder: string): string
  {
    if sqls == [] then placeholder else SqlItems(sqls, failure) + "    Ok(())"
  }

  /** The `for sql in up_sql` / `for sql in down_sql` loops. */
  method BuildBody(sqls: seq<string>, failure: string, placeholder: string) returns (content: string)
    ensures content == Body(sqls, failure, placeholder)
  {
    if sqls == [] {
      return placeholder;
    }
    content := "";
    for i := 0 to |sqls|
      invariant content == SqlItems(sqls[..i], failure)
    {
      assert sqls[..i + 1][..i] == sqls[..i];
      var sql := sqls[i];
      if StartsWith(sql, "--") {
        content := content + ("    " + sql + "\n");
      } else {
        content := content + ("    conn.execute(\n        " + Quoted(sql) + ",\n        [],\n    )\n    .context(\"" + failure + "\")?;\n\n");
      }
    }
    assert sqls[..|sqls|] == sqls;
    content := content + "    Ok(())";
  }

  /**
   * Comment statements become their own lines, in order: a body of
   * one-line `--` statements reads back as those statements indented
   * by four spaces, followed by the `Ok(())` line.
   */
  lemma {:induction false} CommentLines(sqls: seq<string>, failure: string)
    requires forall i :: 0 <= i < |sqls| ==> StartsWith(sqls[i], "--")
    ensures SqlItems(sqls, failure) == Unlines(Indented(sqls))
    decreases |sqls|
  {
    if sqls != [] {
      var init := sqls[..|sqls| - 1];
      CommentLines(init, failure);
      assert Indented(sqls)[..|sqls| - 1] == Indented(init);
    }
  }

  function Indented(ls: seq<string>): (r: seq<string>)
    ensures |r| == |ls|
  {
    if ls == [] then [] else Indented(ls[..|ls| - 1]) + ["    " + ls[|ls| - 1]]
  }

  /** The whole file `create_migration_file` writes. */
  function MigrationContent(version: nat, desc: string, up: string, down: string): string
  {
    var title := Replace(desc, "_", " ");
    FILE_HEADER + ZeroPad(version, 3) + ": " + title +
    UP_SIGNATURE + up + "\n\n}\n\n/// Rollback: Undo " + title +
    DOWN_SIGNATURE + down + "\n\n}\n"
  }

  const FILE_HEADER := "use anyhow::{Context, Result};\nuse rusqlite::Connection;\n\n/// Migration "
  const UP_SIGNATURE := "\npub fn up(conn: &Connection) -> Result<()> {\n"
  const DOWN_SIGNATURE := "\npub fn down(conn: &Connection) -> Result<()> {\n"

  /** A migration file: its name and its text. */
  datatype MigrationFile = MigrationFile(fileName: string, content: string)

  /**
   * `create_migration_file`, the migrations directory's entry names given
   * (`None` when the directory does not exist); the write itself is left
   * to the caller.
   */
  method CreateMigrationFile(entries: Option<seq<string>>, desc: string, upSql: seq<string>, downSql: seq<string>) returns (r: Result<MigrationFile>)
    ensures var names := if entries.Some? then entries.value else [];
      match NextVersion(names)
      case Err(e) => r == Err(e)
      case Ok(v) => r == Ok(MigrationFile(MigrationFileName(v, desc),
        MigrationContent(v, desc, Body(upSql, UP_FAILURE, UP_PLACEHOLDER), Body(downSql, DOWN_FAILURE, DOWN_PLACEHOLDER))))
  {
    var maxVersion := 0;
    if entries.Some? {
      maxVersion := HighestVersion(entries.value);
    }
    if maxVersion == U32_MAX {
      return Err("attempt to add with overflow");
    }
    var nextVersion := maxVersion + 1;
    var fileName := ZeroPad(nextVersion, 3) + "_" + desc + ".rs";
    var upContent := BuildBody(upSql, UP_FAILURE, UP_PLACEHOLDER);
    var downContent := BuildBody(downSql, DOWN_FAILURE, DOWN_PLACEHOLDER);
    r := Ok(MigrationFile(fileName, MigrationContent(nextVersion, desc, upContent, downContent)));
  }

  /** `generate_migration`: an empty description errors before anything is read; the bodies are the placeholders. */
  method GenerateMigration(words: seq<string>, entries: Option<seq<string>>) returns (r: Result<MigrationFile>)
    ensures words == [] ==> r == Err(DESCRIPTION_REQUIRED)
    ensures words != [] ==>
      var desc := MigrationDescription(words).value;
      var names := if entries.Some? then entries.value else [];
      match NextVersion(names)
      case Err(e) => r == Err(e)
      case Ok(v) => r == Ok(MigrationFile(MigrationFileName(v, desc), MigrationContent(v, desc, UP_PLACEHOLDER, DOWN_PLACEHOLDER)))
  {
    var d := MigrationDescription(words);
    if d.Err? {
      return Err(d.msg);
    }
    r := CreateMigrationFile(entries, d.value, [], []);
  }
}
