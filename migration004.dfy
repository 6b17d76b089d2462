/**
 * Migration 004: make sure `host_info` has an `id` column. An absent table
 * is created with the full schema; a table that has `id` is left alone; a
 * table without it is copied to `host_info_backup`, dropped, recreated, and
 * refilled from the backup with a fresh UUID per row, the old columns that
 * exist copied, missing timestamps set to the current time and other
 * missing columns NULL. The database is a map from table name to columns
 * and rows; `random()`/`randomblob()` draws and the clock are parameters.
 */
module Migration004 {
  import opened Wrappers
  import opened Strings
  import opened TableMacro
  import opened DbTable
  import HostInfoTable

  datatype SqlTable = SqlTable(columns: seq<string>, rows: seq<StoredRow>)

  type Tables = map<string, SqlTable>

  const HOST_INFO_NAME: string := "host_info"
  const BACKUP_NAME: string := "host_info_backup"

  /** The columns the recreated table has and the `INSERT` names, in order. */
  const NEW_COLUMNS: seq<string> := HostInfoTable.MIGRATION_LAYOUT

  /** `column_mapping`: target and source column for everything but `id`. */
  const COLUMN_MAPPING: seq<(string, string)> := [
    ("hostname", "hostname"),
    ("last_provisioned_at", "last_provisioned_at"),
    ("docker_version", "docker_version"),
    ("tailscale_installed", "tailscale_installed"),
    ("portainer_installed", "portainer_installed"),
    ("metadata", "metadata"),
    ("ip", "ip"),
    ("hostname_field", "hostname_field"),
    ("tailscale", "tailscale"),
    ("backup_path", "backup_path"),
    ("created_at", "created_at"),
    ("updated_at", "updated_at")]

  /** Each mapping pair names one column twice, and the pairs follow the `INSERT` list after `id`. */
  lemma MappingFollowsInsertList()
    ensures |COLUMN_MAPPING| + 1 == |NEW_COLUMNS| && NEW_COLUMNS[0] == PRIMARY_KEY
    ensures forall k :: 0 <= k < |COLUMN_MAPPING| ==> COLUMN_MAPPING[k].0 == COLUMN_MAPPING[k].1 == NEW_COLUMNS[k + 1]
  {
  }

  // ---------------------------------------------------------------------------
  // The UUID expression

  /** The values one row's UUID expression draws: five `randomblob`s and one `random()`. */
  datatype Draw = Draw(b4: seq<bv8>, b2a: seq<bv8>, b2b: seq<bv8>, b2c: seq<bv8>, b6: seq<bv8>, pick: int)

  /** `randomblob(n)` gives `n` bytes and `random()` a 64-bit integer. */
  predicate ValidDraw(d: Draw)
  {
    |d.b4| == 4 && |d.b2a| == 2 && |d.b2b| == 2 && |d.b2c| == 2 && |d.b6| == 6 && I64_MIN <= d.pick <= I64_MAX
  }

  function HexDigit(n: int): char
    requires 0 <= n < 16
  {
    "0123456789ABCDEF"[n]
  }

  /** `hex(blob)`: two upper-case digits per byte, high nibble first. */
  function Hex(bs: seq<bv8>): (r: string)
    ensures |r| == 2 * |bs|
  {
    seq(2 * |bs|, i requires 0 <= i < 2 * |bs| =>
      HexDigit(if i % 2 == 0 then bs[i / 2] as int / 16 else bs[i / 2] as int % 16))
  }

  /** `substr(x, 2)`: everything after the first character. */
  function FromSecond(x: string): string
  {
    if x == [] then [] else x[1..]
  }

  /**
   * The first select item: `lower(hex(4) || '-' || hex(2) || '-4' ||
   * substr(hex(2), 2) || '-' || substr('89ab', abs(random()) % 4 + 1, 1) ||
   * substr(hex(2), 2) || '-' || hex(6))`. SQLite's `abs` fails on the
   * smallest 64-bit integer.
   */
  function Uuid(d: Draw): Result<string>
  {
    if d.pick == I64_MIN then Err("integer overflow")
    else
      var variant := "89ab"[(if d.pick < 0 then -d.pick else d.pick) % 4];
      Ok(ToLower(Hex(d.b4) + "-" + Hex(d.b2a) + "-4" + FromSecond(Hex(d.b2b)) + "-" + [variant]
                 + FromSecond(Hex(d.b2c)) + "-" + Hex(d.b6)))
  }

  /** The layout of a version-4 UUID: `x` a lower-case hex digit, `y` one of `8`, `9`, `a`, `b`. */
  const UUID_PATTERN: string := "xxxxxxxx-xxxx-4xxx-yxxx-xxxxxxxxxxxx"

  predicate IsLowerHex(c: char)
  {
    '0' <= c <= '9' || 'a' <= c <= 'f'
  }

  predicate Fills(c: char, p: char)
  {
    if p == 'x' then IsLowerHex(c) else if p == 'y' then c in "89ab" else c == p
  }

  predicate Matches(s: string, pattern: string)
  {
    |s| == |pattern| && forall i :: 0 <= i < |s| ==> Fills(s[i], pattern[i])
  }

  function Xs(n: nat): (r: string)
    ensures |r| == n && forall i :: 0 <= i < n ==> r[i] == 'x'
  {
    seq(n, i => 'x')
  }

  lemma MatchesConcat(a: string, p: string, b: string, q: string)
    requires Matches(a, p) && Matches(b, q)
    ensures Matches(a + b, p + q)
  {
    forall i | 0 <= i < |a + b| ensures Fills((a + b)[i], (p + q)[i]) {
      if i >= |a| {
        assert (a + b)[i] == b[i - |a|] && (p + q)[i] == q[i - |a|];
      }
    }
  }

  /** Lower-cased, `hex` gives only lower-case hex digits. */
  lemma LowerHexDigits(bs: seq<bv8>)
    ensures Matches(ToLower(Hex(bs)), Xs(2 * |bs|))
    ensures |bs| > 0 ==> Matches(ToLower(FromSecond(Hex(bs))), Xs(2 * |bs| - 1))
  {
    var h := Hex(bs);
    assert forall i :: 0 <= i < |h| ==> ('0' <= h[i] <= '9' || 'A' <= h[i] <= 'F');
    if |bs| > 0 {
      assert forall i :: 0 <= i < |h| - 1 ==> FromSecond(h)[i] == h[i + 1];
    }
  }

  lemma LiteralMatches(s: string)
    requires forall i :: 0 <= i < |s| ==> s[i] != 'x' && s[i] != 'y' && !IsAsciiUpper(s[i])
    ensures Matches(ToLower(s), s)
  {
  }

  lemma UuidPatternPieces()
    ensures UUID_PATTERN == Xs(8) + "-" + Xs(4) + "-4" + Xs(3) + "-" + "y" + Xs(3) + "-" + Xs(12)
  {
  }

  /** Every valid draw whose `random()` is not the smallest integer gives a version-4 UUID. */
  lemma UuidShape(d: Draw)
    requires ValidDraw(d) && d.pick != I64_MIN
    ensures Uuid(d).Ok? && Matches(Uuid(d).value, UUID_PATTERN)
  {
    var variant := "89ab"[(if d.pick < 0 then -d.pick else d.pick) % 4];
    var p1, p2, p3, p4, p5 := Hex(d.b4), Hex(d.b2a), FromSecond(Hex(d.b2b)), FromSecond(Hex(d.b2c)), Hex(d.b6);
    LowerHexDigits(d.b4);
    LowerHexDigits(d.b2a);
    LowerHexDigits(d.b2b);
    LowerHexDigits(d.b2c);
    LowerHexDigits(d.b6);
    LiteralMatches("-");
    LiteralMatches("-4");
    assert Matches(ToLower([variant]), "y");
    ToLowerConcat(p1, "-");
    MatchesConcat(ToLower(p1), Xs(8), ToLower("-"), "-");
    var a1 := p1 + "-";
    ToLowerConcat(a1, p2);
    MatchesConcat(ToLower(a1), Xs(8) + "-", ToLower(p2), Xs(4));
    var a2 := a1 + p2;
    ToLowerConcat(a2, "-4");
    MatchesConcat(ToLower(a2), Xs(8) + "-" + Xs(4), ToLower("-4"), "-4");
    var a3 := a2 + "-4";
    ToLowerConcat(a3, p3);
    MatchesConcat(ToLower(a3), Xs(8) + "-" + Xs(4) + "-4", ToLower(p3), Xs(3));
    var a4 := a3 + p3;
    ToLowerConcat(a4, "-");
    MatchesConcat(ToLower(a4), Xs(8) + "-" + Xs(4) + "-4" + Xs(3), ToLower("-"), "-");
    var a5 := a4 + "-";
    ToLowerConcat(a5, [variant]);
    MatchesConcat(ToLower(a5), Xs(8) + "-" + Xs(4) + "-4" + Xs(3) + "-", ToLower([variant]), "y");
    var a6 := a5 + [variant];
    ToLowerConcat(a6, p4);
    MatchesConcat(ToLower(a6), Xs(8) + "-" + Xs(4) + "-4" + Xs(3) + "-" + "y", ToLower(p4), Xs(3));
    var a7 := a6 + p4;
    ToLowerConcat(a7, "-");
    MatchesConcat(ToLower(a7), Xs(8) + "-" + Xs(4) + "-4" + Xs(3) + "-" + "y" + Xs(3), ToLower("-"), "-");
    var a8 := a7 + "-";
    ToLowerConcat(a8, p5);
    MatchesConcat(ToLower(a8), Xs(8) + "-" + Xs(4) + "-4" + Xs(3) + "-" + "y" + Xs(3) + "-", ToLower(p5), Xs(12));
    UuidPatternPieces();
  }

  // ---------------------------------------------------------------------------
  // The select list

  /** One item of the restoring `SELECT`. */
  datatype SelectItem = NewUuid | Copy(column: string) | CurrentTime | NullValue

  function SelectText(item: SelectItem): string
  {
    match item
    case NewUuid => "lower(hex(randomblob(4)) || ...)"
    case Copy(c) => c
    case CurrentTime => "strftime('%s', 'now')"
    case NullValue => "NULL"
  }

  predicate IsTimestamp(c: string)
  {
    c == "created_at" || c == "updated_at"
  }

  /** The select list: the UUID, then per mapped column a copy when the old table has it, else its default. */
  method BuildSelectList(existing: seq<string>) returns (parts: seq<SelectItem>)
    ensures |parts| == |NEW_COLUMNS| && parts[0] == NewUuid
    ensures forall k :: 1 <= k < |parts| ==>
      && (parts[k] == Copy(NEW_COLUMNS[k]) <==> NEW_COLUMNS[k] in existing)
      && (NEW_COLUMNS[k] !in existing && IsTimestamp(NEW_COLUMNS[k]) ==> parts[k] == CurrentTime)
      && (NEW_COLUMNS[k] !in existing && !IsTimestamp(NEW_COLUMNS[k]) ==> parts[k] == NullValue)
  {
    MappingFollowsInsertList();
    parts := [NewUuid];
    for i := 0 to |COLUMN_MAPPING|
      invariant |parts| == i + 1 && parts[0] == NewUuid
      invariant forall k :: 1 <= k < |parts| ==>
        && (parts[k] == Copy(NEW_COLUMNS[k]) <==> NEW_COLUMNS[k] in existing)
        && (NEW_COLUMNS[k] !in existing && IsTimestamp(NEW_COLUMNS[k]) ==> parts[k] == CurrentTime)
        && (NEW_COLUMNS[k] !in existing && !IsTimestamp(NEW_COLUMNS[k]) ==> parts[k] == NullValue)
    {
      var source := COLUMN_MAPPING[i].1;
      if source in existing {
        parts := parts + [Copy(source)];
      } else if source == "created_at" || source == "updated_at" {
        parts := parts + [CurrentTime];
      } else {
        parts := parts + [NullValue];
      }
    }
  }

  /** The list `BuildSelectList` returns, for the lemmas below. */
  function SelectList(existing: seq<string>): (parts: seq<SelectItem>)
    ensures |parts| == |NEW_COLUMNS| && parts[0] == NewUuid
  {
    [NewUuid] + seq(|NEW_COLUMNS| - 1, k requires 0 <= k < |NEW_COLUMNS| - 1 => DefaultOr(existing, NEW_COLUMNS[k + 1]))
  }

  function DefaultOr(existing: seq<string>, c: string): SelectItem
  {
    if c in existing then Copy(c) else if IsTimestamp(c) then CurrentTime else NullValue
  }

  /** The method's list is the one the lemmas use: the two agree on every input. */
  lemma SelectListAgrees(existing: seq<string>, parts: seq<SelectItem>)
    requires |parts| == |NEW_COLUMNS| && parts[0] == NewUuid
    requires forall k :: 1 <= k < |parts| ==>
      && (parts[k] == Copy(NEW_COLUMNS[k]) <==> NEW_COLUMNS[k] in existing)
      && (NEW_COLUMNS[k] !in existing && IsTimestamp(NEW_COLUMNS[k]) ==> parts[k] == CurrentTime)
      && (NEW_COLUMNS[k] !in existing && !IsTimestamp(NEW_COLUMNS[k]) ==> parts[k] == NullValue)
    ensures parts == SelectList(existing)
  {
    var q := SelectList(existing);
    forall k | 1 <= k < |parts| ensures parts[k] == q[k] {
      assert q[k] == DefaultOr(existing, NEW_COLUMNS[k]);
    }
  }

  // ---------------------------------------------------------------------------
  // Running the statements

  /** `CREATE TABLE ... AS SELECT cols FROM t`: each row keeps only the listed columns. */
  function Restrict(row: StoredRow, cols: seq<string>): (r: StoredRow)
    ensures forall c :: c in cols ==> Column(r, c) == Column(row, c)
  {
    map c | c in row.Keys && c in cols :: row[c]
  }

  function BackupOf(t: SqlTable, cols: seq<string>): SqlTable
  {
    SqlTable(cols, seq(|t.rows|, i requires 0 <= i < |t.rows| => Restrict(t.rows[i], cols)))
  }

  /** The value one select item gives for one backup row. */
  function Eval(item: SelectItem, row: StoredRow, id: string, now: int): SqlValue
  {
    match item
    case NewUuid => Text(id)
    case Copy(c) => Column(row, c)
    case CurrentTime => Integer(now)
    case NullValue => Null
  }

  function Values(parts: seq<SelectItem>, row: StoredRow, id: string, now: int): (vs: seq<SqlValue>)
    ensures |vs| == |parts| && forall k :: 0 <= k < |parts| ==> vs[k] == Eval(parts[k], row, id, now)
  {
    seq(|parts|, k requires 0 <= k < |parts| => Eval(parts[k], row, id, now))
  }

  /** The new rows, one per backup row with the UUID of draw `i`; `None` when a UUID fails. */
  function NewRows(parts: seq<SelectItem>, rows: seq<StoredRow>, draws: nat -> Draw, now: int): (r: Option<seq<StoredRow>>)
  {
    if forall i :: 0 <= i < |rows| ==> Uuid(draws(i)).Ok? then
      Some(seq(|rows|, i requires 0 <= i < |rows| => Bind(NEW_COLUMNS, Values(parts, rows[i], Uuid(draws(i)).value, now))))
    else None
  }

  /** The constraints of the new table: `hostname`, `created_at`, `updated_at` not NULL; `id` and `hostname` unique. */
  predicate Insertable(rows: seq<StoredRow>)
  {
    && (forall i :: 0 <= i < |rows| ==>
          Column(rows[i], "hostname") != Null && Column(rows[i], "created_at") != Null && Column(rows[i], "updated_at") != Null)
    && (forall i, j :: 0 <= i < j < |rows| ==> IdOf(rows[i]) != IdOf(rows[j]))
    && (forall i, j :: 0 <= i < j < |rows| ==> Column(rows[i], "hostname") != Column(rows[j], "hostname"))
  }

  /** A copied column the backup does not have, if any: the statement then fails before any row. */
  function UnknownCopy(parts: seq<SelectItem>, cols: seq<string>): (r: Option<string>)
    ensures r.None? <==> forall k :: 0 <= k < |parts| && parts[k].Copy? ==> parts[k].column in cols
    decreases |parts|
  {
    if parts == [] then None
    else if parts[0].Copy? && parts[0].column !in cols then Some(parts[0].column)
    else
      var r := UnknownCopy(parts[1..], cols);
      assert forall k :: 1 <= k < |parts| ==> parts[k] == parts[1..][k - 1];
      r
  }

  /** The `INSERT ... SELECT ... FROM host_info_backup`: all rows or, on any failure, none. */
  function Restore(parts: seq<SelectItem>, backup: SqlTable, draws: nat -> Draw, now: int): Option<seq<StoredRow>>
  {
    if UnknownCopy(parts, backup.columns).Some? then None
    else match NewRows(parts, backup.rows, draws, now)
      case None => None
      case Some(rows) => if Insertable(rows) then Some(rows) else None
  }

  const RESTORE_FAILED: string := "Failed to restore data to new host_info table"
  const BACKUP_FAILED: string := "Failed to create backup table"
  const NO_ROLLBACK: string := "Migration 004 does not support rollback"

  /** What `up` does to the database. */
  function UpEffect(db: Tables, draws: nat -> Draw, now: int): (Result<()>, Tables)
  {
    if HOST_INFO_NAME !in db then (Ok(()), db[HOST_INFO_NAME := SqlTable(NEW_COLUMNS, [])])
    else if PRIMARY_KEY in db[HOST_INFO_NAME].columns then (Ok(()), db)
    else if db[HOST_INFO_NAME].columns == [] then (Err(BACKUP_FAILED), db)
    else RecreateEffect(db, draws, now)
  }

  /** A backup left from an earlier run is kept (`IF NOT EXISTS`); otherwise the old table is copied. */
  function BackupTable(db: Tables): SqlTable
    requires HOST_INFO_NAME in db
  {
    if BACKUP_NAME in db then db[BACKUP_NAME] else BackupOf(db[HOST_INFO_NAME], db[HOST_INFO_NAME].columns)
  }

  /** Backup, drop, create, restore, drop the backup. */
  function RecreateEffect(db: Tables, draws: nat -> Draw, now: int): (Result<()>, Tables)
    requires HOST_INFO_NAME in db
  {
    var backup := BackupTable(db);
    var db1 := db[BACKUP_NAME := backup][HOST_INFO_NAME := SqlTable(NEW_COLUMNS, [])];
    match Restore(SelectList(db[HOST_INFO_NAME].columns), backup, draws, now)
    case None => (Err(RESTORE_FAILED), db1)
    case Some(rows) => (Ok(()), db1[HOST_INFO_NAME := SqlTable(NEW_COLUMNS, rows)] - {BACKUP_NAME})
  }

  class Database {
    var tables: Tables

    constructor (tables: Tables)
      ensures this.tables == tables
    {
      this.tables := tables;
    }

    /** `up`: the statements in order, each failure ending the migration. */
    method Up(draws: nat -> Draw, now: int) returns (r: Result<()>)
      modifies this
      ensures (r, tables) == UpEffect(old(tables), draws, now)
    {
      if HOST_INFO_NAME !in tables {
        tables := tables[HOST_INFO_NAME := SqlTable(NEW_COLUMNS, [])];
        return Ok(());
      }
      if PRIMARY_KEY in tables[HOST_INFO_NAME].columns {
        return Ok(());
      }
      var info := tables[HOST_INFO_NAME].columns;
      var existing: seq<string> := [];
      for i := 0 to |info|
        invariant existing == info[..i]
      {
        existing := existing + [info[i]];
      }
      assert existing == info;
      if existing == [] {
        return Err(BACKUP_FAILED);
      }
      r := Recreate(existing, draws, now);
    }

    /** The steps after the column list was read, `existing` being that list. */
    method Recreate(existing: seq<string>, draws: nat -> Draw, now: int) returns (r: Result<()>)
      requires HOST_INFO_NAME in tables && existing == tables[HOST_INFO_NAME].columns
      modifies this
      ensures (r, tables) == RecreateEffect(old(tables), draws, now)
    {
      if BACKUP_NAME !in tables {
        tables := tables[BACKUP_NAME := BackupOf(tables[HOST_INFO_NAME], existing)];
      }
      ghost var withBackup := tables;
      assert withBackup == old(tables)[BACKUP_NAME := BackupTable(old(tables))];
      tables := tables - {HOST_INFO_NAME};
      tables := tables[HOST_INFO_NAME := SqlTable(NEW_COLUMNS, [])];
      assert tables == withBackup[HOST_INFO_NAME := SqlTable(NEW_COLUMNS, [])];
      var parts := BuildSelectList(existing);
      SelectListAgrees(existing, parts);
      var restored := Restore(parts, tables[BACKUP_NAME], draws, now);
      if restored.None? {
        return Err(RESTORE_FAILED);
      }
      tables := tables[HOST_INFO_NAME := SqlTable(NEW_COLUMNS, restored.value)];
      tables := tables - {BACKUP_NAME};
      r := Ok(());
    }

    /** `down`: the migration is one-way, so a rollback always fails and touches no table. */
    method Down() returns (r: Result<()>)
      ensures r.Err? && r.msg == NO_ROLLBACK
    {
      r := Err(NO_ROLLBACK);
    }
  }

  // ---------------------------------------------------------------------------
  // What `up` guarantees

  /** The value column `c` of the recreated table gets from an old row with columns `cols`. */
  function MigratedValue(cols: seq<string>, oldRow: StoredRow, c: string, now: int): SqlValue
  {
    if c in cols then Column(oldRow, c) else if IsTimestamp(c) then Integer(now) else Null
  }

  /** The columns of the recreated table are distinct and begin with the key. */
  lemma NewColumnsDistinct()
    ensures NoDuplicates(NEW_COLUMNS) && NEW_COLUMNS[0] == PRIMARY_KEY
  {
    HostInfoTable.HostInfoAligned();
  }

  /** Column `k` of a restored row: the key for `k == 0`, otherwise copied or defaulted. */
  lemma RestoredColumn(cols: seq<string>, oldRow: StoredRow, id: string, now: int, k: nat)
    requires k < |NEW_COLUMNS|
    ensures var row := Bind(NEW_COLUMNS, Values(SelectList(cols), Restrict(oldRow, cols), id, now));
      Column(row, NEW_COLUMNS[k]) == if k == 0 then Text(id) else MigratedValue(cols, oldRow, NEW_COLUMNS[k], now)
  {
    NewColumnsDistinct();
    var parts := SelectList(cols);
    if k > 0 {
      assert parts[k] == DefaultOr(cols, NEW_COLUMNS[k]);
    }
    RestoredAt(NEW_COLUMNS, parts, cols, oldRow, id, now, k);
  }

  /** The same, for any distinct column names and select list of matching shape. */
  lemma RestoredAt(names: seq<string>, parts: seq<SelectItem>, cols: seq<string>, oldRow: StoredRow, id: string, now: int, k: nat)
    requires NoDuplicates(names) && |parts| == |names| && k < |names|
    requires k == 0 ==> parts[k] == NewUuid
    requires k > 0 ==> parts[k] == DefaultOr(cols, names[k])
    ensures Column(Bind(names, Values(parts, Restrict(oldRow, cols), id, now)), names[k])
      == if k == 0 then Text(id) else MigratedValue(cols, oldRow, names[k], now)
  {
    var vs := Values(parts, Restrict(oldRow, cols), id, now);
    BindColumn(names, vs, k);
    assert vs[k] == Eval(parts[k], Restrict(oldRow, cols), id, now);
  }

  /** The restored row for an old row: the UUID as key, every other column copied or defaulted. */
  lemma RestoredRow(cols: seq<string>, oldRow: StoredRow, id: string, now: int)
    ensures var row := Bind(NEW_COLUMNS, Values(SelectList(cols), Restrict(oldRow, cols), id, now));
      && IdOf(row) == Text(id)
      && forall k :: 1 <= k < |NEW_COLUMNS| ==> Column(row, NEW_COLUMNS[k]) == MigratedValue(cols, oldRow, NEW_COLUMNS[k], now)
  {
    NewColumnsDistinct();
    RestoredColumn(cols, oldRow, id, now, 0);
    forall k | 1 <= k < |NEW_COLUMNS|
      ensures Column(Bind(NEW_COLUMNS, Values(SelectList(cols), Restrict(oldRow, cols), id, now)), NEW_COLUMNS[k])
        == MigratedValue(cols, oldRow, NEW_COLUMNS[k], now)
    {
      RestoredColumn(cols, oldRow, id, now, k);
    }
  }

  /** Tables other than `host_info` and its backup: `up` leaves them as they were. */
  ghost predicate OthersUnchanged(db: Tables, db2: Tables)
  {
    forall t :: t != HOST_INFO_NAME && t != BACKUP_NAME ==> (t in db2 <==> t in db) && (t in db ==> db2[t] == db[t])
  }

  /** When `up` succeeds, fails with which message, and what it leaves behind in each case. */
  lemma UpOutcome(db: Tables, draws: nat -> Draw, now: int)
    ensures var (r, db2) := UpEffect(db, draws, now);
      && OthersUnchanged(db, db2)
      && (r.Ok? <==>
            || HOST_INFO_NAME !in db
            || PRIMARY_KEY in db[HOST_INFO_NAME].columns
            || (db[HOST_INFO_NAME].columns != [] && Restore(SelectList(db[HOST_INFO_NAME].columns), BackupTable(db), draws, now).Some?))
      && (r.Ok? ==> HOST_INFO_NAME in db2 && PRIMARY_KEY in db2[HOST_INFO_NAME].columns)
      && (r.Err? && r.msg == BACKUP_FAILED ==> db2 == db)
      && (r.Err? && r.msg != BACKUP_FAILED ==>
            && r.msg == RESTORE_FAILED
            && HOST_INFO_NAME in db2 && db2[HOST_INFO_NAME] == SqlTable(NEW_COLUMNS, [])
            && BACKUP_NAME in db2 && db2[BACKUP_NAME] == BackupTable(db))
  {
    NewColumnsDistinct();
  }

  /** After a successful `up`, running it again changes nothing. */
  lemma UpIdempotent(db: Tables, draws: nat -> Draw, now: int, draws2: nat -> Draw, now2: int)
    ensures var (r, db2) := UpEffect(db, draws, now);
      r.Ok? ==> UpEffect(db2, draws2, now2) == (Ok(()), db2)
  {
    UpOutcome(db, draws, now);
  }

  /**
   * After a failed restore the new, empty table has `id`, so a second `up`
   * succeeds without touching anything: the old rows stay in the backup.
   */
  lemma RetryAfterFailedRestore(db: Tables, draws: nat -> Draw, now: int, draws2: nat -> Draw, now2: int)
    ensures var (r, db2) := UpEffect(db, draws, now);
      r == Err(RESTORE_FAILED) ==>
        && UpEffect(db2, draws2, now2) == (Ok(()), db2)
        && db2[HOST_INFO_NAME].rows == [] && BACKUP_NAME in db2
  {
    UpOutcome(db, draws, now);
    NewColumnsDistinct();
  }

  /** Every copied column of the select list is one of the old columns, so the backup has it. */
  lemma NoUnknownCopy(cols: seq<string>)
    ensures UnknownCopy(SelectList(cols), cols).None?
  {
    var parts := SelectList(cols);
    forall k | 0 <= k < |parts| && parts[k].Copy? ensures parts[k].column in cols {
      assert k > 0 && parts[k] == DefaultOr(cols, NEW_COLUMNS[k]);
    }
  }

  /**
   * Without a stale backup, a table lacking `id` is rebuilt row for row: the
   * same number of rows, row `i` keyed by the UUID of draw `i`, each other
   * column copied when the old table had it, else its default. It fails
   * exactly when a UUID fails or the rebuilt rows break a constraint.
   */
  lemma UpRebuildsRows(db: Tables, draws: nat -> Draw, now: int)
    requires HOST_INFO_NAME in db && BACKUP_NAME !in db
    requires PRIMARY_KEY !in db[HOST_INFO_NAME].columns && db[HOST_INFO_NAME].columns != []
    ensures var (r, db2) := UpEffect(db, draws, now);
      var cols := db[HOST_INFO_NAME].columns;
      var before := db[HOST_INFO_NAME].rows;
      && (r.Ok? <==>
            && (forall i :: 0 <= i < |before| ==> Uuid(draws(i)).Ok?)
            && Insertable(NewRows(SelectList(cols), BackupOf(db[HOST_INFO_NAME], cols).rows, draws, now).value))
      && (r.Ok? ==>
            && BACKUP_NAME !in db2 && HOST_INFO_NAME in db2
            && db2[HOST_INFO_NAME].columns == NEW_COLUMNS
            && |db2[HOST_INFO_NAME].rows| == |before|
            && forall i :: 0 <= i < |before| ==>
                 && IdOf(db2[HOST_INFO_NAME].rows[i]) == Text(Uuid(draws(i)).value)
                 && forall k :: 1 <= k < |NEW_COLUMNS| ==>
                      Column(db2[HOST_INFO_NAME].rows[i], NEW_COLUMNS[k]) == MigratedValue(cols, before[i], NEW_COLUMNS[k], now))
  {
    var cols := db[HOST_INFO_NAME].columns;
    var before := db[HOST_INFO_NAME].rows;
    var backup := BackupOf(db[HOST_INFO_NAME], cols);
    var parts := SelectList(cols);
    NoUnknownCopy(cols);
    assert BackupTable(db) == backup;
    var (r, db2) := UpEffect(db, draws, now);
    if r.Ok? {
      var rows := NewRows(parts, backup.rows, draws, now).value;
      assert db2[HOST_INFO_NAME].rows == rows;
      forall i | 0 <= i < |before|
        ensures IdOf(rows[i]) == Text(Uuid(draws(i)).value)
        ensures forall k :: 1 <= k < |NEW_COLUMNS| ==> Column(rows[i], NEW_COLUMNS[k]) == MigratedValue(cols, before[i], NEW_COLUMNS[k], now)
      {
        assert backup.rows[i] == Restrict(before[i], cols);
        RestoredRow(cols, before[i], Uuid(draws(i)).value, now);
      }
    }
  }

  /**
   * A backup left from an earlier run is what gets restored: the rebuilt
   * table holds its rows, and the rows the table had before are dropped.
   */
  lemma UpRestoresStaleBackup(db: Tables, draws: nat -> Draw, now: int)
    requires HOST_INFO_NAME in db && BACKUP_NAME in db
    requires PRIMARY_KEY !in db[HOST_INFO_NAME].columns && db[HOST_INFO_NAME].columns != []
    ensures var (r, db2) := UpEffect(db, draws, now);
      r.Ok? ==> |db2[HOST_INFO_NAME].rows| == |db[BACKUP_NAME].rows| && BACKUP_NAME !in db2
  {
  }
}
