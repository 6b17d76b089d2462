/**
 * The generated `host_info` table module: the `HostInfoRow` struct, its
 * `impl_table_auto!` field list, and the free functions that build rows from
 * `HostInfoRowData` and hand them to `DbTable`. The connection is the table
 * object passed in; the UUIDs and clock readings `DbTable` draws are
 * parameters.
 */
module HostInfoTable {
  import opened Wrappers
  import opened Strings
  import opened TableMacro
  import opened DbTable

  datatype HostInfoRow = HostInfoRow(
    id: string,
    hostname: Option<string>,
    lastProvisionedAt: Option<int>,
    dockerVersion: Option<string>,
    tailscaleInstalled: Option<int>,
    portainerInstalled: Option<int>,
    metadata: Option<string>,
    ip: Option<string>,
    tailscale: Option<string>,
    backupPath: Option<string>,
    hostnameField: Option<string>,
    createdAt: int,
    updatedAt: int)

  /** The data fields only: everything but the key and the two timestamps. */
  datatype HostInfoRowData = HostInfoRowData(
    hostname: Option<string>,
    lastProvisionedAt: Option<int>,
    dockerVersion: Option<string>,
    tailscaleInstalled: Option<int>,
    portainerInstalled: Option<int>,
    metadata: Option<string>,
    ip: Option<string>,
    tailscale: Option<string>,
    backupPath: Option<string>,
    hostnameField: Option<string>)

  /** The data fields of a row. */
  function DataOf(row: HostInfoRow): HostInfoRowData
  {
    HostInfoRowData(row.hostname, row.lastProvisionedAt, row.dockerVersion, row.tailscaleInstalled,
                    row.portainerInstalled, row.metadata, row.ip, row.tailscale, row.backupPath, row.hostnameField)
  }

  /** The row `insert_one` and `insert_many` build: empty key, zero timestamps, the data copied. */
  function NewRow(data: HostInfoRowData): (row: HostInfoRow)
    ensures row.id == "" && row.createdAt == 0 && row.updatedAt == 0
    ensures DataOf(row) == data
  {
    HostInfoRow("", data.hostname, data.lastProvisionedAt, data.dockerVersion, data.tailscaleInstalled,
                data.portainerInstalled, data.metadata, data.ip, data.tailscale, data.backupPath, data.hostnameField, 0, 0)
  }

  /** Values the Rust types can hold: `i64` and `i32` fields in range. */
  predicate DataInRange(data: HostInfoRowData)
  {
    && (data.lastProvisionedAt.Some? ==> I64_MIN <= data.lastProvisionedAt.value <= I64_MAX)
    && (data.tailscaleInstalled.Some? ==> I32_MIN <= data.tailscaleInstalled.value <= I32_MAX)
    && (data.portainerInstalled.Some? ==> I32_MIN <= data.portainerInstalled.value <= I32_MAX)
  }

  predicate InRange(row: HostInfoRow)
  {
    DataInRange(DataOf(row)) && I64_MIN <= row.createdAt <= I64_MAX && I64_MIN <= row.updatedAt <= I64_MAX
  }

  // ---------------------------------------------------------------------------
  // Columns

  const HOSTNAME := Field("hostname", TextKind, true)
  const LAST_PROVISIONED_AT := Field("last_provisioned_at", I64Kind, true)
  const DOCKER_VERSION := Field("docker_version", TextKind, true)
  const TAILSCALE_INSTALLED := Field("tailscale_installed", I32Kind, true)
  const PORTAINER_INSTALLED := Field("portainer_installed", I32Kind, true)
  const METADATA := Field("metadata", TextKind, true)
  const IP := Field("ip", TextKind, true)
  const TAILSCALE := Field("tailscale", TextKind, true)
  const BACKUP_PATH := Field("backup_path", TextKind, true)
  const HOSTNAME_FIELD := Field("hostname_field", TextKind, true)

  /** The `impl_table_auto!` field list as written: `hostname_field` last. */
  const HOST_INFO_AS_WRITTEN := TableSpec("host_info",
    [HOSTNAME, LAST_PROVISIONED_AT, DOCKER_VERSION, TAILSCALE_INSTALLED, PORTAINER_INSTALLED, METADATA,
     IP, TAILSCALE, BACKUP_PATH, HOSTNAME_FIELD])

  /** The field list in the order the migrations create the columns: `hostname_field` after `ip`. */
  const HOST_INFO := TableSpec("host_info",
    [HOSTNAME, LAST_PROVISIONED_AT, DOCKER_VERSION, TAILSCALE_INSTALLED, PORTAINER_INSTALLED, METADATA,
     IP, HOSTNAME_FIELD, TAILSCALE, BACKUP_PATH])

  /** The columns of `host_info` as the migrations leave them, in `SELECT *` order. */
  const MIGRATION_LAYOUT: seq<string> :=
    ["id", "hostname", "last_provisioned_at", "docker_version", "tailscale_installed", "portainer_installed",
     "metadata", "ip", "hostname_field", "tailscale", "backup_path", "created_at", "updated_at"]

  function TextValue(o: Option<string>): SqlValue
  {
    if o.Some? then Text(o.value) else Null
  }

  function IntValue(o: Option<int>): SqlValue
  {
    if o.Some? then Integer(o.value) else Null
  }

  function AsText(v: SqlValue): Option<string>
  {
    if v.Text? then Some(v.s) else None
  }

  function AsInt(v: SqlValue): Option<int>
  {
    if v.Integer? then Some(v.i) else None
  }

  /** Value `i` of a record, NULL past its end. */
  function ValueAt(r: Record, i: nat): SqlValue
  {
    if i < |r.values| then r.values[i] else Null
  }

  /** The struct as the table layer sees it, the data in the order of `HOST_INFO`. */
  function ToRecord(row: HostInfoRow): Record
  {
    Record(row.id,
      [TextValue(row.hostname), IntValue(row.lastProvisionedAt), TextValue(row.dockerVersion),
       IntValue(row.tailscaleInstalled), IntValue(row.portainerInstalled), TextValue(row.metadata),
       TextValue(row.ip), TextValue(row.hostnameField), TextValue(row.tailscale), TextValue(row.backupPath)],
      row.createdAt, row.updatedAt)
  }

  function OfRecord(r: Record): HostInfoRow
  {
    HostInfoRow(r.id, AsText(ValueAt(r, 0)), AsInt(ValueAt(r, 1)), AsText(ValueAt(r, 2)), AsInt(ValueAt(r, 3)),
      AsInt(ValueAt(r, 4)), AsText(ValueAt(r, 5)), AsText(ValueAt(r, 6)), AsText(ValueAt(r, 8)),
      AsText(ValueAt(r, 9)), AsText(ValueAt(r, 7)), r.createdAt, r.updatedAt)
  }

  /** The same struct in the order of the field list as written. */
  function ToRecordAsWritten(row: HostInfoRow): Record
  {
    Record(row.id,
      [TextValue(row.hostname), IntValue(row.lastProvisionedAt), TextValue(row.dockerVersion),
       IntValue(row.tailscaleInstalled), IntValue(row.portainerInstalled), TextValue(row.metadata),
       TextValue(row.ip), TextValue(row.tailscale), TextValue(row.backupPath), TextValue(row.hostnameField)],
      row.createdAt, row.updatedAt)
  }

  function OfRecordAsWritten(r: Record): HostInfoRow
  {
    HostInfoRow(r.id, AsText(ValueAt(r, 0)), AsInt(ValueAt(r, 1)), AsText(ValueAt(r, 2)), AsInt(ValueAt(r, 3)),
      AsInt(ValueAt(r, 4)), AsText(ValueAt(r, 5)), AsText(ValueAt(r, 6)), AsText(ValueAt(r, 7)),
      AsText(ValueAt(r, 8)), AsText(ValueAt(r, 9)), r.createdAt, r.updatedAt)
  }

  /** Reading a value back where the column type is text or integer restores it. */
  lemma ValueBack(v: SqlValue, f: Field)
    requires Fits(v, f)
    ensures f.kind == TextKind ==> TextValue(AsText(v)) == v
    ensures f.kind != TextKind ==> IntValue(AsInt(v)) == v
  {
  }

  /** Whether an optional integer fits a nullable integer column. */
  lemma IntValueFits(o: Option<int>, f: Field)
    requires f.nullable && f.kind != TextKind
    ensures Fits(IntValue(o), f) <==> (o.Some? ==> if f.kind == I64Kind then I64_MIN <= o.value <= I64_MAX else I32_MIN <= o.value <= I32_MAX)
  {
  }

  /** The struct is recovered from its record, in either field order. */
  lemma RecordInverse(row: HostInfoRow)
    ensures OfRecord(ToRecord(row)) == row && OfRecordAsWritten(ToRecordAsWritten(row)) == row
  {
    var r := ToRecord(row);
    var w := ToRecordAsWritten(row);
    assert ValueAt(r, 7) == TextValue(row.hostnameField) && ValueAt(r, 8) == TextValue(row.tailscale);
    assert ValueAt(w, 7) == TextValue(row.tailscale) && ValueAt(w, 9) == TextValue(row.hostnameField);
  }

  /** The record of a struct fits the table exactly when the struct's integers are in range. */
  lemma RecordFits(row: HostInfoRow)
    ensures WellFormed(HOST_INFO, ToRecord(row)) <==> InRange(row)
  {
    var r := ToRecord(row);
    var fs := HOST_INFO.fields;
    IntValueFits(row.lastProvisionedAt, fs[1]);
    IntValueFits(row.tailscaleInstalled, fs[3]);
    IntValueFits(row.portainerInstalled, fs[4]);
    if InRange(row) {
      forall i | 0 <= i < |r.values| ensures Fits(r.values[i], fs[i]) {
        if i != 1 && i != 3 && i != 4 {
          assert fs[i].kind == TextKind && fs[i].nullable;
        }
      }
    }
  }

  lemma RecordFitsAsWritten(row: HostInfoRow)
    ensures WellFormed(HOST_INFO_AS_WRITTEN, ToRecordAsWritten(row)) <==> InRange(row)
  {
    var r := ToRecordAsWritten(row);
    var fs := HOST_INFO_AS_WRITTEN.fields;
    IntValueFits(row.lastProvisionedAt, fs[1]);
    IntValueFits(row.tailscaleInstalled, fs[3]);
    IntValueFits(row.portainerInstalled, fs[4]);
    if InRange(row) {
      forall i | 0 <= i < |r.values| ensures Fits(r.values[i], fs[i]) {
        if i != 1 && i != 3 && i != 4 {
          assert fs[i].kind == TextKind && fs[i].nullable;
        }
      }
    }
  }

  /** Every record that fits the table is the record of a struct. */
  lemma RecordsAreRows(r: Record)
    requires WellFormed(HOST_INFO, r)
    ensures ToRecord(OfRecord(r)) == r
  {
    var fs := HOST_INFO.fields;
    var v := r.values;
    assert |v| == 10;
    ValueBack(v[0], fs[0]); ValueBack(v[1], fs[1]); ValueBack(v[2], fs[2]); ValueBack(v[3], fs[3]);
    ValueBack(v[4], fs[4]); ValueBack(v[5], fs[5]); ValueBack(v[6], fs[6]); ValueBack(v[7], fs[7]);
    ValueBack(v[8], fs[8]); ValueBack(v[9], fs[9]);
    assert v == [v[0], v[1], v[2], v[3], v[4], v[5], v[6], v[7], v[8], v[9]];
  }

  /** With the corrected field list the struct's columns are exactly the migrated table's, without repeats. */
  lemma HostInfoAligned()
    ensures Aligned(HOST_INFO, MIGRATION_LAYOUT)
  {
    assert AllColumns(HOST_INFO) == MIGRATION_LAYOUT;
    forall i, j | 0 <= i < j < |MIGRATION_LAYOUT| ensures MIGRATION_LAYOUT[i] != MIGRATION_LAYOUT[j] {
      LayoutNamesDiffer(i, j);
    }
  }

  /** The migrated column names are told apart by their length and first letters. */
  lemma LayoutNamesDiffer(i: nat, j: nat)
    requires i < j < |MIGRATION_LAYOUT|
    ensures MIGRATION_LAYOUT[i] != MIGRATION_LAYOUT[j]
  {
    var a, b := MIGRATION_LAYOUT[i], MIGRATION_LAYOUT[j];
    if |a| == |b| {
      assert a[0] != b[0] || a[1] != b[1] || a[|a| - 1] != b[|b| - 1];
    }
  }

  // ---------------------------------------------------------------------------
  // Reading back what was stored

  /** The struct as the field list as written reads it: the last three text fields rotated. */
  function RotatedAsWritten(row: HostInfoRow): HostInfoRow
  {
    row.(tailscale := row.hostnameField, backupPath := row.tailscale, hostnameField := row.backupPath)
  }

  /** Column `i` of the layout, stored as column `j` of a list of distinct names, holds parameter `j`. */
  lemma ProjectBound(layout: seq<string>, cols: seq<string>, vals: seq<SqlValue>, i: nat, j: nat)
    requires NoDuplicates(cols) && |cols| <= |vals| && i < |layout| && j < |cols| && layout[i] == cols[j]
    ensures Project(layout, Bind(cols, vals))[i] == vals[j]
  {
    BindAt(cols, vals);
  }

  /** Stored by the field list as written, the migrated table's column `i` holds parameter `Source(i)`. */
  function AsWrittenSource(i: nat): nat
  {
    if i == 8 then 10 else if i == 9 then 8 else if i == 10 then 9 else i
  }

  lemma StoredColumnAsWritten(vals: seq<SqlValue>, i: nat)
    requires |vals| == 13 && i < 13
    ensures Project(MIGRATION_LAYOUT, Bind(AllColumns(HOST_INFO_AS_WRITTEN), vals))[i] == vals[AsWrittenSource(i)]
  {
    AsWrittenColumns();
    ProjectBound(MIGRATION_LAYOUT, AllColumns(HOST_INFO_AS_WRITTEN), vals, i, AsWrittenSource(i));
  }

  /** The row a struct is stored as: each column holds its own field's value, whatever the field order. */
  lemma StoredAsWritten(row: HostInfoRow)
    ensures var b := Bind(AllColumns(HOST_INFO_AS_WRITTEN), RowOf(ToRecordAsWritten(row)));
      Project(MIGRATION_LAYOUT, b) == RowOf(ToRecord(row))
  {
    var vals := RowOf(ToRecordAsWritten(row));
    var p := Project(MIGRATION_LAYOUT, Bind(AllColumns(HOST_INFO_AS_WRITTEN), vals));
    var q := RowOf(ToRecord(row));
    forall i | 0 <= i < 13 ensures p[i] == q[i] {
      StoredColumnAsWritten(vals, i);
    }
  }

  /** The columns of the field list as written, in order. */
  const AS_WRITTEN_LAYOUT: seq<string> :=
    ["id", "hostname", "last_provisioned_at", "docker_version", "tailscale_installed", "portainer_installed",
     "metadata", "ip", "tailscale", "backup_path", "hostname_field", "created_at", "updated_at"]

  /** The columns of the field list as written: the migrated ones with `hostname_field` moved after `backup_path`. */
  lemma AsWrittenColumns()
    ensures AllColumns(HOST_INFO_AS_WRITTEN) == ["id", "hostname", "last_provisioned_at", "docker_version", "tailscale_installed",
      "portainer_installed", "metadata", "ip", "tailscale", "backup_path", "hostname_field", "created_at", "updated_at"]
    ensures NoDuplicates(AllColumns(HOST_INFO_AS_WRITTEN))
  {
    assert AllColumns(HOST_INFO_AS_WRITTEN) == AS_WRITTEN_LAYOUT;
    forall i, j | 0 <= i < j < |AS_WRITTEN_LAYOUT| ensures AS_WRITTEN_LAYOUT[i] != AS_WRITTEN_LAYOUT[j] {
      AsWrittenNamesDiffer(i, j);
    }
  }

  /** The column names of the field list as written are told apart by their length and first letters. */
  lemma AsWrittenNamesDiffer(i: nat, j: nat)
    requires i < j < |AS_WRITTEN_LAYOUT|
    ensures AS_WRITTEN_LAYOUT[i] != AS_WRITTEN_LAYOUT[j]
  {
    var a, b := AS_WRITTEN_LAYOUT[i], AS_WRITTEN_LAYOUT[j];
    if |a| == |b| {
      assert a[0] != b[0] || a[1] != b[1] || a[|a| - 1] != b[|b| - 1];
    }
  }

  /** What `select_one` yields for a struct stored in the migrated table, read with the field list as written. */
  function ReadBackAsWritten(row: HostInfoRow): Result<HostInfoRow>
  {
    var stored := Bind(AllColumns(HOST_INFO_AS_WRITTEN), RowOf(ToRecordAsWritten(row)));
    match FromRow(HOST_INFO_AS_WRITTEN, Project(MIGRATION_LAYOUT, stored))
    case Err(m) => Err(m)
    case Ok(r) => Ok(OfRecordAsWritten(r))
  }

  /** The same with the corrected field list. */
  function ReadBack(row: HostInfoRow): Result<HostInfoRow>
  {
    var stored := Bind(AllColumns(HOST_INFO), RowOf(ToRecord(row)));
    match FromRow(HOST_INFO, Project(MIGRATION_LAYOUT, stored))
    case Err(m) => Err(m)
    case Ok(r) => Ok(OfRecord(r))
  }

  /**
   * As written, a struct written to the migrated table and read back by
   * position comes back with `tailscale` holding the `hostname_field` value,
   * `backup_path` the `tailscale` value and `hostname_field` the
   * `backup_path` value. All three are text, so the read succeeds.
   */
  lemma AsWrittenReadRotates(row: HostInfoRow)
    requires InRange(row)
    ensures FromRow(HOST_INFO_AS_WRITTEN, Project(MIGRATION_LAYOUT, Bind(AllColumns(HOST_INFO_AS_WRITTEN), RowOf(ToRecordAsWritten(row)))))
      == Ok(ToRecordAsWritten(RotatedAsWritten(row)))
  {
    StoredAsWritten(row);
    RecordFits(row);
    RecordFitsAsWritten(RotatedAsWritten(row));
    var q := RowOf(ToRecord(row));
    assert q == RowOf(ToRecordAsWritten(RotatedAsWritten(row)));
    RowRoundTrip(HOST_INFO_AS_WRITTEN, ToRecordAsWritten(RotatedAsWritten(row)));
  }

  /** So the round trip fails whenever `tailscale` and `hostname_field` differ. */
  lemma AsWrittenRoundTripFails(row: HostInfoRow)
    requires InRange(row)
    ensures ReadBackAsWritten(row) == Ok(RotatedAsWritten(row))
    ensures ReadBackAsWritten(row) == Ok(row) <==> row.tailscale == row.hostnameField == row.backupPath
  {
    AsWrittenReadRotates(row);
    RecordInverse(RotatedAsWritten(row));
  }

  /** A host with only a Tailscale name: it reads back with no Tailscale name at all. */
  lemma AsWrittenExample()
    ensures var r := ReadBackAsWritten(HostInfoRow("k", Some("h"), None, None, None, None, None, None, Some("h.ts.net"), None, None, 1, 1));
      r.Ok? && r.value.tailscale == None
  {
    var row := HostInfoRow("k", Some("h"), None, None, None, None, None, None, Some("h.ts.net"), None, None, 1, 1);
    assert InRange(row);
    AsWrittenRoundTripFails(row);
  }

  /** Corrected: with the migrated column order every struct in range reads back as itself. */
  lemma ReadRoundTrip(row: HostInfoRow)
    requires InRange(row)
    ensures ReadBack(row) == Ok(row)
  {
    HostInfoAligned();
    RecordFits(row);
    StoredRoundTrip(HOST_INFO, MIGRATION_LAYOUT, ToRecord(row));
    RecordInverse(row);
  }

  // ---------------------------------------------------------------------------
  // The generated functions, over the corrected field list

  /** `insert_one`: the new row goes through `DbTable::insert`, which draws the key and the time. */
  method InsertOne(db: SqliteTable, data: HostInfoRowData, newId: string, now: int) returns (r: Result<string>)
    modifies db
    ensures db.layout == old(db.layout)
    ensures (r, db.State()) == InsertEffect(HOST_INFO, old(db.State()), ToRecord(NewRow(data)), newId, now)
  {
    r := Insert(HOST_INFO, db, ToRecord(NewRow(data)), newId, now);
  }

  /**
   * The constraints the migrations declare on `host_info`: the columns in
   * migration order, `hostname` NOT NULL and UNIQUE, both timestamps NOT NULL.
   */
  predicate Migrated(s: TableState)
  {
    s.layout == MIGRATION_LAYOUT && s.notNull == {"hostname", "created_at", "updated_at"} && s.unique == {"hostname"}
  }

  /** The column list of migration 004's `CREATE TABLE host_info`, in order. */
  const MIGRATION_DEFS: seq<ColumnDef> := [
    KEY_DEF, ColumnDef("hostname", "TEXT NOT NULL UNIQUE"), ColumnDef("last_provisioned_at", "INTEGER"),
    ColumnDef("docker_version", "TEXT"), ColumnDef("tailscale_installed", "INTEGER"),
    ColumnDef("portainer_installed", "INTEGER"), ColumnDef("metadata", "TEXT"), ColumnDef("ip", "TEXT"),
    ColumnDef("hostname_field", "TEXT"), ColumnDef("tailscale", "TEXT"), ColumnDef("backup_path", "TEXT"),
    CREATED_DEF, UPDATED_DEF]

  /** The declarations give exactly the layout and the constraints `Migrated` names. */
  lemma MigrationConstraints()
    ensures LayoutOf(MIGRATION_DEFS) == MIGRATION_LAYOUT
    ensures Declaring(MIGRATION_DEFS, "NOT NULL") == {"hostname", "created_at", "updated_at"}
    ensures Declaring(MIGRATION_DEFS, "UNIQUE") == {"hostname"}
  {
    assert LayoutOf(MIGRATION_DEFS) == MIGRATION_LAYOUT;
    MigrationNotNull();
    MigrationUnique();
  }

  lemma MigrationNotNull()
    ensures Declaring(MIGRATION_DEFS, "NOT NULL") == {"hostname", "created_at", "updated_at"}
  {
    var defs := MIGRATION_DEFS;
    var nn := Declaring(defs, "NOT NULL");
    forall c ensures c in nn <==> c in {"hostname", "created_at", "updated_at"} {
      if c in nn {
        var i :| 0 <= i < |defs| && defs[i].name == c && Contains(ToUpper(defs[i].decl), "NOT NULL");
        DeclaredConstraints(i);
      }
      DeclaredConstraints(1);
      DeclaredConstraints(11);
      DeclaredConstraints(12);
    }
  }

  lemma MigrationUnique()
    ensures Declaring(MIGRATION_DEFS, "UNIQUE") == {"hostname"}
  {
    var defs := MIGRATION_DEFS;
    var uq := Declaring(defs, "UNIQUE");
    forall c ensures c in uq <==> c == "hostname" {
      if c in uq {
        var i :| 0 <= i < |defs| && defs[i].name == c && Contains(ToUpper(defs[i].decl), "UNIQUE");
        DeclaredConstraints(i);
      }
      DeclaredConstraints(1);
    }
  }

  /** Which of the declarations carry `NOT NULL` and `UNIQUE`. */
  lemma DeclaredConstraints(i: nat)
    requires i < |MIGRATION_DEFS|
    ensures var d := MIGRATION_DEFS[i].decl;
      && (Contains(ToUpper(d), "NOT NULL") <==> i == 1 || i == 11 || i == 12)
      && (Contains(ToUpper(d), "UNIQUE") <==> i == 1)
  {
    var d := MIGRATION_DEFS[i].decl;
    if i == 1 {
      HostnameDecl();
    } else if i == 11 || i == 12 {
      TimestampDecl();
    } else {
      PlainDecl(d);
    }
  }

  lemma HostnameDecl()
    ensures Contains(ToUpper("TEXT NOT NULL UNIQUE"), "NOT NULL") && Contains(ToUpper("TEXT NOT NULL UNIQUE"), "UNIQUE")
  {
    assert ToUpper("TEXT NOT NULL UNIQUE") == "TEXT " + "NOT NULL" + " UNIQUE";
    ContainsMiddle("TEXT ", "NOT NULL", " UNIQUE");
    assert ToUpper("TEXT NOT NULL UNIQUE") == "TEXT NOT NULL " + "UNIQUE" + "";
    ContainsMiddle("TEXT NOT NULL ", "UNIQUE", "");
  }

  lemma TimestampDecl()
    ensures Contains(ToUpper("INTEGER NOT NULL"), "NOT NULL") && !Contains(ToUpper("INTEGER NOT NULL"), "UNIQUE")
  {
    assert ToUpper("INTEGER NOT NULL") == "INTEGER " + "NOT NULL" + "";
    ContainsMiddle("INTEGER ", "NOT NULL", "");
    MissingCharNotContained(ToUpper("INTEGER NOT NULL"), "UNIQUE", 'Q');
  }

  lemma PlainDecl(d: string)
    requires d == "TEXT PRIMARY KEY" || d == "INTEGER" || d == "TEXT"
    ensures !Contains(ToUpper(d), "NOT NULL") && !Contains(ToUpper(d), "UNIQUE")
  {
    assert ToUpper(d) == d;
    MissingCharNotContained(d, "NOT NULL", 'L');
    MissingCharNotContained(d, "UNIQUE", 'Q');
  }

  /** Some row holds the host name. */
  predicate HostnameTaken(rows: seq<StoredRow>, hostname: string)
  {
    exists i :: 0 <= i < |rows| && Column(rows[i], "hostname") == Text(hostname)
  }

  /** The row `insert_one` stores holds the data's host name and two integer timestamps. */
  lemma InsertedColumns(data: HostInfoRowData, id: string, now: int)
    ensures var row := Bind(AllColumns(HOST_INFO), InsertParams(ToRecord(NewRow(data)), id, now, now));
      && Column(row, "hostname") == TextValue(data.hostname)
      && Column(row, "created_at") == Integer(now) && Column(row, "updated_at") == Integer(now)
  {
    HostInfoAligned();
    var cols := AllColumns(HOST_INFO);
    var params := InsertParams(ToRecord(NewRow(data)), id, now, now);
    assert cols[1] == "hostname" && cols[11] == "created_at" && cols[12] == "updated_at";
    assert params[1] == TextValue(data.hostname) && params[11] == Integer(now) && params[12] == Integer(now);
    BindColumn(cols, params, 1);
    BindColumn(cols, params, 11);
    BindColumn(cols, params, 12);
  }

  /** On the migrated table the column checks of an insert come down to the host name: set, and held by no row. */
  lemma MigratedInsertChecks(s: TableState, row: StoredRow, hostname: Option<string>, now: int)
    requires Migrated(s)
    requires Column(row, "hostname") == TextValue(hostname)
    requires Column(row, "created_at") == Integer(now) && Column(row, "updated_at") == Integer(now)
    ensures (forall c :: c in s.layout && c in s.notNull ==> Column(row, c) != Null) <==> hostname.Some?
    ensures hostname.Some? ==>
      ((forall c :: c in s.layout && c in s.unique ==> !Taken(s.rows, row, c)) <==> !HostnameTaken(s.rows, hostname.value))
  {
    assert MIGRATION_LAYOUT[1] == "hostname" && MIGRATION_LAYOUT[11] == "created_at" && MIGRATION_LAYOUT[12] == "updated_at";
  }

  /**
   * On the migrated table an insert of data in range is refused exactly when
   * the data has no host name, the key is already present, or a row already
   * holds the host name, and a refused insert changes nothing; otherwise the
   * row reads back as the data under the new key with both timestamps `now`.
   */
  lemma InsertOneMeaning(s: TableState, data: HostInfoRowData, newId: string, now: int)
    requires Migrated(s) && DataInRange(data) && I64_MIN <= now <= I64_MAX
    ensures var (r, s1) := InsertEffect(HOST_INFO, s, ToRecord(NewRow(data)), newId, now);
      && (r.Ok? <==> data.hostname.Some? && !HasId(s.rows, newId) && !HostnameTaken(s.rows, data.hostname.value))
      && (r.Err? ==> s1 == s)
      && Migrated(s1)
      && (r.Ok? ==>
            && r.value == newId && |s1.rows| == |s.rows| + 1 && s1.rows[..|s.rows|] == s.rows
            && IdOf(s1.rows[|s.rows|]) == Text(newId) && Column(s1.rows[|s.rows|], "hostname") == Text(data.hostname.value)
            && Select(HOST_INFO, s1, newId) == Ok(Some(ToRecord(NewRow(data).(id := newId, createdAt := now, updatedAt := now)))))
  {
    HostInfoAligned();
    RecordFits(NewRow(data));
    InsertMeaning(HOST_INFO, s, ToRecord(NewRow(data)), newId, now);
    InsertedRowReads(HOST_INFO, s.layout, ToRecord(NewRow(data)), newId, now, now);
    InsertedColumns(data, newId, now);
    MigratedInsertChecks(s, Bind(AllColumns(HOST_INFO), InsertParams(ToRecord(NewRow(data)), newId, now, now)), data.hostname, now);
  }

  /** `insert_many`, one insert at a time with keys `ids` and times `nows`; `done` holds the keys so far. */
  function InsertAllFrom(s: TableState, datas: seq<HostInfoRowData>, ids: seq<string>, nows: seq<int>, done: seq<string>)
    : (Result<seq<string>>, TableState)
    requires |ids| == |datas| == |nows|
    decreases |datas|
  {
    if datas == [] then (Ok(done), s)
    else
      var (r, s1) := InsertEffect(HOST_INFO, s, ToRecord(NewRow(datas[0])), ids[0], nows[0]);
      if r.Err? then (Err(r.msg), s1)
      else InsertAllFrom(s1, datas[1..], ids[1..], nows[1..], done + [r.value])
  }

  method InsertMany(db: SqliteTable, datas: seq<HostInfoRowData>, ids: seq<string>, nows: seq<int>) returns (r: Result<seq<string>>)
    requires |ids| == |datas| == |nows|
    modifies db
    ensures (r, db.State()) == InsertAllFrom(old(db.State()), datas, ids, nows, [])
  {
    var done: seq<string> := [];
    for i := 0 to |datas|
      invariant InsertAllFrom(db.State(), datas[i..], ids[i..], nows[i..], done) == InsertAllFrom(old(db.State()), datas, ids, nows, [])
    {
      assert datas[i..][1..] == datas[i + 1..] && ids[i..][1..] == ids[i + 1..] && nows[i..][1..] == nows[i + 1..];
      var id := InsertOne(db, datas[i], ids[i], nows[i]);
      if id.Err? {
        return Err(id.msg);
      }
      done := done + [id.value];
    }
    r := Ok(done);
  }

  /**
   * What `insert_many` promises: on success one key per input, in input
   * order, and one new row per input; on failure it stopped early, so fewer
   * rows than inputs were added, and each earlier insert is kept. Rows
   * already there are never touched.
   */
  lemma {:induction false} InsertManyMeaning(s: TableState, datas: seq<HostInfoRowData>, ids: seq<string>, nows: seq<int>, done: seq<string>)
    requires |ids| == |datas| == |nows|
    ensures var (r, s1) := InsertAllFrom(s, datas, ids, nows, done);
      && s1.layout == s.layout && |s.rows| <= |s1.rows| && s1.rows[..|s.rows|] == s.rows
      && (r.Ok? ==> r.value == done + ids && |s1.rows| == |s.rows| + |datas|)
      && (r.Err? ==> |s1.rows| < |s.rows| + |datas|)
    decreases |datas|
  {
    if datas != [] {
      var (r0, s0) := InsertEffect(HOST_INFO, s, ToRecord(NewRow(datas[0])), ids[0], nows[0]);
      if r0.Ok? {
        assert s0.rows[..|s.rows|] == s.rows;
        InsertManyMeaning(s0, datas[1..], ids[1..], nows[1..], done + [r0.value]);
        var s1 := InsertAllFrom(s, datas, ids, nows, done).1;
        assert s1.rows[..|s.rows|] == s1.rows[..|s0.rows|][..|s.rows|];
        assert ids == [ids[0]] + ids[1..];
      }
    }
  }

  /** Every host name is set, none is held by a row yet, and no two are equal. */
  predicate HostnamesInsertable(rows: seq<StoredRow>, datas: seq<HostInfoRowData>)
  {
    && (forall i :: 0 <= i < |datas| ==> datas[i].hostname.Some? && !HostnameTaken(rows, datas[i].hostname.value))
    && (forall i, j :: 0 <= i < j < |datas| ==> datas[i].hostname != datas[j].hostname)
  }

  /**
   * With keys no row has and no key repeated, on the migrated table
   * `insert_many` succeeds, returning the keys in order, exactly when the
   * host names are all set, new and distinct.
   */
  lemma {:induction false} InsertManyFreshIds(s: TableState, datas: seq<HostInfoRowData>, ids: seq<string>, nows: seq<int>, done: seq<string>)
    requires |ids| == |datas| == |nows| && Migrated(s)
    requires NoDuplicates(ids) && forall i :: 0 <= i < |ids| ==> !HasId(s.rows, ids[i])
    requires forall i :: 0 <= i < |datas| ==> DataInRange(datas[i]) && I64_MIN <= nows[i] <= I64_MAX
    ensures var r := InsertAllFrom(s, datas, ids, nows, done).0;
      && (r.Ok? <==> HostnamesInsertable(s.rows, datas))
      && (r.Ok? ==> r.value == done + ids)
    decreases |datas|
  {
    if datas != [] {
      var ok, s0 := FirstInsert(s, datas, ids, nows, done);
      if ok {
        TailNoDuplicates(ids);
        assert forall i :: 0 <= i < |datas[1..]| ==> datas[1..][i] == datas[i + 1] && nows[1..][i] == nows[i + 1];
        InsertManyFreshIds(s0, datas[1..], ids[1..], nows[1..], done + [ids[0]]);
        KeysInOrder(done, ids);
        InsertableAfterFirst(s.rows, s0.rows, datas);
      }
    } else {
      assert done + ids == done;
    }
  }

  /**
   * The first insert of `insert_many` on the migrated table with fresh keys:
   * it succeeds exactly when its host name is set and new, and then the run
   * goes on from the new table with the remaining keys still absent and the
   * host name stored; otherwise the run stops at its error.
   */
  lemma FirstInsert(s: TableState, datas: seq<HostInfoRowData>, ids: seq<string>, nows: seq<int>, done: seq<string>)
    returns (ok: bool, s0: TableState)
    requires |ids| == |datas| == |nows| > 0 && Migrated(s) && DataInRange(datas[0]) && I64_MIN <= nows[0] <= I64_MAX
    requires NoDuplicates(ids) && forall i :: 0 <= i < |ids| ==> !HasId(s.rows, ids[i])
    ensures Migrated(s0)
    ensures ok <==> datas[0].hostname.Some? && !HostnameTaken(s.rows, datas[0].hostname.value)
    ensures !ok ==> InsertAllFrom(s, datas, ids, nows, done).0.Err?
    ensures ok ==> InsertAllFrom(s, datas, ids, nows, done) == InsertAllFrom(s0, datas[1..], ids[1..], nows[1..], done + [ids[0]])
    ensures ok ==> forall i :: 0 <= i < |ids[1..]| ==> !HasId(s0.rows, ids[1..][i])
    ensures ok ==> forall h :: HostnameTaken(s0.rows, h) <==> HostnameTaken(s.rows, h) || h == datas[0].hostname.value
  {
    var e := InsertEffect(HOST_INFO, s, ToRecord(NewRow(datas[0])), ids[0], nows[0]);
    InsertAllStep(s, datas, ids, nows, done);
    FreshAfterFirst(s, datas[0], ids, nows[0]);
    ok, s0 := e.0.Ok?, e.1;
  }

  /** `insert_many` runs the first insert, then stops at its error or goes on with the rest. */
  lemma InsertAllStep(s: TableState, datas: seq<HostInfoRowData>, ids: seq<string>, nows: seq<int>, done: seq<string>)
    requires |ids| == |datas| == |nows| && datas != []
    ensures var e := InsertEffect(HOST_INFO, s, ToRecord(NewRow(datas[0])), ids[0], nows[0]);
      InsertAllFrom(s, datas, ids, nows, done)
        == if e.0.Err? then (Err(e.0.msg), e.1) else InsertAllFrom(e.1, datas[1..], ids[1..], nows[1..], done + [e.0.value])
  {
  }

  /**
   * Once the first host name is stored, the rest can all be inserted exactly
   * when the whole list could.
   */
  lemma InsertableAfterFirst(rows: seq<StoredRow>, rows0: seq<StoredRow>, datas: seq<HostInfoRowData>)
    requires |datas| > 0 && datas[0].hostname.Some? && !HostnameTaken(rows, datas[0].hostname.value)
    requires forall h :: HostnameTaken(rows0, h) <==> HostnameTaken(rows, h) || h == datas[0].hostname.value
    ensures HostnamesInsertable(rows0, datas[1..]) <==> HostnamesInsertable(rows, datas)
  {
    var tail := datas[1..];
    assert forall i :: 0 <= i < |tail| ==> tail[i] == datas[i + 1];
    if HostnamesInsertable(rows, datas) {
      forall i | 0 <= i < |tail| ensures tail[i].hostname.Some? && !HostnameTaken(rows0, tail[i].hostname.value) {
        assert datas[0].hostname != datas[i + 1].hostname;
      }
    }
    if HostnamesInsertable(rows0, tail) {
      forall i | 0 <= i < |datas| ensures datas[i].hostname.Some? && !HostnameTaken(rows, datas[i].hostname.value) {
        if i > 0 {
          assert datas[i] == tail[i - 1];
        }
      }
      forall i, j | 0 <= i < j < |datas| ensures datas[i].hostname != datas[j].hostname {
        assert datas[j] == tail[j - 1];
        if i > 0 {
          assert datas[i] == tail[i - 1];
        }
      }
    }
  }

  /**
   * The first insert of `insert_many` succeeds exactly when its host name is
   * set and new; then the remaining keys are still absent and the stored host
   * names are the earlier ones and this one.
   */
  lemma FreshAfterFirst(s: TableState, data: HostInfoRowData, ids: seq<string>, now: int)
    requires Migrated(s) && DataInRange(data) && I64_MIN <= now <= I64_MAX
    requires |ids| > 0 && NoDuplicates(ids) && forall i :: 0 <= i < |ids| ==> !HasId(s.rows, ids[i])
    ensures var (r, s0) := InsertEffect(HOST_INFO, s, ToRecord(NewRow(data)), ids[0], now);
      && Migrated(s0)
      && (r.Ok? <==> data.hostname.Some? && !HostnameTaken(s.rows, data.hostname.value))
      && (r.Ok? ==>
            && r == Ok(ids[0])
            && (forall i :: 0 <= i < |ids[1..]| ==> !HasId(s0.rows, ids[1..][i]))
            && (forall h :: HostnameTaken(s0.rows, h) <==> HostnameTaken(s.rows, h) || h == data.hostname.value))
  {
    InsertOneMeaning(s, data, ids[0], now);
    var e := InsertEffect(HOST_INFO, s, ToRecord(NewRow(data)), ids[0], now);
    if e.0.Ok? {
      var s0 := e.1;
      forall i | 0 <= i < |ids[1..]| ensures !HasId(s0.rows, ids[1..][i]) {
        assert ids[1..][i] == ids[i + 1] != ids[0];
        NewKeyOnlyInLastRow(s, s0, ids[0], ids[i + 1]);
      }
      LastAppended(s.rows, s0.rows);
      HostnamesAfterAppend(s.rows, s0.rows[|s.rows|], data.hostname.value);
    }
  }

  /** A sequence one longer than `a` that starts with `a` is `a` followed by its last element. */
  lemma LastAppended<T>(a: seq<T>, b: seq<T>)
    requires |b| == |a| + 1 && b[..|a|] == a
    ensures b == a + [b[|a|]]
  {
    assert b == b[..|a|] + [b[|a|]];
  }

  /** Appending a row with host name `h0` adds `h0` to the stored host names and nothing else. */
  lemma HostnamesAfterAppend(rows: seq<StoredRow>, row: StoredRow, h0: string)
    requires Column(row, "hostname") == Text(h0)
    ensures forall h :: HostnameTaken(rows + [row], h) <==> HostnameTaken(rows, h) || h == h0
  {
    var rows0 := rows + [row];
    forall h ensures HostnameTaken(rows0, h) <==> HostnameTaken(rows, h) || h == h0 {
      if HostnameTaken(rows, h) {
        var i :| 0 <= i < |rows| && Column(rows[i], "hostname") == Text(h);
        assert rows0[i] == rows[i];
      }
      if HostnameTaken(rows0, h) {
        var i :| 0 <= i < |rows0| && Column(rows0[i], "hostname") == Text(h);
        if i < |rows| {
          assert rows0[i] == rows[i];
        }
      }
      if h == h0 {
        assert rows0[|rows|] == row;
      }
    }
  }

  lemma KeysInOrder(done: seq<string>, ids: seq<string>)
    requires |ids| > 0
    ensures done + [ids[0]] + ids[1..] == done + ids
  {
    assert ids == [ids[0]] + ids[1..];
  }

  lemma TailNoDuplicates(ids: seq<string>)
    requires |ids| > 0 && NoDuplicates(ids)
    ensures NoDuplicates(ids[1..])
  {
    forall i, j | 0 <= i < j < |ids[1..]| ensures ids[1..][i] != ids[1..][j] {
      assert ids[1..][i] == ids[i + 1] && ids[1..][j] == ids[j + 1];
    }
  }

  /** A key that was absent and differs from the inserted one is still absent after the insert. */
  lemma NewKeyOnlyInLastRow(s: TableState, s0: TableState, newId: string, other: string)
    requires |s0.rows| == |s.rows| + 1 && s0.rows[..|s.rows|] == s.rows && !HasId(s.rows, other)
    requires IdOf(s0.rows[|s.rows|]) == Text(newId) && other != newId
    ensures !HasId(s0.rows, other)
  {
    forall i | 0 <= i < |s0.rows| ensures IdOf(s0.rows[i]) != Text(other) {
      if i < |s.rows| {
        assert s0.rows[i] == s.rows[i];
      }
    }
  }

  /** The data fields of `row` replaced by `data`. */
  function WithData(row: HostInfoRow, data: HostInfoRowData): HostInfoRow
  {
    row.(hostname := data.hostname, lastProvisionedAt := data.lastProvisionedAt, dockerVersion := data.dockerVersion,
         tailscaleInstalled := data.tailscaleInstalled, portainerInstalled := data.portainerInstalled,
         metadata := data.metadata, ip := data.ip, tailscale := data.tailscale, backupPath := data.backupPath,
         hostnameField := data.hostnameField)
  }

  /**
   * The closure `upsert_one` passes to `upsert_by`: a copy of the existing
   * row, or a fresh row seeded from `data`, and then every data field set
   * from `data`.
   */
  function UpsertRow(data: HostInfoRowData, existing: Option<HostInfoRow>): (row: HostInfoRow)
    ensures existing.Some? ==>
      && row.id == existing.value.id
      && row.createdAt == existing.value.createdAt && row.updatedAt == existing.value.updatedAt
      && DataOf(row) == data
    ensures existing.None? ==> row == NewRow(data)
  {
    var base := if existing.Some? then existing.value else WithData(NewRow(data), data);
    WithData(base, data)
  }

  /** The closure on records, as `upsert_by` calls it. */
  function Builder(data: HostInfoRowData): Option<Record> -> Record
  {
    (e: Option<Record>) => ToRecord(UpsertRow(data, if e.Some? then Some(OfRecord(e.value)) else None))
  }

  /** `upsert_one`. */
  method UpsertOne(db: SqliteTable, where: Where, data: HostInfoRowData, newId: string, now: int) returns (r: Result<string>)
    modifies db
    ensures db.layout == old(db.layout)
    ensures (r, db.State()) == UpsertByEffect(HOST_INFO, old(db.State()), where, Builder(data), newId, now)
  {
    r := UpsertBy(HOST_INFO, db, where, Builder(data), newId, now);
  }

  /**
   * Setting host name `h` on the rows with key `id` would repeat it: two rows
   * have the key, or a row with another key already holds `h`.
   */
  predicate HostnameClash(rows: seq<StoredRow>, id: string, h: string)
  {
    |Matching(rows, ById(id))| >= 2 || HostnameTaken(Without(rows, ById(id)), h)
  }

  /**
   * On the migrated table, `update` of a struct in range whose key some row
   * has is refused exactly when the struct has no host name or its host name
   * would repeat; a refused update changes nothing.
   */
  lemma MigratedUpdateChecks(s: TableState, row: HostInfoRow, now: int)
    requires Migrated(s) && InRange(row) && I64_MIN <= now <= I64_MAX
    requires Matching(s.rows, ById(row.id)) != []
    ensures var u := UpdateEffect(HOST_INFO, s, ToRecord(row), now);
      && (u.0.Ok? <==> row.hostname.Some? && !HostnameClash(s.rows, row.id, row.hostname.value))
      && (u.0.Err? ==> u.1 == s)
      && |u.1.rows| == |s.rows|
  {
    HostInfoAligned();
    RecordFits(row);
    var item := ToRecord(row);
    UpdateMeaning(HOST_INFO, s, item, now);
    var assigns := Bind(UpdateColumns(HOST_INFO) + ["updated_at"], UpdateParams(item, now));
    UpdateSetsColumns(HOST_INFO, s.layout, item, now);
    UpdateKeepsColumns(HOST_INFO, s.layout, map[], item, now);
    assert MIGRATION_LAYOUT[1] == "hostname" && MIGRATION_LAYOUT[11] == "created_at" && MIGRATION_LAYOUT[12] == "updated_at";
    MigratedAssignChecks(s, ById(item.id), assigns, row.hostname, now);
  }

  /** On the migrated table the column checks of an update come down to the host name it assigns. */
  lemma MigratedAssignChecks(s: TableState, where: Where, assigns: StoredRow, hostname: Option<string>, now: int)
    requires Migrated(s) && Matching(s.rows, where) != []
    requires "hostname" in assigns && assigns["hostname"] == TextValue(hostname)
    requires "updated_at" in assigns && assigns["updated_at"] == Integer(now) && "created_at" !in assigns
    ensures (forall c :: c in s.layout && c in s.notNull && c in assigns ==> assigns[c] != Null) <==> hostname.Some?
    ensures (forall c :: c in s.layout && c in s.unique ==> !Repeats(s.rows, where, assigns, c))
       <==> hostname.None? || !(|Matching(s.rows, where)| >= 2 || HostnameTaken(Without(s.rows, where), hostname.value))
  {
    assert MIGRATION_LAYOUT[1] == "hostname";
  }

  /**
   * On the migrated table `upsert_one` never takes the replace path, since
   * the closure keeps the match's key: with no match it inserts the data as
   * a new row; otherwise it updates the first match's data, which is refused
   * exactly when the data has no host name or that host name would repeat,
   * and on success returns that row's key with the row count unchanged.
   */
  lemma UpsertOneMeaning(s: TableState, where: Where, data: HostInfoRowData, newId: string, now: int)
    requires Migrated(s) && DataInRange(data) && I64_MIN <= now <= I64_MAX
    ensures var sel := SelectManyOf(HOST_INFO, s, where); var (r, s1) := UpsertByEffect(HOST_INFO, s, where, Builder(data), newId, now);
      && (sel.Err? ==> r == Err(sel.msg) && s1 == s)
      && (sel == Ok([]) ==> (r, s1) == InsertEffect(HOST_INFO, s, ToRecord(NewRow(data)), newId, now))
      && (sel.Ok? && sel.value != [] ==>
            && (r.Ok? <==> data.hostname.Some? && !HostnameClash(s.rows, sel.value[0].id, data.hostname.value))
            && (r.Err? ==> s1 == s)
            && (r.Ok? ==>
                  && r == Ok(sel.value[0].id) && |s1.rows| == |s.rows|
                  && s1 == UpdateEffect(HOST_INFO, s, ToRecord(UpsertRow(data, Some(OfRecord(sel.value[0])))), now).1))
  {
    HostInfoAligned();
    var b := Builder(data);
    forall rec ensures PrimaryKeyValue(b(Some(rec))) == PrimaryKeyValue(rec) {
      assert b(Some(rec)).id == UpsertRow(data, Some(OfRecord(rec))).id;
    }
    UpsertByBranches(HOST_INFO, s, where, b, newId, now);
    var sel := SelectManyOf(HOST_INFO, s, where);
    if sel.Ok? && sel.value != [] {
      var row := UpsertRow(data, Some(OfRecord(sel.value[0])));
      assert b(Some(sel.value[0])) == ToRecord(row);
      FirstMatchInRange(s, where, sel.value[0]);
      SelectedKeyPresent(HOST_INFO, s, where);
      MigratedUpdateChecks(s, row, now);
    }
  }

  /** A record `select_many` decodes from the migrated table fits the table, so its struct is in range. */
  lemma FirstMatchInRange(s: TableState, where: Where, rec: Record)
    requires SelectManyOf(HOST_INFO, s, where).Ok? && rec in SelectManyOf(HOST_INFO, s, where).value
    ensures InRange(OfRecord(rec))
  {
    var m := Matching(s.rows, where);
    var all := SelectManyOf(HOST_INFO, s, where).value;
    var i :| 0 <= i < |all| && all[i] == rec;
    FromRowOnlyRowsOf(HOST_INFO, Project(s.layout, m[i]));
    RecordsAreRows(rec);
    RecordFits(OfRecord(rec));
  }

  /** `select_one`: the last match as a struct, `None` when nothing matches. */
  method SelectOne(db: SqliteTable, where: Where) returns (r: Result<Option<HostInfoRow>>)
    ensures var all := SelectManyOf(HOST_INFO, db.State(), where);
      && (all.Err? ==> r == Err(all.msg))
      && (all.Ok? ==> r == Ok(if all.value == [] then None else Some(OfRecord(all.value[|all.value| - 1]))))
  {
    var one := DbTable.SelectOne(HOST_INFO, db, where);
    if one.Err? {
      return Err(one.msg);
    }
    r := Ok(if one.value.None? then None else Some(OfRecord(one.value.value)));
  }

  /** `select_many`: every match as a struct, in row order. */
  method SelectMany(db: SqliteTable, where: Where) returns (r: Result<seq<HostInfoRow>>)
    ensures var all := SelectManyOf(HOST_INFO, db.State(), where);
      && (r.Ok? <==> all.Ok?)
      && (all.Err? ==> r == Err(all.msg))
      && (all.Ok? ==> |r.value| == |all.value| && forall i :: 0 <= i < |all.value| ==> r.value[i] == OfRecord(all.value[i]))
  {
    var all := DbTable.SelectMany(HOST_INFO, db, where);
    if all.Err? {
      return Err(all.msg);
    }
    r := Ok(seq(|all.value|, i requires 0 <= i < |all.value| => OfRecord(all.value[i])));
  }

  /** `WHERE hostname = ?1`. */
  function ByHostname(hostname: string): Where
  {
    (row: StoredRow) => Column(row, "hostname") == Text(hostname)
  }

  /** `delete_by_id`: `delete_many` on the key. */
  method DeleteById(db: SqliteTable, id: string) returns (r: Result<nat>)
    modifies db
    ensures db.layout == old(db.layout)
    ensures (r, db.State()) == DeleteManyEffect(old(db.State()), ById(id))
  {
    r := DeleteMany(db, ById(id));
  }

  /** `delete_by_hostname`: `delete_many` on the `hostname` column alone. */
  method DeleteByHostname(db: SqliteTable, hostname: string) returns (r: Result<nat>)
    modifies db
    ensures db.layout == old(db.layout)
    ensures (r, db.State()) == DeleteManyEffect(old(db.State()), ByHostname(hostname))
  {
    r := DeleteMany(db, ByHostname(hostname));
  }

  /**
   * `delete_by_hostname` removes exactly the rows whose `hostname` column
   * holds the name, whatever their other columns, counts them, and keeps
   * the rest in order.
   */
  lemma DeleteByHostnameMeaning(s: TableState, hostname: string)
    ensures var (r, s1) := DeleteManyEffect(s, ByHostname(hostname));
      && r.Ok? && r.value + |s1.rows| == |s.rows|
      && (forall x :: x in s1.rows <==> x in s.rows && Column(x, "hostname") != Text(hostname))
      && s1.rows == Without(s.rows, ByHostname(hostname))
  {
    DeleteManyMeaning(s, ByHostname(hostname));
  }

  /** Two rows that agree on `hostname` are both kept or both removed. */
  lemma DeleteByHostnameOnlyHostname(s: TableState, hostname: string, x: StoredRow, y: StoredRow)
    requires x in s.rows && y in s.rows && Column(x, "hostname") == Column(y, "hostname")
    ensures x in DeleteManyEffect(s, ByHostname(hostname)).1.rows <==> y in DeleteManyEffect(s, ByHostname(hostname)).1.rows
  {
    DeleteByHostnameMeaning(s, hostname);
  }
}
