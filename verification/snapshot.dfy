/**
  Snapshot export and import of the mock service's database. The database maps each table
  to its rows in `rowid` order, each row the column values in schema order (every column is
  `TEXT`, so a value is a string or SQL `NULL`). Import deletes the seven exported tables
  (with foreign keys off, so nothing cascades), inserts the snapshot's rows table by table,
  and runs the foreign-key check, whose count of violations is a parameter. The connection
  commits only when the import returns, so a failed import leaves the database as it was.
*/
module Snapshot {
  import opened Wrappers
  import opened Strings
  import opened Json

  const SnapshotVersion := 1

  /** The tables `init_db` creates. */
  datatype Table = Users | Groups | GroupMembers | Items | Permissions | ShareLinks | Comments | Activities

  function TableName(t: Table): string {
    match t
    case Users => "users"
    case Groups => "groups"
    case GroupMembers => "group_members"
    case Items => "items"
    case Permissions => "permissions"
    case ShareLinks => "share_links"
    case Comments => "comments"
    case Activities => "activities"
  }

  const ExportTables: seq<Table> := [Users, Groups, GroupMembers, Items, Permissions, ShareLinks, Comments]
  const DeleteOrder: seq<Table> := [Comments, ShareLinks, Permissions, GroupMembers, Items, Groups, Users]
  const InsertOrder: seq<Table> := [Users, Groups, Items, GroupMembers, Permissions, ShareLinks, Comments]

  predicate Distinct<T(==)>(xs: seq<T>) {
    forall i, j :: 0 <= i < j < |xs| ==> xs[i] != xs[j]
  }

  /** Rows are deleted children first: the delete order is the insert order reversed. */
  lemma DeleteReversesInsert()
    ensures |DeleteOrder| == |InsertOrder|
    ensures forall i :: 0 <= i < |InsertOrder| ==> DeleteOrder[i] == InsertOrder[|InsertOrder| - 1 - i]
  {
  }

  /**
    Both orders name each exported table exactly once, and only those; `activities` is in
    neither, so an import keeps it.
  */
  lemma TableOrders()
    ensures forall t :: t in InsertOrder <==> t in ExportTables
    ensures forall t :: t in DeleteOrder <==> t in ExportTables
    ensures forall t :: t in ExportTables <==> t != Activities
    ensures Distinct(InsertOrder) && Distinct(DeleteOrder) && Distinct(ExportTables)
  {
    Exported();
    Inserted();
    Deleted();
  }

  lemma Exported()
    ensures forall t :: t in ExportTables <==> t != Activities
    ensures Distinct(ExportTables)
  {
  }

  lemma Inserted()
    ensures forall t :: t in InsertOrder <==> t != Activities
    ensures Distinct(InsertOrder)
  {
  }

  lemma Deleted()
    ensures forall t :: t in DeleteOrder <==> t != Activities
    ensures Distinct(DeleteOrder)
  {
  }

  /** The snapshot's keys name the tables apart. */
  lemma TableNameInjective(a: Table, b: Table)
    requires TableName(a) == TableName(b)
    ensures a == b
  {
  }

  // ----- schema -----

  /** The columns `PRAGMA table_info` lists, in declaration order. */
  function Columns(t: Table): (cols: seq<string>)
    ensures |cols| == Width(t) && cols[0] == "id"
  {
    match t
    case Users => ["id", "email", "display_name", "created_at"]
    case Groups => ["id", "name", "description", "created_at"]
    case GroupMembers => ["id", "group_id", "user_id", "created_at"]
    case Items => ["id", "name", "item_type", "parent_id", "owner_user_id", "content_text",
                   "content_json", "created_at", "updated_at"]
    case Permissions => ["id", "item_id", "principal_type", "principal_id", "role", "created_at"]
    case ShareLinks => ["id", "item_id", "token", "role", "expires_at", "created_at"]
    case Comments => ["id", "item_id", "author_user_id", "body", "created_at"]
    case Activities => ["id", "item_id", "event_type", "actor_user_id", "data_json", "created_at"]
  }

  /** No table declares a column twice. */
  lemma ColumnsDistinct(t: Table)
    ensures Distinct(Columns(t))
  {
  }

  /** How many columns each table has. */
  function Width(t: Table): nat {
    match t
    case Users => 4
    case Groups => 4
    case GroupMembers => 4
    case Items => 9
    case Permissions => 6
    case ShareLinks => 6
    case Comments => 5
    case Activities => 6
  }

  /** The columns declared `NOT NULL`. A `TEXT PRIMARY KEY` is not implicitly `NOT NULL` in SQLite. */
  predicate NotNull(t: Table, c: string) {
    match t
    case Users => c in {"email", "display_name", "created_at"}
    case Groups => c in {"name", "description", "created_at"}
    case GroupMembers => c in {"group_id", "user_id", "created_at"}
    case Items => c in {"name", "item_type", "created_at", "updated_at"}
    case Permissions => c in {"item_id", "principal_type", "role", "created_at"}
    case ShareLinks => c in {"item_id", "token", "role", "created_at"}
    case Comments => c in {"item_id", "author_user_id", "body", "created_at"}
    case Activities => c in {"item_id", "event_type", "created_at"}
  }

  /** The columns declared `PRIMARY KEY` or `UNIQUE`. */
  predicate Unique(t: Table, c: string) {
    c == "id" || (t == Users && c == "email")
  }

  /** The positions of the `NOT NULL` columns. */
  function NotNullColumns(t: Table): set<nat> {
    match t
    case Users => {1, 2, 3}
    case Groups => {1, 2, 3}
    case GroupMembers => {1, 2, 3}
    case Items => {1, 2, 7, 8}
    case Permissions => {1, 2, 4, 5}
    case ShareLinks => {1, 2, 3, 5}
    case Comments => {1, 2, 3, 4}
    case Activities => {1, 2, 5}
  }

  /** The positions of the key columns. */
  function KeyColumns(t: Table): set<nat> {
    if t == Users then {0, 1} else {0}
  }

  /** The positions agree with the names the schema declares. */
  lemma ConstraintPositions(t: Table, k: nat)
    requires k < Width(t)
    ensures k in NotNullColumns(t) <==> NotNull(t, Columns(t)[k])
    ensures k in KeyColumns(t) <==> Unique(t, Columns(t)[k])
  {
  }

  // ----- the database -----

  /** A row: the column values in schema order, `None` for SQL `NULL`. */
  type Record = seq<Option<string>>

  /** Each table's rows, in `rowid` order. */
  datatype Db = Db(
    users: seq<Record>, groups: seq<Record>, groupMembers: seq<Record>, items: seq<Record>,
    permissions: seq<Record>, shareLinks: seq<Record>, comments: seq<Record>, activities: seq<Record>)

  function Rows(db: Db, t: Table): seq<Record> {
    match t
    case Users => db.users
    case Groups => db.groups
    case GroupMembers => db.groupMembers
    case Items => db.items
    case Permissions => db.permissions
    case ShareLinks => db.shareLinks
    case Comments => db.comments
    case Activities => db.activities
  }

  /** The database with one table's rows replaced. */
  function With(db: Db, t: Table, rows: seq<Record>): (r: Db)
    ensures forall u :: Rows(r, u) == if u == t then rows else Rows(db, u)
  {
    match t
    case Users => db.(users := rows)
    case Groups => db.(groups := rows)
    case GroupMembers => db.(groupMembers := rows)
    case Items => db.(items := rows)
    case Permissions => db.(permissions := rows)
    case ShareLinks => db.(shareLinks := rows)
    case Comments => db.(comments := rows)
    case Activities => db.(activities := rows)
  }

  /** Two databases are the same when every table holds the same rows. */
  lemma SameRows(a: Db, b: Db)
    requires forall t :: Rows(a, t) == Rows(b, t)
    ensures a == b
  {
    assert Rows(a, Users) == Rows(b, Users) && Rows(a, Groups) == Rows(b, Groups);
    assert Rows(a, GroupMembers) == Rows(b, GroupMembers) && Rows(a, Items) == Rows(b, Items);
    assert Rows(a, Permissions) == Rows(b, Permissions) && Rows(a, ShareLinks) == Rows(b, ShareLinks);
    assert Rows(a, Comments) == Rows(b, Comments) && Rows(a, Activities) == Rows(b, Activities);
  }

  /** No two rows share a non-null value in column `k`. */
  predicate NoDuplicates(rows: seq<Record>, k: nat) {
    forall i, j :: 0 <= i < j < |rows| && k < |rows[i]| && k < |rows[j]| && rows[i][k].Some? ==> rows[i][k] != rows[j][k]
  }

  /** Rows a table's constraints accept: the right width, no `NULL` in a `NOT NULL` column, no duplicate key. */
  predicate Fits(t: Table, rows: seq<Record>) {
    && (forall i :: 0 <= i < |rows| ==> |rows[i]| == Width(t))
    && (forall i, k :: 0 <= i < |rows| && k in NotNullColumns(t) && k < |rows[i]| ==> rows[i][k].Some?)
    && (forall k :: k in KeyColumns(t) ==> NoDuplicates(rows, k))
  }

  /** A database SQLite could hold: every table within its constraints. */
  predicate Valid(db: Db) {
    forall t :: Fits(t, Rows(db, t))
  }

  // ----- export -----

  function OptStr(o: Option<string>): Value {
    match o
    case None => Null
    case Some(s) => Str(s)
  }

  lemma OptStrInjective(a: Option<string>, b: Option<string>)
    requires OptStr(a) == OptStr(b)
    ensures a == b
  {
  }

  /** `dict(row)`: each column name bound to its value. */
  function RowMap(cols: seq<string>, r: Record): (m: map<string, Value>)
    requires |cols| == |r|
    ensures m.Keys == set c | c in cols
  {
    if cols == [] then map[] else RowMap(cols[1..], r[1..])[cols[0] := OptStr(r[0])]
  }

  /** With distinct column names, a row's object holds each value under its column. */
  lemma {:induction false} RowMapAt(cols: seq<string>, r: Record, k: nat)
    requires |cols| == |r| && Distinct(cols) && k < |cols|
    ensures RowMap(cols, r)[cols[k]] == OptStr(r[k])
    decreases |cols|
  {
    if k > 0 {
      assert Distinct(cols[1..]) by {
        forall i, j | 0 <= i < j < |cols| - 1 ensures cols[1..][i] != cols[1..][j] {
          assert cols[1..][i] == cols[i + 1] && cols[1..][j] == cols[j + 1];
        }
      }
      RowMapAt(cols[1..], r[1..], k - 1);
      assert cols[0] != cols[k];
    }
  }

  /** `_select_all`: the table's rows as objects, in `rowid` order. */
  function ExportTable(cols: seq<string>, rows: seq<Record>): (v: Value)
    requires forall i :: 0 <= i < |rows| ==> |rows[i]| == |cols|
    ensures v.List? && |v.items| == |rows|
    ensures forall i :: 0 <= i < |rows| ==> v.items[i] == Object(RowMap(cols, rows[i]))
  {
    List(seq(|rows|, i requires 0 <= i < |rows| => Object(RowMap(cols, rows[i]))))
  }

  /** Every row has its table's width. */
  predicate Shaped(db: Db) {
    forall t, i :: 0 <= i < |Rows(db, t)| ==> |Rows(db, t)[i]| == Width(t)
  }

  /** The `tables` object: each exported table under its name. */
  function TablesObject(db: Db): (m: map<string, Value>)
    requires Shaped(db)
    ensures forall t :: t in ExportTables ==> TableName(t) in m && m[TableName(t)] == ExportTable(Columns(t), Rows(db, t))
  {
    TableNamesApart();
    map t | t in ExportTables :: TableName(t) := ExportTable(Columns(t), Rows(db, t))
  }

  lemma TableNamesApart()
    ensures forall a, b :: TableName(a) == TableName(b) ==> a == b
  {
    forall a, b | TableName(a) == TableName(b) ensures a == b {
      TableNameInjective(a, b);
    }
  }

  /** `export_snapshot`: the version, the export time (a parameter), and every exported table. */
  function ExportSnapshot(db: Db, exportedAt: string): (m: map<string, Value>)
    requires Shaped(db)
    ensures m.Keys == {"snapshot_version", "exported_at", "tables"}
    ensures EqualsOne(m["snapshot_version"]) && m["tables"] == Object(TablesObject(db))
  {
    map["snapshot_version" := Int(SnapshotVersion), "exported_at" := Str(exportedAt),
        "tables" := Object(TablesObject(db))]
  }

  // ----- row validation -----

  /** `_require_str_or_none` */
  function RequireStrOrNone(v: Value, what: string): (r: Result<Option<string>>)
    ensures r.Success? <==> v.Null? || v.Str?
    ensures r.Success? ==> OptStr(r.value) == v
    ensures r.Failure? ==> r.error == what + " must be a string or null"
  {
    match v
    case Null => Success(None)
    case Str(s) => Success(Some(s))
    case _ => Failure(what + " must be a string or null")
  }

  /** `f"{table}[{idx}]"` */
  function Label(table: string, idx: nat): string {
    table + "[" + NatToString(idx) + "]"
  }

  /** `[c for c in cols if c not in row]` */
  function Missing(cols: seq<string>, row: map<string, Value>): (m: seq<string>)
    ensures forall c :: c in m <==> c in cols && c !in row
  {
    if cols == [] then []
    else (if cols[0] in row then [] else [cols[0]]) + Missing(cols[1..], row)
  }

  /** Every column's value is a string or null. */
  predicate TextValues(cols: seq<string>, row: map<string, Value>) {
    forall i :: 0 <= i < |cols| ==> Get(row, cols[i]).Null? || Get(row, cols[i]).Str?
  }

  /** The values of a row in column order, each a string or null. */
  function CellValues(what: string, cols: seq<string>, row: map<string, Value>): (r: Result<Record>)
    ensures r.Success? <==> TextValues(cols, row)
    ensures r.Success? ==> |r.value| == |cols| && forall i :: 0 <= i < |cols| ==> OptStr(r.value[i]) == Get(row, cols[i])
  {
    if cols == [] then Success([])
    else
      var v :- RequireStrOrNone(Get(row, cols[0]), what + "." + cols[0]);
      var rest :- CellValues(what, cols[1..], row);
      Success([v] + rest)
  }

  /** One row of `_iter_row_values`: an object holding every column, each a string or null. */
  function RowValues(table: string, idx: nat, cols: seq<string>, raw: Value): (r: Result<Record>)
    ensures r.Success? <==> raw.Object? && (forall c :: c in cols ==> c in raw.fields) && TextValues(cols, raw.fields)
    ensures r.Success? ==> |r.value| == |cols| && forall i :: 0 <= i < |cols| ==> OptStr(r.value[i]) == raw.fields[cols[i]]
  {
    if !raw.Object? then Failure(Label(table, idx) + " must be an object")
    else
      var missing := Missing(cols, raw.fields);
      if missing != [] then
        assert missing[0] in cols && missing[0] !in raw.fields;
        Failure(Label(table, idx) + " missing columns: " + Join(missing, ", "))
      else CellValues(Label(table, idx), cols, raw.fields)
  }

  /** `_iter_row_values` from row `start` on: the rows' values in order, or the first row's error. */
  function IterRowValues(table: string, cols: seq<string>, rows: seq<Value>, start: nat): (r: Result<seq<Record>>)
    ensures r.Success? <==> forall i :: 0 <= i < |rows| ==> RowValues(table, start + i, cols, rows[i]).Success?
    ensures r.Success? ==> |r.value| == |rows|
    ensures r.Success? ==> forall i :: 0 <= i < |rows| ==> RowValues(table, start + i, cols, rows[i]) == Success(r.value[i])
    decreases |rows|
  {
    if rows == [] then Success([])
    else
      var first :- RowValues(table, start, cols, rows[0]);
      var rest :- IterRowValues(table, cols, rows[1..], start + 1);
      Success([first] + rest)
  }

  // ----- import -----

  /** `_require_dict` */
  function RequireDict(v: Value, what: string): (r: Result<map<string, Value>>)
    ensures r.Success? <==> v.Object?
    ensures r.Success? ==> r.value == v.fields
    ensures r.Failure? ==> r.error == what + " must be an object"
  {
    if v.Object? then Success(v.fields) else Failure(what + " must be an object")
  }

  /** `_require_list` */
  function RequireList(v: Value, what: string): (r: Result<seq<Value>>)
    ensures r.Success? <==> v.List?
    ensures r.Success? ==> r.value == v.items
    ensures r.Failure? ==> r.error == what + " must be a list"
  {
    if v.List? then Success(v.items) else Failure(what + " must be a list")
  }

  /** `DELETE FROM` each table, with foreign keys off: nothing cascades. */
  function DeleteAll(db: Db, order: seq<Table>): (r: Db)
    ensures forall t :: Rows(r, t) == if t in order then [] else Rows(db, t)
    decreases |order|
  {
    if order == [] then db else DeleteAll(With(db, order[0], []), order[1..])
  }

  /** What a failed `INSERT` raises (the constraint's own wording is not modelled). */
  function IntegrityError(t: Table): string {
    "IntegrityError: constraint failed on " + TableName(t)
  }

  /** `executemany` of an `INSERT`: the rows are appended, unless a constraint refuses them. */
  function Append(db: Db, t: Table, records: seq<Record>): (r: Result<Db>)
    ensures r.Success? <==> Fits(t, Rows(db, t) + records)
    ensures r.Success? ==> r.value == With(db, t, Rows(db, t) + records)
    ensures r.Failure? ==> r.error == IntegrityError(t)
  {
    if Fits(t, Rows(db, t) + records) then Success(With(db, t, Rows(db, t) + records))
    else Failure(IntegrityError(t))
  }

  /** `tables.get(table, [])`: an absent table reads as an empty list, a present `null` stays `null`. */
  function Entry(tables: map<string, Value>, t: Table): Value {
    GetOr(tables, TableName(t), List([]))
  }

  /**
    The rows a table entry stands for: the entry must be a list, and each of its rows is
    validated against the table's columns, the first bad row's error winning.
  */
  function Loaded(tables: map<string, Value>, t: Table): (r: Result<seq<Record>>)
    ensures r.Success? ==> Entry(tables, t).List? && |r.value| == |Entry(tables, t).items|
  {
    var raw :- RequireList(Entry(tables, t), "tables." + TableName(t));
    IterRowValues(TableName(t), Columns(t), raw, 0)
  }

  /** A table loads exactly when its entry is a list of valid rows, and then as those rows' values. */
  lemma LoadedRows(tables: map<string, Value>, t: Table)
    ensures var entry := Entry(tables, t);
      Loaded(tables, t).Success? <==>
        entry.List? && forall i :: 0 <= i < |entry.items| ==> RowValues(TableName(t), i, Columns(t), entry.items[i]).Success?
    ensures var entry := Entry(tables, t);
      Loaded(tables, t).Success? ==> forall i :: 0 <= i < |entry.items| ==>
        RowValues(TableName(t), i, Columns(t), entry.items[i]) == Success(Loaded(tables, t).value[i])
    ensures !Entry(tables, t).List? ==> Loaded(tables, t) == Failure("tables." + TableName(t) + " must be a list")
  {
  }

  /**
    Each table's validated rows. Validation reads only the snapshot, so validating a table just
    before inserting it, as the loop does, is the same as looking its rows up here.
  */
  function Validated(tables: map<string, Value>): Table -> Result<seq<Record>> {
    t => Loaded(tables, t)
  }

  /**
    One table of the insert loop, given its validated rows: an empty entry inserts nothing;
    otherwise the rows are appended. Returns the new database and `len(raw_rows)`.
  */
  function InsertTable(db: Db, load: Result<seq<Record>>, t: Table): (r: Result<(Db, nat)>)
    ensures r.Success? <==> load.Success? && (load.value == [] || Fits(t, Rows(db, t) + load.value))
    ensures r.Success? ==> r.value.1 == |load.value|
    ensures r.Success? ==> forall u :: Rows(r.value.0, u) == if u == t then Rows(db, t) + load.value else Rows(db, u)
    ensures r.Failure? ==> r.error == if load.Failure? then load.error else IntegrityError(t)
  {
    var records :- load;
    if records == [] then
      assert Rows(db, t) + records == Rows(db, t);
      Success((db, 0))
    else
      var after :- Append(db, t, records);
      Success((after, |records|))
  }

  /**
    The insert loop over `order`, recording each table's count in `inserted`: on success every
    table in the order has had its rows appended and no other table has changed.
  */
  function InsertTables(db: Db, loads: Table -> Result<seq<Record>>, order: seq<Table>, inserted: map<Table, nat>)
    : (r: Result<(Db, map<Table, nat>)>)
    requires Distinct(order)
    ensures r.Success? ==> forall u :: u in order ==> loads(u).Success? && Rows(r.value.0, u) == Rows(db, u) + loads(u).value
    ensures r.Success? ==> forall u :: u !in order ==> Rows(r.value.0, u) == Rows(db, u)
    decreases |order|
  {
    if order == [] then Success((db, inserted))
    else
      DistinctTail(order);
      var step :- InsertTable(db, loads(order[0]), order[0]);
      var r := InsertTables(step.0, loads, order[1..], inserted[order[0] := step.1]);
      assert r.Success? ==> Rows(r.value.0, order[0]) == Rows(step.0, order[0]);
      r
  }

  lemma DistinctTail<T>(xs: seq<T>)
    requires xs != [] && Distinct(xs)
    ensures Distinct(xs[1..]) && xs[0] !in xs[1..]
  {
    forall i, j | 0 <= i < j < |xs| - 1 ensures xs[1..][i] != xs[1..][j] {
      assert xs[1..][i] == xs[i + 1] && xs[1..][j] == xs[j + 1];
    }
  }

  /** The loop records, for each table of the order, how many rows it inserted. */
  lemma {:induction false} InsertTablesCounts(db: Db, loads: Table -> Result<seq<Record>>, order: seq<Table>, inserted: map<Table, nat>)
    requires Distinct(order)
    ensures var r := InsertTables(db, loads, order, inserted);
      r.Success? ==> forall u :: u in r.value.1 <==> u in inserted || u in order
    ensures var r := InsertTables(db, loads, order, inserted);
      r.Success? ==> forall u :: u in order ==> r.value.1[u] == |loads(u).value|
    ensures var r := InsertTables(db, loads, order, inserted);
      r.Success? ==> forall u :: u in inserted && u !in order ==> r.value.1[u] == inserted[u]
    decreases |order|
  {
    var r := InsertTables(db, loads, order, inserted);
    if r.Success? && order != [] {
      DistinctTail(order);
      var step := InsertTable(db, loads(order[0]), order[0]).value;
      InsertTablesCounts(step.0, loads, order[1..], inserted[order[0] := step.1]);
    }
  }

  /** Every table the loop inserted into, starting empty, is within its constraints. */
  lemma {:induction false} InsertTablesFit(db: Db, loads: Table -> Result<seq<Record>>, order: seq<Table>, inserted: map<Table, nat>)
    requires Distinct(order)
    requires forall u :: u in order ==> Rows(db, u) == []
    ensures var r := InsertTables(db, loads, order, inserted);
      r.Success? ==> forall u :: u in order ==> Fits(u, Rows(r.value.0, u))
    decreases |order|
  {
    var r := InsertTables(db, loads, order, inserted);
    if r.Success? && order != [] {
      DistinctTail(order);
      var t := order[0];
      var step := InsertTable(db, loads(t), t).value;
      InsertTablesFit(step.0, loads, order[1..], inserted[t := step.1]);
      assert Fits(t, Rows(r.value.0, t)) by {
        if loads(t).value == [] {
          assert Rows(r.value.0, t) == [];
        }
      }
    }
  }

  const ModeError := "mode must be replace"
  const VersionError := "snapshot_version must be 1"

  function ForeignKeyError(n: nat): string {
    "Snapshot violates foreign keys (" + NatToString(n) + " violations)"
  }

  /**
    The checks `import_snapshot` makes before touching any table: the mode must be "replace",
    the version 1 (Python's `==`, so `true` and `1.0` pass), and `tables` an object.
  */
  function Header(snapshot: map<string, Value>, mode: string): (r: Result<map<string, Value>>)
    ensures r.Success? <==> mode == "replace" && EqualsOne(Get(snapshot, "snapshot_version")) && Get(snapshot, "tables").Object?
    ensures r.Success? ==> r.value == Get(snapshot, "tables").fields
    ensures mode != "replace" ==> r == Failure(ModeError)
    ensures mode == "replace" && !EqualsOne(Get(snapshot, "snapshot_version")) ==> r == Failure(VersionError)
    ensures mode == "replace" && EqualsOne(Get(snapshot, "snapshot_version")) && !Get(snapshot, "tables").Object? ==>
      r == Failure("tables" + " must be an object")
  {
    if mode != "replace" then Failure(ModeError)
    else if !EqualsOne(Get(snapshot, "snapshot_version")) then Failure(VersionError)
    else RequireDict(Get(snapshot, "tables"), "tables")
  }

  /**
    What a successful replace leaves: each exported table holds exactly the rows it loads as,
    the count of each is reported, and the activity log is untouched.
  */
  predicate Replaced(db: Db, loads: Table -> Result<seq<Record>>, after: Db, counts: map<Table, nat>) {
    && (forall t :: t in counts <==> t != Activities)
    && (forall t :: t in InsertOrder ==> loads(t).Success?)
    && (forall t :: t in InsertOrder ==> Rows(after, t) == loads(t).value)
    && (forall t :: t in InsertOrder ==> t in counts && counts[t] == |loads(t).value|)
    && Rows(after, Activities) == Rows(db, Activities)
  }

  /** The loop's postconditions, for the emptied tables, amount to `Replaced`. */
  lemma ReplacedBy(db: Db, emptied: Db, loads: Table -> Result<seq<Record>>, after: Db, counts: map<Table, nat>)
    requires forall t :: t in InsertOrder <==> t != Activities
    requires forall t :: t in DeleteOrder <==> t != Activities
    requires forall t :: Rows(emptied, t) == if t in DeleteOrder then [] else Rows(db, t)
    requires forall u :: u in InsertOrder ==> loads(u).Success? && Rows(after, u) == Rows(emptied, u) + loads(u).value
    requires forall u :: u !in InsertOrder ==> Rows(after, u) == Rows(emptied, u)
    requires forall u :: u in counts <==> u in InsertOrder
    requires forall u :: u in InsertOrder ==> counts[u] == |loads(u).value|
    ensures Replaced(db, loads, after, counts)
  {
  }

  /**
    Clear the seven tables, insert each table's rows (`loads`, the validated entries) in
    parent-first order, and refuse a result with foreign-key violations (`violations` counts
    the rows `PRAGMA foreign_key_check` reports).
  */
  function Replace(db: Db, loads: Table -> Result<seq<Record>>, violations: Db -> nat): (r: Result<(Db, map<Table, nat>)>)
    ensures r.Success? ==> violations(r.value.0) == 0 && Replaced(db, loads, r.value.0, r.value.1)
  {
    Inserted();
    Deleted();
    InsertTablesCounts(DeleteAll(db, DeleteOrder), loads, InsertOrder, map[]);
    match InsertTables(DeleteAll(db, DeleteOrder), loads, InsertOrder, map[])
    case Failure(e) => Failure(e)
    case Success(done) =>
      assert forall t :: t in done.1 ==> t in InsertOrder;
      ReplacedBy(db, DeleteAll(db, DeleteOrder), loads, done.0, done.1);
      var n := violations(done.0);
      if n != 0 then Failure(ForeignKeyError(n)) else Success(done)
  }

  /** `import_snapshot` */
  function ImportSnapshot(db: Db, snapshot: map<string, Value>, mode: string, violations: Db -> nat)
    : (r: Result<(Db, map<Table, nat>)>)
    ensures Header(snapshot, mode).Failure? ==> r == Failure(Header(snapshot, mode).error)
    ensures r.Success? ==> Header(snapshot, mode).Success? && violations(r.value.0) == 0
    ensures r.Success? ==> Replaced(db, Validated(Get(snapshot, "tables").fields), r.value.0, r.value.1)
  {
    var tables :- Header(snapshot, mode);
    Replace(db, Validated(tables), violations)
  }

  /** An import keeps the database within its constraints. */
  lemma ImportKeepsValid(db: Db, snapshot: map<string, Value>, mode: string, violations: Db -> nat)
    requires Valid(db)
    ensures var r := ImportSnapshot(db, snapshot, mode, violations);
      r.Success? ==> Valid(r.value.0)
  {
    var r := ImportSnapshot(db, snapshot, mode, violations);
    if r.Success? {
      assert Fits(Activities, Rows(db, Activities));
      ReplaceFits(db, Validated(Header(snapshot, mode).value), violations);
    }
  }

  /** A replace leaves every table within its constraints when the untouched activity log was. */
  lemma ReplaceFits(db: Db, loads: Table -> Result<seq<Record>>, violations: Db -> nat)
    requires Fits(Activities, Rows(db, Activities))
    ensures var r := Replace(db, loads, violations);
      r.Success? ==> forall t :: Fits(t, Rows(r.value.0, t))
  {
    var r := Replace(db, loads, violations);
    if r.Success? {
      var after := r.value.0;
      assert Rows(after, Activities) == Rows(db, Activities);
      Inserted();
      Deleted();
      var emptied := DeleteAll(db, DeleteOrder);
      InsertTablesFit(emptied, loads, InsertOrder, map[]);
      assert r.value == InsertTables(emptied, loads, InsertOrder, map[]).value;
      FitsAll(after, db);
    }
  }

  lemma FitsAll(after: Db, db: Db)
    requires forall t :: t in InsertOrder <==> t != Activities
    requires forall t :: t in InsertOrder ==> Fits(t, Rows(after, t))
    requires Rows(after, Activities) == Rows(db, Activities) && Fits(Activities, Rows(db, Activities))
    ensures forall t :: Fits(t, Rows(after, t))
  {
    forall t
      ensures Fits(t, Rows(after, t))
    {
      if t != Activities {
        assert t in InsertOrder;
      }
    }
  }

  /** The import under `get_connection`: committed on success, rolled back on any error. */
  function Import(db: Db, snapshot: map<string, Value>, mode: string, violations: Db -> nat)
    : (r: (Db, Result<map<Table, nat>>))
    ensures r.1.Failure? ==> r.0 == db
    ensures r.1.Success? ==> violations(r.0) == 0 && Rows(r.0, Activities) == Rows(db, Activities)
  {
    match ImportSnapshot(db, snapshot, mode, violations)
    case Failure(e) => (db, Failure(e))
    case Success(done) => (done.0, Success(done.1))
  }

  // ----- export, then import -----

  lemma ValidShaped(db: Db)
    requires Valid(db)
    ensures Shaped(db)
  {
    forall t, i | 0 <= i < |Rows(db, t)| ensures |Rows(db, t)[i]| == Width(t) {
      assert Fits(t, Rows(db, t));
    }
  }

  /** An exported row validates back to itself. */
  lemma RowValuesExported(table: string, idx: nat, cols: seq<string>, r: Record)
    requires |cols| == |r| && Distinct(cols)
    ensures RowValues(table, idx, cols, Object(RowMap(cols, r))) == Success(r)
  {
    var m := RowMap(cols, r);
    forall k | 0 <= k < |cols| ensures m[cols[k]] == OptStr(r[k]) {
      RowMapAt(cols, r, k);
    }
    assert TextValues(cols, m);
    var v := CellValues(Label(table, idx), cols, m).value;
    forall k | 0 <= k < |cols| ensures v[k] == r[k] {
      OptStrInjective(v[k], r[k]);
    }
    assert v == r;
  }

  /** An exported table's rows validate back to themselves. */
  lemma IterExported(table: string, cols: seq<string>, rows: seq<Record>)
    requires Distinct(cols) && forall i :: 0 <= i < |rows| ==> |rows[i]| == |cols|
    ensures IterRowValues(table, cols, ExportTable(cols, rows).items, 0) == Success(rows)
  {
    var items := ExportTable(cols, rows).items;
    forall i | 0 <= i < |rows| ensures RowValues(table, i, cols, items[i]) == Success(rows[i]) {
      RowValuesExported(table, i, cols, rows[i]);
    }
    var r := IterRowValues(table, cols, items, 0);
    assert r.Success?;
    assert r.value == rows;
  }

  /** An exported table's entry loads back as the table's rows. */
  lemma LoadedExported(src: Db, t: Table)
    requires Shaped(src) && t in ExportTables
    ensures Loaded(TablesObject(src), t) == Success(Rows(src, t))
  {
    WidthsExported(src, t);
    EntryExported(src, t);
    LoadedFrom(TablesObject(src), t, Rows(src, t));
  }

  lemma WidthsExported(src: Db, t: Table)
    requires Shaped(src)
    ensures forall i :: 0 <= i < |Rows(src, t)| ==> |Rows(src, t)[i]| == |Columns(t)|
  {
  }

  lemma EntryExported(src: Db, t: Table)
    requires Shaped(src) && t in ExportTables
    ensures Entry(TablesObject(src), t) == ExportTable(Columns(t), Rows(src, t))
  {
  }

  /** A table whose entry is the export of `rows` loads as `rows`. */
  lemma LoadedFrom(tables: map<string, Value>, t: Table, rows: seq<Record>)
    requires forall i :: 0 <= i < |rows| ==> |rows[i]| == |Columns(t)|
    requires Entry(tables, t) == ExportTable(Columns(t), rows)
    ensures Loaded(tables, t) == Success(rows)
  {
    ColumnsDistinct(t);
    IterExported(TableName(t), Columns(t), rows);
  }

  /** Inserting a database's tables into emptied tables succeeds and copies them. */
  lemma {:induction false} InsertAllExported(db: Db, src: Db, loads: Table -> Result<seq<Record>>, order: seq<Table>, inserted: map<Table, nat>)
    requires Distinct(order)
    requires forall t :: t in order ==> loads(t) == Success(Rows(src, t)) && Rows(db, t) == [] && Fits(t, Rows(src, t))
    ensures InsertTables(db, loads, order, inserted).Success?
    decreases |order|
  {
    if order != [] {
      var t := order[0];
      DistinctTail(order);
      assert Rows(db, t) + Rows(src, t) == Rows(src, t);
      var step := InsertTable(db, loads(t), t).value;
      InsertAllExported(step.0, src, loads, order[1..], inserted[t := step.1]);
    }
  }

  /** What an import of `src`'s export leaves: `src`'s tables, with the target's own activity log. */
  function Restored(dst: Db, src: Db): (r: Db)
    ensures forall t :: Rows(r, t) == if t == Activities then Rows(dst, t) else Rows(src, t)
  {
    With(src, Activities, Rows(dst, Activities))
  }

  /** The counts an import of `src`'s export returns: each exported table's row count. */
  predicate CountsOf(src: Db, counts: map<Table, nat>) {
    && (forall t :: t in counts <==> t != Activities)
    && (forall t :: t in counts ==> counts[t] == |Rows(src, t)|)
  }

  /**
    Export then import is the identity on the exported tables: importing a valid database's
    snapshot into any database restores every exported table row for row and reports each
    table's size, unless the foreign-key check (a parameter) objects to the result.
  */
  lemma ExportImport(src: Db, dst: Db, exportedAt: string, violations: Db -> nat)
    requires Valid(src)
    ensures Shaped(src) && var r := ImportSnapshot(dst, ExportSnapshot(src, exportedAt), "replace", violations);
      var n := violations(Restored(dst, src));
      && (r.Success? <==> n == 0)
      && (r.Success? ==> r.value.0 == Restored(dst, src) && CountsOf(src, r.value.1))
      && (r.Failure? ==> r.error == ForeignKeyError(n))
  {
    ValidShaped(src);
    var snap := ExportSnapshot(src, exportedAt);
    assert Header(snap, "replace") == Success(TablesObject(src));
    ReplaceExported(src, dst);
  }

  /** The delete-then-insert step, given the export's tables, yields the restored database and its counts. */
  lemma ReplaceExported(src: Db, dst: Db)
    requires Valid(src) && Shaped(src)
    ensures Distinct(InsertOrder)
    ensures var r := InsertTables(DeleteAll(dst, DeleteOrder), Validated(TablesObject(src)), InsertOrder, map[]);
      r.Success? && r.value.0 == Restored(dst, src) && CountsOf(src, r.value.1)
  {
    CopiedExported(src, dst);
    var done := InsertTables(DeleteAll(dst, DeleteOrder), Validated(TablesObject(src)), InsertOrder, map[]).value;
    RestoredFrom(done.0, src, dst);
    CountsFrom(done.1, src);
  }

  lemma RestoredFrom(db: Db, src: Db, dst: Db)
    requires forall t :: t in InsertOrder ==> Rows(db, t) == Rows(src, t)
    requires Rows(db, Activities) == Rows(dst, Activities)
    ensures db == Restored(dst, src)
  {
    Inserted();
    SameRows(db, Restored(dst, src));
  }

  lemma CountsFrom(counts: map<Table, nat>, src: Db)
    requires forall t :: t in counts <==> t in InsertOrder
    requires forall t :: t in InsertOrder ==> counts[t] == |Rows(src, t)|
    ensures CountsOf(src, counts)
  {
    Inserted();
  }

  /** Table by table: the insert loop over the export copies each table and counts its rows. */
  lemma CopiedExported(src: Db, dst: Db)
    requires Valid(src) && Shaped(src)
    ensures Distinct(InsertOrder)
    ensures var r := InsertTables(DeleteAll(dst, DeleteOrder), Validated(TablesObject(src)), InsertOrder, map[]);
      && r.Success?
      && (forall t :: t in r.value.1 <==> t in InsertOrder)
      && (forall t :: t in InsertOrder ==> Rows(r.value.0, t) == Rows(src, t) && t in r.value.1 && r.value.1[t] == |Rows(src, t)|)
      && Rows(r.value.0, Activities) == Rows(dst, Activities)
  {
    Inserted();
    Deleted();
    Exported();
    var loads := Validated(TablesObject(src));
    var emptied := DeleteAll(dst, DeleteOrder);
    forall t | t in InsertOrder
      ensures loads(t) == Success(Rows(src, t)) && Rows(emptied, t) == [] && Fits(t, Rows(src, t))
    {
      LoadedExported(src, t);
      assert Fits(t, Rows(src, t));
    }
    InsertAllExported(emptied, src, loads, InsertOrder, map[]);
    InsertTablesCounts(emptied, loads, InsertOrder, map[]);
  }
}
