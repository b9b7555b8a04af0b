/**
 * The PostgreSQL database as the synchroniser sees it through
 * `modules/Database.py`: named tables of rows. A filter matches with SQL
 * equality, under which NULL equals nothing; a table's unique constraint
 * (the `ON CONFLICT` target) makes an insert of a clashing row do nothing.
 * The `Database` class holds the tables and is updated in place by the
 * statements its methods issue.
 */
module Store {
  import opened Wrappers
  import opened Values
  import Sql

  type Table = seq<Row>
  type Tables = map<string, Table>

  // The tables the synchroniser reads and writes.
  const VideoTable: string := "videos"
  const UserIds: string := "user_ids"
  const Messages: string := "messages"
  const Emotes: string := "emotes"
  const NicknameTable: string := "nicknames"
  const NicknameMatches: string := "nickname_matches"

  /** The rows of `name`; a table never written is empty. */
  function TableOf(tables: Tables, name: string): Table {
    if name in tables then tables[name] else []
  }

  /** SQL `column = value` on one row: NULL compares equal to nothing. */
  predicate Has(row: Row, column: string, value: Value) {
    value != Null && Lookup(row, column) == Some(value)
  }

  /** `WHERE c1 = %s AND c2 = %s ...` holds of the row. */
  predicate Matches(row: Row, filter: Row) {
    forall i :: 0 <= i < |filter| ==> Has(row, filter[i].0, filter[i].1)
  }

  /**
   * The rows a filtered statement reaches, in table order; every row without a filter.
   * An empty filter `{}` would build `... WHERE ` with no condition, which PostgreSQL
   * refuses; no caller passes one, and here it reaches every row.
   */
  function Select(t: Table, filter: Option<Row>): (r: Table)
    ensures |r| <= |t|
    ensures filter.None? ==> r == t
    ensures forall row :: row in r <==> row in t && (filter.Some? ==> Matches(row, filter.value))
  {
    if t == [] then []
    else
      (if filter.None? || Matches(t[0], filter.value) then [t[0]] else []) + Select(t[1..], filter)
  }

  /** The `columns` argument of `GetEntries`: `*`, or named columns. */
  datatype Columns = All | Only(names: seq<string>)

  function Project(row: Row, columns: Columns): (r: Row)
    ensures columns.Only? ==> HasColumns(r, columns.names)
  {
    match columns
    case All => row
    case Only(names) => seq(|names|, i requires 0 <= i < |names| => (names[i], Lookup(row, names[i]).GetOr(Null)))
  }

  /** `GetEntries` on the store: the requested columns of the matching rows, in table order. */
  function Query(tables: Tables, table: string, columns: Columns, filter: Option<Row>): (r: Table)
    ensures |r| == |Select(TableOf(tables, table), filter)|
    ensures columns.All? ==> r == Select(TableOf(tables, table), filter)
    ensures columns.Only? ==> forall x :: x in r ==> HasColumns(x, columns.names)
  {
    var rows := Select(TableOf(tables, table), filter);
    seq(|rows|, i requires 0 <= i < |rows| => Project(rows[i], columns))
  }

  /** `GetEntries` returns exactly the projections of the rows the filter reaches. */
  lemma QueryMembers(tables: Tables, table: string, columns: Columns, filter: Option<Row>)
    ensures var r := Query(tables, table, columns, filter);
      forall x :: x in r <==> exists row :: Reached(tables, table, filter, row) && x == Project(row, columns)
  {
    var rows := Select(TableOf(tables, table), filter);
    var r := Query(tables, table, columns, filter);
    forall row | row in rows ensures Project(row, columns) in r {
      var i :| 0 <= i < |rows| && rows[i] == row;
      assert r[i] == Project(row, columns);
    }
  }

  /** The row is in the table and the filter, if any, matches it. */
  predicate Reached(tables: Tables, table: string, filter: Option<Row>, row: Row) {
    row in TableOf(tables, table) && (filter.Some? ==> Matches(row, filter.value))
  }

  /** `len(GetEntries(..., filter={column: value})) == 0`. */
  predicate Absent(tables: Tables, table: string, column: string, value: Value) {
    Select(TableOf(tables, table), Some([(column, value)])) == []
  }

  lemma AbsentMeans(tables: Tables, table: string, column: string, value: Value)
    ensures Absent(tables, table, column, value) <==>
      forall row :: row in TableOf(tables, table) ==> !Has(row, column, value)
  {
    var t := TableOf(tables, table);
    var r := Select(t, Some([(column, value)]));
    if !Absent(tables, table, column, value) {
      assert r[0] in r;
      assert Matches(r[0], [(column, value)]);
      assert [(column, value)][0] == (column, value);
    } else {
      forall row | row in t
        ensures !Has(row, column, value)
      {
        assert Has(row, column, value) ==> Matches(row, [(column, value)]);
      }
    }
  }

  // ----- inserts -----

  /** `b` agrees with `a` on every conflict column, with a non-NULL value. */
  predicate Agree(a: Row, b: Row, columns: seq<string>) {
    forall j :: 0 <= j < |columns| ==> Lookup(b, columns[j]).Some? && Has(a, columns[j], Lookup(b, columns[j]).value)
  }

  /** The unique constraint on `columns` rejects `row`. */
  predicate Conflicts(t: Table, row: Row, columns: seq<string>) {
    columns != [] && exists i :: 0 <= i < |t| && Agree(t[i], row, columns)
  }

  /** One `INSERT`, with `ON CONFLICT (columns) DO NOTHING` when `columns` is not empty. */
  function Insert(t: Table, row: Row, columns: seq<string>): (r: Table)
    ensures Conflicts(t, row, columns) ==> r == t
    ensures !Conflicts(t, row, columns) ==> r == t + [row]
  {
    if Conflicts(t, row, columns) then t else t + [row]
  }

  /** The statements of one `InsertEntries` call, executed in list order. */
  function InsertAll(t: Table, rows: seq<Row>, columns: seq<string>): Table
    decreases |rows|
  {
    if rows == [] then t else InsertAll(Insert(t, rows[0], columns), rows[1..], columns)
  }

  /** Splitting at `,`: the column list of an `ON CONFLICT` target. */
  function ConflictColumns(conflict: string): (cs: seq<string>)
    ensures conflict == "" <==> cs == []
  {
    if conflict == "" then [] else Split(conflict)
  }

  function Split(s: string): (parts: seq<string>)
    ensures |parts| >= 1
    decreases |s|
  {
    if s == [] then [""]
    else
      var rest := Split(s[1..]);
      if s[0] == ',' then [""] + rest else [[s[0]] + rest[0]] + rest[1..]
  }

  // ----- updates and deletes -----

  /** One `UPDATE table SET column = value WHERE filterColumn = filterValue`. */
  function UpdateAll(t: Table, column: string, value: Value, filterColumn: string, filterValue: Value): (r: Table)
    ensures |r| == |t|
  {
    seq(|t|, i requires 0 <= i < |t| =>
      if Has(t[i], filterColumn, filterValue) then Sql.DictSet(t[i], column, value) else t[i])
  }

  /** The rows a `DELETE` leaves: none without a filter, the non-matching ones with one. */
  function DeleteWhere(t: Table, filter: Option<Row>): (r: Table)
    ensures filter.None? ==> r == []
    ensures filter.Some? ==> forall row :: row in r <==> row in t && !Matches(row, filter.value)
  {
    match filter
    case None => []
    case Some(f) =>
      if t == [] then [] else (if Matches(t[0], f) then [] else [t[0]]) + DeleteWhere(t[1..], filter)
  }

  /** The update writes `column` on exactly the matching rows and changes nothing else. */
  lemma UpdateEffect(t: Table, column: string, value: Value, filterColumn: string, filterValue: Value, i: nat, k: string)
    requires i < |t|
    ensures var r := UpdateAll(t, column, value, filterColumn, filterValue);
      && (Has(t[i], filterColumn, filterValue) ==> Lookup(r[i], column) == Some(value))
      && (!Has(t[i], filterColumn, filterValue) ==> r[i] == t[i])
      && (k != column ==> Lookup(r[i], k) == Lookup(t[i], k))
  {
  }

  // ----- unique keys -----

  /** No two rows share a non-NULL value under `key`. */
  predicate UniqueOn(t: Table, key: string) {
    forall i, j :: 0 <= i < j < |t| ==> !Shared(t[i], t[j], key)
  }

  /** Both rows hold the same non-NULL value under `key`. */
  predicate Shared(a: Row, b: Row, key: string) {
    Lookup(a, key).Some? && Has(b, key, Lookup(a, key).value)
  }

  /** Inserting after finding no row with the key's value keeps the key unique. */
  lemma InsertIfAbsent(t: Table, row: Row, key: string)
    requires UniqueOn(t, key)
    requires forall r :: r in t ==> !Has(r, key, Lookup(row, key).GetOr(Null))
    ensures UniqueOn(t + [row], key)
  {
    var t' := t + [row];
    forall i, j | 0 <= i < j < |t'|
      ensures !Shared(t'[i], t'[j], key)
    {
      if j == |t| {
        assert t'[i] in t;
      }
    }
  }

  /** An insert guarded by a one-column unique constraint keeps that column unique. */
  lemma InsertConflictUnique(t: Table, row: Row, key: string)
    requires UniqueOn(t, key)
    ensures UniqueOn(Insert(t, row, [key]), key)
  {
    if !Conflicts(t, row, [key]) {
      forall r | r in t
        ensures !Has(r, key, Lookup(row, key).GetOr(Null))
      {
        var i :| 0 <= i < |t| && t[i] == r;
        assert !Agree(t[i], row, [key]);
        assert [key][0] == key;
      }
      InsertIfAbsent(t, row, key);
    }
  }

  lemma {:induction false} InsertAllUnique(t: Table, rows: seq<Row>, key: string)
    requires UniqueOn(t, key)
    ensures UniqueOn(InsertAll(t, rows, [key]), key)
    decreases |rows|
  {
    if rows != [] {
      InsertConflictUnique(t, rows[0], key);
      InsertAllUnique(Insert(t, rows[0], [key]), rows[1..], key);
    }
  }

  /** An update of another column keeps the key's values, hence its uniqueness. */
  lemma UpdateUnique(t: Table, column: string, value: Value, filterColumn: string, filterValue: Value, key: string)
    requires UniqueOn(t, key) && column != key
    ensures UniqueOn(UpdateAll(t, column, value, filterColumn, filterValue), key)
  {
    var r := UpdateAll(t, column, value, filterColumn, filterValue);
    forall i | 0 <= i < |t|
      ensures Lookup(r[i], key) == Lookup(t[i], key)
    {
      UpdateEffect(t, column, value, filterColumn, filterValue, i, key);
    }
    forall i, j | 0 <= i < j < |r|
      ensures !Shared(r[i], r[j], key)
    {
      assert Lookup(r[i], key) == Lookup(t[i], key) && Lookup(r[j], key) == Lookup(t[j], key);
    }
  }

  // ----- fetched rows -----

  predicate DistinctKeys(row: Row) {
    forall i, j :: 0 <= i < j < |row| ==> row[i].0 != row[j].0
  }

  lemma {:induction false} DictSetFresh(d: Row, k: string, v: Value)
    requires k !in Keys(d)
    ensures Sql.DictSet(d, k, v) == d + [(k, v)]
    decreases |d|
  {
    if d != [] {
      DictSetFresh(d[1..], k, v);
    }
  }

  /**
   * A fetched row comes back as its stored row: zipping a row's column
   * names with its values rebuilds the row when the names are distinct.
   */
  lemma {:induction false} ZipRebuilds(d: Row, row: Row)
    requires DistinctKeys(d + row)
    ensures Sql.ZipInto(d, Keys(row), Sql.ParamsOf(row)) == d + row
    decreases |row|
  {
    if row == [] {
      assert d + row == d;
    } else {
      forall i | 0 <= i < |d|
        ensures d[i].0 != row[0].0
      {
        assert (d + row)[i] == d[i] && (d + row)[|d|] == row[0];
      }
      NotInKeys(d, row[0].0);
      DictSetFresh(d, row[0].0, row[0].1);
      assert d + [row[0]] + row[1..] == d + row;
      assert Keys(row)[1..] == Keys(row[1..]);
      assert Sql.ParamsOf(row)[1..] == Sql.ParamsOf(row[1..]);
      ZipRebuilds(d + [row[0]], row[1..]);
    }
  }

  lemma {:induction false} NotInKeys(d: Row, k: string)
    requires forall i :: 0 <= i < |d| ==> d[i].0 != k
    ensures k !in Keys(d)
    decreases |d|
  {
    if d != [] {
      assert forall i :: 0 <= i < |d[1..]| ==> d[1..][i] == d[i + 1];
      NotInKeys(d[1..], k);
    }
  }

  /** The tables after `InsertEntries(table, rows, conflict)`. */
  function AfterInsert(tables: Tables, table: string, rows: seq<Row>, conflict: string): Tables {
    tables[table := InsertAll(TableOf(tables, table), rows, ConflictColumns(conflict))]
  }

  /** The tables after `UpdateEntry(table, column, value, filterColumn, filterValue)`. */
  function AfterUpdate(tables: Tables, table: string, column: string, value: Value, filterColumn: string, filterValue: Value): Tables {
    tables[table := UpdateAll(TableOf(tables, table), column, value, filterColumn, filterValue)]
  }

  /** `for column, value in entry.items(): UpdateEntry(table, column, value, filterColumn, filterValue)`. */
  function UpdateColumns(tables: Tables, table: string, entry: Row, filterColumn: string, filterValue: Value): Tables
    decreases |entry|
  {
    if entry == [] then tables
    else UpdateColumns(AfterUpdate(tables, table, entry[0].0, entry[0].1, filterColumn, filterValue), table, entry[1..], filterColumn, filterValue)
  }

  /** The row store: every table, updated in place by the statements issued against it. */
  class Database {
    var tables: Tables

    constructor(tables: Tables)
      ensures this.tables == tables
    {
      this.tables := tables;
    }

    /** `GetEntries(cursor, table, columns, filter)`. */
    function GetEntries(table: string, columns: Columns, filter: Option<Row>): (r: Table)
      reads this
      ensures |r| == |Select(TableOf(tables, table), filter)|
      ensures columns.All? ==> r == Select(TableOf(tables, table), filter)
      ensures columns.Only? ==> forall x :: x in r ==> HasColumns(x, columns.names)
      ensures forall x :: x in r <==> exists row :: Reached(tables, table, filter, row) && x == Project(row, columns)
    {
      QueryMembers(tables, table, columns, filter);
      Query(tables, table, columns, filter)
    }

    /** `InsertEntries`: one `INSERT` per row, in order, each executed before the next is built. */
    method InsertEntries(table: string, rows: seq<Row>, conflict: string) returns (issued: seq<Sql.Statement>)
      modifies this
      ensures issued == Sql.InsertStatements(table, rows, conflict)
      ensures tables == AfterInsert(old(tables), table, rows, conflict)
    {
      var columns := ConflictColumns(conflict);
      var t := TableOf(tables, table);
      issued := [];
      var i := 0;
      InsertAllStart(t, rows, columns);
      while i < |rows|
        invariant 0 <= i <= |rows| && tables == old(tables)
        invariant issued == Sql.InsertStatements(table, rows[..i], conflict)
        invariant InsertAll(t, rows[i..], columns) == InsertAll(TableOf(old(tables), table), rows, columns)
      {
        StatementsAppend(table, rows, i, conflict);
        issued := issued + [Sql.InsertStatement(table, rows[i], conflict)];
        InsertAllStep(t, rows, i, columns);
        t := Insert(t, rows[i], columns);
        i := i + 1;
      }
      InsertAllDone(t, rows, columns);
      tables := tables[table := t];
    }

    /** `UpdateEntry`. */
    method UpdateEntry(table: string, column: string, value: Value, filterColumn: string, filterValue: Value)
      returns (issued: Sql.Statement)
      modifies this
      ensures issued == Sql.UpdateStatement(table, column, value, filterColumn, filterValue)
      ensures tables == AfterUpdate(old(tables), table, column, value, filterColumn, filterValue)
    {
      issued := Sql.UpdateStatement(table, column, value, filterColumn, filterValue);
      tables := tables[table := UpdateAll(TableOf(tables, table), column, value, filterColumn, filterValue)];
    }

    /** `DeleteEntries`. */
    method DeleteEntries(table: string, filter: Option<Row>) returns (issued: Sql.Statement)
      modifies this
      ensures issued == Sql.DeleteStatement(table, filter)
      ensures tables == old(tables)[table := DeleteWhere(TableOf(old(tables), table), filter)]
    {
      issued := Sql.DeleteStatement(table, filter);
      tables := tables[table := DeleteWhere(TableOf(tables, table), filter)];
    }
  }

  lemma StatementsAppend(table: string, rows: seq<Row>, i: nat, conflict: string)
    requires i < |rows|
    ensures Sql.InsertStatements(table, rows[..i + 1], conflict)
      == Sql.InsertStatements(table, rows[..i], conflict) + [Sql.InsertStatement(table, rows[i], conflict)]
  {
    var l := Sql.InsertStatements(table, rows[..i + 1], conflict);
    var r := Sql.InsertStatements(table, rows[..i], conflict) + [Sql.InsertStatement(table, rows[i], conflict)];
    assert |l| == |r|;
    forall j | 0 <= j < |l|
      ensures l[j] == r[j]
    {
      assert rows[..i + 1][j] == rows[j];
    }
  }

  lemma InsertAllStep(t: Table, rows: seq<Row>, i: nat, columns: seq<string>)
    requires i < |rows|
    ensures InsertAll(t, rows[i..], columns) == InsertAll(Insert(t, rows[i], columns), rows[i + 1..], columns)
  {
    assert rows[i..][0] == rows[i] && rows[i..][1..] == rows[i + 1..];
  }

  lemma InsertAllStart(t: Table, rows: seq<Row>, columns: seq<string>)
    ensures InsertAll(t, rows[0..], columns) == InsertAll(t, rows, columns)
  {
    assert rows[0..] == rows;
  }

  lemma InsertAllDone(t: Table, rows: seq<Row>, columns: seq<string>)
    ensures InsertAll(t, rows[|rows|..], columns) == t
    ensures rows[..|rows|] == rows
  {
    assert rows[|rows|..] == [];
  }

  /** The per-column update loop of the callers, one `UpdateEntry` per column of `entry`. */
  method UpdateEach(db: Database, table: string, entry: Row, filterColumn: string, filterValue: Value)
    modifies db
    ensures db.tables == UpdateColumns(old(db.tables), table, entry, filterColumn, filterValue)
  {
    ghost var goal := UpdateColumns(db.tables, table, entry, filterColumn, filterValue);
    for k := 0 to |entry|
      invariant UpdateColumns(db.tables, table, entry[k..], filterColumn, filterValue) == goal
    {
      assert entry[k..][1..] == entry[k + 1..];
      var _ := db.UpdateEntry(table, entry[k].0, entry[k].1, filterColumn, filterValue);
    }
    assert entry[|entry|..] == [];
  }

  // ----- flags kept per id -----

  /** Every row of `table` whose `id` is `id` holds `value` under `column`. */
  predicate Flagged(tables: Tables, table: string, id: Value, column: string, value: Value) {
    forall i :: 0 <= i < |TableOf(tables, table)| && Has(TableOf(tables, table)[i], "id", id) ==>
      Lookup(TableOf(tables, table)[i], column) == Some(value)
  }

  /** Setting a column on the rows of an id flags every row that has it. */
  lemma SetFlag(tables: Tables, table: string, column: string, value: Value, id: Value)
    ensures Flagged(AfterUpdate(tables, table, column, value, "id", id), table, id, column, value)
  {
    var t := TableOf(tables, table);
    var r := TableOf(AfterUpdate(tables, table, column, value, "id", id), table);
    forall i | 0 <= i < |r| && Has(r[i], "id", id)
      ensures Lookup(r[i], column) == Some(value)
    {
      UpdateEffect(t, column, value, "id", id, i, "id");
    }
  }

  /**
   * An update that leaves every row's id alone (or rewrites the rows of `id`
   * with `id` itself) and writes `column` only as `value` keeps a flag.
   */
  lemma KeepFlag(tables: Tables, table: string, column': string, value': Value, filter: Value,
                 id: Value, column: string, value: Value)
    requires column' != "id" || (value' == id && filter == id)
    requires column' == column ==> value' == value
    requires Flagged(tables, table, id, column, value)
    ensures Flagged(AfterUpdate(tables, table, column', value', "id", filter), table, id, column, value)
  {
    var t := TableOf(tables, table);
    var r := TableOf(AfterUpdate(tables, table, column', value', "id", filter), table);
    forall i | 0 <= i < |r| && Has(r[i], "id", id)
      ensures Lookup(r[i], column) == Some(value)
    {
      UpdateEffect(t, column', value', "id", filter, i, "id");
      UpdateEffect(t, column', value', "id", filter, i, column);
    }
  }

  /** Updating columns that leave ids alone and write `column` only as `value` keeps a flag on `column`. */
  lemma {:induction false} UpdateColumnsKeep(tables: Tables, table: string, entry: Row, filter: Value,
                                             id: Value, column: string, value: Value)
    requires forall k :: 0 <= k < |entry| ==> entry[k].0 != "id" || (entry[k].1 == id && filter == id)
    requires forall k :: 0 <= k < |entry| ==> entry[k].0 == column ==> entry[k].1 == value
    requires Flagged(tables, table, id, column, value)
    ensures Flagged(UpdateColumns(tables, table, entry, "id", filter), table, id, column, value)
    decreases |entry|
  {
    if entry != [] {
      KeepFlag(tables, table, entry[0].0, entry[0].1, filter, id, column, value);
      UpdateColumnsKeep(AfterUpdate(tables, table, entry[0].0, entry[0].1, "id", filter), table, entry[1..], filter, id, column, value);
    }
  }

  /** Every row of `table` with this id holds every column of `entry`. */
  predicate Carries(tables: Tables, table: string, id: Value, entry: Row) {
    forall k :: 0 <= k < |entry| ==> Flagged(tables, table, id, entry[k].0, entry[k].1)
  }

  /** With distinct keys, each column reads back its own value. */
  lemma {:induction false} LookupDistinct(row: Row, k: nat)
    requires DistinctKeys(row) && k < |row|
    ensures Lookup(row, row[k].0) == Some(row[k].1)
    decreases k
  {
    if k > 0 {
      assert row[0].0 != row[k].0;
      assert row[1..][k - 1] == row[k];
      LookupDistinct(row[1..], k - 1);
    }
  }

  /** Inserting a row whose id no row had: its rows are that row alone, which carries it. */
  lemma InsertCarries(tables: Tables, table: string, entry: Row, id: Value)
    requires Absent(tables, table, "id", id) && id != Null
    requires DistinctKeys(entry) && Lookup(entry, "id") == Some(id)
    ensures Carries(AfterInsert(tables, table, [entry], ""), table, id, entry)
    ensures !Absent(AfterInsert(tables, table, [entry], ""), table, "id", id)
  {
    var t := TableOf(tables, table);
    assert InsertAll(t, [entry], []) == InsertAll(t + [entry], [], []);
    var r := TableOf(AfterInsert(tables, table, [entry], ""), table);
    assert r == t + [entry];
    AbsentMeans(tables, table, "id", id);
    assert forall i :: 0 <= i < |t| ==> r[i] in t;
    forall k | 0 <= k < |entry|
      ensures Flagged(AfterInsert(tables, table, [entry], ""), table, id, entry[k].0, entry[k].1)
    {
      LookupDistinct(entry, k);
    }
    AbsentMeans(AfterInsert(tables, table, [entry], ""), table, "id", id);
    assert r[|t|] in r;
  }

  /** One update of the rows of an id keeps some row holding it when a non-NULL id is (re)written as itself. */
  lemma UpdateKeepsPresent(tables: Tables, table: string, column: string, value: Value, id: Value)
    requires !Absent(tables, table, "id", id)
    requires column == "id" ==> value == id
    ensures !Absent(AfterUpdate(tables, table, column, value, "id", id), table, "id", id)
  {
    var t := TableOf(tables, table);
    var after := AfterUpdate(tables, table, column, value, "id", id);
    var r := TableOf(after, table);
    AbsentMeans(tables, table, "id", id);
    var row :| row in t && Has(row, "id", id);
    var i :| 0 <= i < |t| && t[i] == row;
    UpdateEffect(t, column, value, "id", id, i, "id");
    AbsentMeans(after, table, "id", id);
    assert r[i] in r;
  }

  /** Updating the rows of an existing id column by column leaves every such row carrying the entry. */
  lemma {:induction false} UpdateCarries(tables: Tables, table: string, entry: Row, id: Value)
    requires !Absent(tables, table, "id", id)
    requires DistinctKeys(entry)
    requires forall k :: 0 <= k < |entry| ==> entry[k].0 == "id" ==> entry[k].1 == id
    ensures Carries(UpdateColumns(tables, table, entry, "id", id), table, id, entry)
    ensures !Absent(UpdateColumns(tables, table, entry, "id", id), table, "id", id)
    decreases |entry|
  {
    if entry != [] {
      var t1 := AfterUpdate(tables, table, entry[0].0, entry[0].1, "id", id);
      var rest := entry[1..];
      var final := UpdateColumns(t1, table, rest, "id", id);
      UpdateKeepsPresent(tables, table, entry[0].0, entry[0].1, id);
      assert forall k :: 0 <= k < |rest| ==> rest[k] == entry[k + 1];
      UpdateCarries(t1, table, rest, id);
      SetFlag(tables, table, entry[0].0, entry[0].1, id);
      UpdateColumnsKeep(t1, table, rest, id, id, entry[0].0, entry[0].1);
      forall k | 0 <= k < |entry|
        ensures Flagged(final, table, id, entry[k].0, entry[k].1)
      {
        if k > 0 {
          assert entry[k] == rest[k - 1];
        }
      }
    }
  }
}
