/**
 * The query text `modules/Database.py` hands to the cursor: `INSERT`,
 * `UPDATE`, `DELETE` and `SELECT` statements with `%s` placeholders, and
 * the zip of a fetched tuple with the cursor's column names. Executing the
 * statements is the row store's business, not this module's.
 */
module Sql {
  import opened Wrappers
  import opened Values

  /** A query string and the parameters bound to its `%s` placeholders, in order. */
  datatype Statement = Statement(query: string, params: seq<Value>)

  /** `sep.join(parts)`. */
  function Join(sep: string, parts: seq<string>): string {
    if parts == [] then ""
    else if |parts| == 1 then parts[0]
    else parts[0] + sep + Join(sep, parts[1..])
  }

  function Repeat(s: string, n: nat): (r: seq<string>)
    ensures |r| == n && forall i :: 0 <= i < n ==> r[i] == s
  {
    if n == 0 then [] else [s] + Repeat(s, n - 1)
  }

  function ParamsOf(row: Row): (vs: seq<Value>)
    ensures |vs| == |row| && forall i :: 0 <= i < |row| ==> vs[i] == row[i].1
  {
    if row == [] then [] else [row[0].1] + ParamsOf(row[1..])
  }

  // ----- statements -----

  /** The clause appended when a conflict target is given (`if conflict:` is false for "" and `None`). */
  function ConflictText(conflict: string): string {
    if conflict != "" then " ON CONFLICT (" + conflict + ") DO NOTHING" else ""
  }

  /** The statement `InsertEntries` issues for one row. */
  function InsertStatement(table: string, row: Row, conflict: string): (st: Statement)
    ensures st.params == ParamsOf(row)
  {
    var head := "INSERT INTO " + table + " (" + Join(", ", Keys(row)) + ") VALUES (";
    var placeholders := Join(", ", Repeat("%s", |row|));
    Statement(head + placeholders + ")" + ConflictText(conflict), ParamsOf(row))
  }

  /** One statement per row, in list order; none for an empty list. */
  function InsertStatements(table: string, rows: seq<Row>, conflict: string): (sts: seq<Statement>)
    ensures |sts| == |rows|
    ensures forall i :: 0 <= i < |rows| ==> sts[i] == InsertStatement(table, rows[i], conflict)
  {
    if rows == [] then [] else [InsertStatement(table, rows[0], conflict)] + InsertStatements(table, rows[1..], conflict)
  }

  /** `UpdateEntry`: `UPDATE t SET d = %s WHERE f = %s` with `(data_value, filter_value)`. */
  function UpdateStatement(table: string, column: string, value: Value, filterColumn: string, filterValue: Value): Statement {
    Statement("UPDATE " + table + " SET " + column + " = %s WHERE " + filterColumn + " = %s", [value, filterValue])
  }

  /** `" AND ".join(f'{col} = %s' for col in filter.keys())`. */
  function Conditions(columns: seq<string>): (cs: seq<string>)
    ensures |cs| == |columns| && forall i :: 0 <= i < |columns| ==> cs[i] == columns[i] + " = %s"
  {
    if columns == [] then [] else [columns[0] + " = %s"] + Conditions(columns[1..])
  }

  function WhereClause(filter: Row): string {
    Join(" AND ", Conditions(Keys(filter)))
  }

  /** `DeleteEntries`: without a filter the statement has no `WHERE` and removes every row. */
  function DeleteStatement(table: string, filter: Option<Row>): Statement {
    match filter
    case None => Statement("DELETE FROM " + table, [])
    case Some(f) => Statement("DELETE FROM " + table + " WHERE " + WhereClause(f), ParamsOf(f))
  }

  /** The query `GetEntries` executes for `columns` (a column list as text, `*` by default). */
  function SelectStatement(table: string, columns: string, filter: Option<Row>): Statement {
    match filter
    case None => Statement("SELECT " + columns + " FROM " + table, [])
    case Some(f) => Statement("SELECT " + columns + " FROM " + table + " WHERE " + WhereClause(f), ParamsOf(f))
  }

  // ----- placeholders -----

  /** The number of `%s` placeholders in `s`. */
  function Placeholders(s: string): nat {
    if |s| < 2 then 0
    else (if s[0] == '%' && s[1] == 's' then 1 else 0) + Placeholders(s[1..])
  }

  /** Text in which no `%` occurs: table and column names. */
  predicate Plain(s: string) {
    forall i :: 0 <= i < |s| ==> s[i] != '%'
  }

  predicate AllPlain(ss: seq<string>) {
    forall i :: 0 <= i < |ss| ==> Plain(ss[i])
  }

  /** Concatenation adds the counts when no placeholder straddles the seam. */
  lemma {:induction false} PlaceholdersConcat(a: string, b: string)
    requires a == [] || b == [] || a[|a| - 1] != '%'
    ensures Placeholders(a + b) == Placeholders(a) + Placeholders(b)
  {
    if a == [] {
      assert a + b == b;
    } else if |a| == 1 {
      if |b| >= 1 {
        assert (a + b)[1..] == b;
        assert (a + b)[0] == a[0] && (a + b)[1] == b[0];
      }
    } else {
      assert (a + b)[1..] == a[1..] + b;
      PlaceholdersConcat(a[1..], b);
    }
  }

  lemma PlainNone(s: string)
    requires Plain(s)
    ensures Placeholders(s) == 0
    decreases |s|
  {
    if |s| >= 2 {
      PlainNone(s[1..]);
    }
  }

  lemma PlainConcat(a: string, b: string)
    requires Plain(a) && Plain(b)
    ensures Plain(a + b)
  {
    assert forall i :: 0 <= i < |a + b| ==> (a + b)[i] == if i < |a| then a[i] else b[i - |a|];
  }

  /** `s + tail` with a plain `s` counts `tail`'s placeholders, whichever side the seam falls on. */
  lemma PlainPrefix(s: string, tail: string)
    requires Plain(s)
    ensures Placeholders(s + tail) == Placeholders(tail)
  {
    PlaceholdersConcat(s, tail);
    PlainNone(s);
  }

  /** Joining strings whose only `%` opens their last two characters `%s`, with a plain separator. */
  predicate EndsWithPlaceholder(s: string) {
    |s| >= 2 && s[|s| - 2..] == "%s" && Plain(s[..|s| - 2])
  }

  lemma {:induction false} EndsWithPlaceholderCount(s: string)
    requires EndsWithPlaceholder(s)
    ensures Placeholders(s) == 1
  {
    var p := s[..|s| - 2];
    assert s == p + "%s";
    PlainPrefix(p, "%s");
    assert Placeholders("%s") == 1 by { assert "%s"[1..] == "s"; }
  }

  /** Each part carries exactly one trailing placeholder, so the join carries one per part. */
  lemma {:induction false} JoinPlaceholders(sep: string, parts: seq<string>)
    requires Plain(sep) && |sep| >= 1
    requires forall i :: 0 <= i < |parts| ==> EndsWithPlaceholder(parts[i])
    ensures Placeholders(Join(sep, parts)) == |parts|
  {
    if parts == [] {
    } else if |parts| == 1 {
      EndsWithPlaceholderCount(parts[0]);
    } else {
      var rest := Join(sep, parts[1..]);
      JoinPlaceholders(sep, parts[1..]);
      assert Join(sep, parts) == parts[0] + (sep + rest);
      PartThenSeparator(parts[0], sep, rest);
    }
  }

  /** A part ending in its one placeholder, then a plain separator, adds one placeholder. */
  lemma PartThenSeparator(part: string, sep: string, rest: string)
    requires EndsWithPlaceholder(part) && Plain(sep)
    ensures Placeholders(part + (sep + rest)) == 1 + Placeholders(rest)
  {
    EndsWithPlaceholderCount(part);
    assert part[|part| - 1] == 's';
    PlaceholdersConcat(part, sep + rest);
    PlainPrefix(sep, rest);
  }

  /** The join of plain parts with a plain separator is plain. */
  lemma {:induction false} JoinPlain(sep: string, parts: seq<string>)
    requires Plain(sep) && AllPlain(parts)
    ensures Plain(Join(sep, parts))
  {
    if |parts| >= 2 {
      JoinPlain(sep, parts[1..]);
      PlainConcat(parts[0], sep);
      PlainConcat(parts[0] + sep, Join(sep, parts[1..]));
    }
  }

  lemma KeysPlain(row: Row)
    requires forall i :: 0 <= i < |row| ==> Plain(row[i].0)
    ensures AllPlain(Keys(row))
    decreases |row|
  {
    if row != [] {
      KeysPlain(row[1..]);
      var ks := Keys(row);
      assert ks == [row[0].0] + Keys(row[1..]);
      forall i | 0 <= i < |ks|
        ensures Plain(ks[i])
      {
        if i > 0 {
          assert ks[i] == Keys(row[1..])[i - 1];
        }
      }
    }
  }

  /** The `WHERE` clause has one placeholder per filter key. */
  lemma WherePlaceholders(filter: Row)
    requires forall i :: 0 <= i < |filter| ==> Plain(filter[i].0)
    ensures Placeholders(WhereClause(filter)) == |filter|
  {
    var keys := Keys(filter);
    KeysPlain(filter);
    KeysLength(filter);
    var cs := Conditions(keys);
    forall i | 0 <= i < |cs|
      ensures EndsWithPlaceholder(cs[i])
    {
      assert cs[i] == keys[i] + " = %s";
      assert cs[i][..|cs[i]| - 2] == keys[i] + " = ";
      PlainConcat(keys[i], " = ");
    }
    JoinPlaceholders(" AND ", cs);
  }

  lemma KeysLength(row: Row)
    ensures |Keys(row)| == |row|
    decreases |row|
  {
    if row != [] {
      KeysLength(row[1..]);
    }
  }

  /** A filtered `DELETE` binds as many values as it has placeholders; an unfiltered one binds none. */
  lemma DeletePlaceholders(table: string, filter: Option<Row>)
    requires Plain(table)
    requires filter.Some? ==> forall i :: 0 <= i < |filter.value| ==> Plain(filter.value[i].0)
    ensures Placeholders(DeleteStatement(table, filter).query) == |DeleteStatement(table, filter).params|
    ensures filter.None? ==> DeleteStatement(table, filter).query == "DELETE FROM " + table
  {
    PlainConcat("DELETE FROM ", table);
    if filter.Some? {
      PlainConcat("DELETE FROM " + table, " WHERE ");
      WherePlaceholders(filter.value);
      PlainPrefix("DELETE FROM " + table + " WHERE ", WhereClause(filter.value));
    } else {
      PlainNone("DELETE FROM " + table);
    }
  }

  /** The same for the `SELECT` of `GetEntries`. */
  lemma SelectPlaceholders(table: string, columns: string, filter: Option<Row>)
    requires Plain(table) && Plain(columns)
    requires filter.Some? ==> forall i :: 0 <= i < |filter.value| ==> Plain(filter.value[i].0)
    ensures Placeholders(SelectStatement(table, columns, filter).query) == |SelectStatement(table, columns, filter).params|
  {
    var head := "SELECT " + columns + " FROM " + table;
    PlainConcat("SELECT ", columns);
    PlainConcat("SELECT " + columns, " FROM ");
    PlainConcat("SELECT " + columns + " FROM ", table);
    if filter.Some? {
      PlainConcat(head, " WHERE ");
      WherePlaceholders(filter.value);
      PlainPrefix(head + " WHERE ", WhereClause(filter.value));
    } else {
      PlainNone(head);
    }
  }

  /** `UpdateEntry` binds exactly its two placeholders. */
  lemma UpdatePlaceholders(table: string, column: string, value: Value, filterColumn: string, filterValue: Value)
    requires Plain(table) && Plain(column) && Plain(filterColumn)
    ensures Placeholders(UpdateStatement(table, column, value, filterColumn, filterValue).query) == 2
    ensures UpdateStatement(table, column, value, filterColumn, filterValue).params == [value, filterValue]
  {
    var a := "UPDATE " + table + " SET " + column + " = ";
    var b := " WHERE " + filterColumn + " = ";
    PlainConcat("UPDATE ", table);
    PlainConcat("UPDATE " + table, " SET ");
    PlainConcat("UPDATE " + table + " SET ", column);
    PlainConcat("UPDATE " + table + " SET " + column, " = ");
    PlainConcat(" WHERE ", filterColumn);
    PlainConcat(" WHERE " + filterColumn, " = ");
    UpdateQueryShape(table, column, value, filterColumn, filterValue);
    assert EndsWithPlaceholder(b + "%s") by { assert (b + "%s")[..|b + "%s"| - 2] == b; }
    EndsWithPlaceholderCount(b + "%s");
    PlainPrefix(a, "%s" + (b + "%s"));
    PlaceholdersConcat("%s", b + "%s");
    assert Placeholders("%s") == 1 by { assert "%s"[1..] == "s"; }
  }
  /** The `UPDATE` text split at its two placeholders. */
  lemma UpdateQueryShape(table: string, column: string, value: Value, filterColumn: string, filterValue: Value)
    ensures UpdateStatement(table, column, value, filterColumn, filterValue).query ==
      ("UPDATE " + table + " SET " + column + " = ") + ("%s" + ((" WHERE " + filterColumn + " = ") + "%s"))
  {
  }


  lemma {:induction false} JoinLast(sep: string, parts: seq<string>)
    requires parts != [] && parts[|parts| - 1] != []
    ensures var j := Join(sep, parts); j != [] && j[|j| - 1] == parts[|parts| - 1][|parts[|parts| - 1]| - 1]
  {
    if |parts| >= 2 {
      JoinLast(sep, parts[1..]);
    }
  }

  lemma RepeatPlaceholders(n: nat)
    requires n >= 1
    ensures Placeholders(Join(", ", Repeat("%s", n))) == n
    ensures var j := Join(", ", Repeat("%s", n)); j != [] && j[|j| - 1] == 's'
  {
    var ps := Repeat("%s", n);
    forall i | 0 <= i < |ps|
      ensures EndsWithPlaceholder(ps[i])
    {
      assert ps[i][..0] == "";
    }
    JoinPlaceholders(", ", ps);
    JoinLast(", ", ps);
  }

  lemma ColumnsPlain(row: Row)
    requires forall i :: 0 <= i < |row| ==> Plain(row[i].0)
    ensures Plain(Join(", ", Keys(row)))
  {
    KeysPlain(row);
    JoinPlain(", ", Keys(row));
  }

  lemma InsertHeadPlain(table: string, columns: string)
    requires Plain(table) && Plain(columns)
    ensures Plain("INSERT INTO " + table + " (" + columns + ") VALUES (")
  {
    PlainConcat("INSERT INTO ", table);
    PlainConcat("INSERT INTO " + table, " (");
    PlainConcat("INSERT INTO " + table + " (", columns);
    PlainConcat("INSERT INTO " + table + " (" + columns, ") VALUES (");
  }

  /** A placeholder list between plain text has the list's count. */
  lemma {:induction false} Bracketed(head: string, list: string, tail: string, n: nat)
    requires Plain(head) && Plain(tail)
    requires Placeholders(list) == n && list != [] && list[|list| - 1] == 's'
    ensures Placeholders(head + list + ")" + tail) == n
  {
    PlainPrefix(head, list);
    var a := head + list;
    assert a[|a| - 1] == 's';
    PlaceholdersConcat(a, ")");
    assert Placeholders(")") == 0;
    var b := a + ")";
    assert b[|b| - 1] == ')';
    PlaceholdersConcat(b, tail);
    PlainNone(tail);
  }

  /** An `INSERT` has one placeholder per column, the values bound in the same key order. */
  lemma InsertPlaceholders(table: string, row: Row, conflict: string)
    requires Plain(table) && Plain(conflict) && row != []
    requires forall i :: 0 <= i < |row| ==> Plain(row[i].0)
    ensures Placeholders(InsertStatement(table, row, conflict).query) == |row|
    ensures InsertStatement(table, row, conflict).params == ParamsOf(row)
  {
    var head := "INSERT INTO " + table + " (" + Join(", ", Keys(row)) + ") VALUES (";
    ColumnsPlain(row);
    InsertHeadPlain(table, Join(", ", Keys(row)));
    RepeatPlaceholders(|row|);
    ConflictTextPlain(conflict);
    Bracketed(head, Join(", ", Repeat("%s", |row|)), ConflictText(conflict), |row|);
  }

  lemma ConflictTextPlain(conflict: string)
    requires Plain(conflict)
    ensures Plain(ConflictText(conflict))
  {
    if conflict != "" {
      PlainConcat(" ON CONFLICT (", conflict);
      PlainConcat(" ON CONFLICT (" + conflict, ") DO NOTHING");
    }
  }

  /** " ON CONFLICT (c) DO NOTHING" ends the statement exactly when a conflict target is given. */
  lemma ConflictClause(table: string, row: Row, conflict: string)
    ensures var q := InsertStatement(table, row, conflict).query;
      conflict != "" <==> (|q| >= 11 && q[|q| - 11..] == " DO NOTHING")
    ensures var q := InsertStatement(table, row, conflict).query;
      var clause := " ON CONFLICT (" + conflict + ") DO NOTHING";
      conflict != "" ==> |q| >= |clause| && q[|q| - |clause|..] == clause
  {
    var q := InsertStatement(table, row, conflict).query;
    if conflict == "" {
      assert q[|q| - 1] == ')';
    } else {
      var clause := " ON CONFLICT (" + conflict + ") DO NOTHING";
      var body := q[..|q| - |clause|];
      assert q == body + clause;
      var suffix := ") DO NOTHING";
      assert clause[|clause| - 12..] == suffix;
      assert q[|q| - 11..] == suffix[1..];
    }
  }

  /** The column list of an `INSERT` is the row's keys, in order, joined by ", ". */
  lemma InsertColumns(table: string, row: Row, conflict: string)
    ensures var head := "INSERT INTO " + table + " (" + Join(", ", Keys(row)) + ") VALUES (";
      var q := InsertStatement(table, row, conflict).query;
      |q| >= |head| && q[..|head|] == head
  {
    var head := "INSERT INTO " + table + " (" + Join(", ", Keys(row)) + ") VALUES (";
    var rest := Join(", ", Repeat("%s", |row|)) + ")" + ConflictText(conflict);
    var q := InsertStatement(table, row, conflict).query;
    assert q == head + rest;
    assert (head + rest)[..|head|] == head;
  }

  // ----- fetched rows -----

  /** `d[k] = v` on an ordered dictionary: an existing key keeps its place. */
  function DictSet(d: Row, k: string, v: Value): (r: Row)
    ensures Lookup(r, k) == Some(v)
    ensures forall k' :: k' != k ==> Lookup(r, k') == Lookup(d, k')
  {
    if d == [] then [(k, v)]
    else if d[0].0 == k then [(k, v)] + d[1..]
    else [d[0]] + DictSet(d[1..], k, v)
  }

  /** `dict(zip(columns, values))`: stops at the shorter, a repeated column keeps its last value. */
  function Zip(columns: seq<string>, values: seq<Value>): Row {
    ZipInto([], columns, values)
  }

  function ZipInto(d: Row, columns: seq<string>, values: seq<Value>): Row
    decreases |columns|
  {
    if columns == [] || values == [] then d
    else ZipInto(DictSet(d, columns[0], values[0]), columns[1..], values[1..])
  }

  /** Column `j` is the last of the zipped columns named `k`. */
  predicate LastPairing(columns: seq<string>, values: seq<Value>, j: int, k: string) {
    && 0 <= j < Min(|columns|, |values|) && columns[j] == k
    && forall j' :: j < j' < Min(|columns|, |values|) ==> columns[j'] != k
  }

  /** Every column of the zip reads the last value paired with it. */
  lemma {:induction false} ZipIntoLookup(d: Row, columns: seq<string>, values: seq<Value>, k: string)
    ensures k !in columns[..Min(|columns|, |values|)] ==> Lookup(ZipInto(d, columns, values), k) == Lookup(d, k)
    ensures forall j :: LastPairing(columns, values, j, k) ==> Lookup(ZipInto(d, columns, values), k) == Some(values[j])
    decreases |columns|
  {
    if columns != [] && values != [] {
      var n := Min(|columns|, |values|);
      ZipIntoLookup(DictSet(d, columns[0], values[0]), columns[1..], values[1..], k);
      assert columns[1..][..n - 1] == columns[1..n];
      assert forall j :: 1 <= j < n ==> columns[1..][j - 1] == columns[j];
      if k !in columns[..n] {
        assert columns[0] == columns[..n][0];
        assert forall x :: x in columns[1..n] ==> x in columns[..n];
      }
    }
  }

  function Min(a: int, b: int): int {
    if a < b then a else b
  }

  /** With distinct columns and a value for each, the zip pairs column `i` with value `i`. */
  lemma ZipDistinct(columns: seq<string>, values: seq<Value>, i: nat)
    requires |values| == |columns| && i < |columns|
    requires forall a, b :: 0 <= a < b < |columns| ==> columns[a] != columns[b]
    ensures Lookup(Zip(columns, values), columns[i]) == Some(values[i])
  {
    ZipIntoLookup([], columns, values, columns[i]);
  }

  /** A one-column query yields dicts whose only key is that column. */
  lemma {:induction false} ZipOneColumn(c: string, values: seq<Value>)
    requires values != []
    ensures Zip([c], values) == [(c, values[0])]
  {
    assert Zip([c], values) == ZipInto(DictSet([], c, values[0]), [c][1..], values[1..]);
    assert [c][1..] == [];
  }

  /** `results` built by `GetEntries`: one dict per fetched row, in fetch order. */
  function Results(description: Option<seq<string>>, fetched: seq<seq<Value>>): (r: Result<seq<Row>, Failure>)
    ensures r.Ok? ==> |r.value| == |fetched|
    ensures r.Ok? && fetched != [] ==>
      description.Some? && forall i :: 0 <= i < |fetched| ==> r.value[i] == Zip(description.value, fetched[i])
    ensures description.None? && fetched != [] ==> r == Err(NameError("entry_columns"))
  {
    if fetched == [] then Ok([])
    else if description.None? then Err(NameError("entry_columns"))
    else Ok(seq(|fetched|, i requires 0 <= i < |fetched| => Zip(description.value, fetched[i])))
  }

  /** The loop of `GetEntries` appending one zipped dict per fetched row. */
  method CollectResults(description: Option<seq<string>>, fetched: seq<seq<Value>>) returns (r: Result<seq<Row>, Failure>)
    ensures r == Results(description, fetched)
  {
    if fetched == [] {
      return Ok([]);
    }
    if description.None? {
      // `entry_columns` is only bound when the cursor has a description.
      return Err(NameError("entry_columns"));
    }
    var columns := description.value;
    var results: seq<Row> := [];
    for i := 0 to |fetched|
      invariant |results| == i
      invariant forall j :: 0 <= j < i ==> results[j] == Zip(columns, fetched[j])
    {
      results := results + [Zip(columns, fetched[i])];
    }
    assert results == seq(|fetched|, i requires 0 <= i < |fetched| => Zip(columns, fetched[i]));
    r := Ok(results);
  }
}
