/**
  A database that executes SQL text: it reads the text back into a statement and applies that to its
  tables.  Assumed of the real one: transactions run one after the other, a transaction that is not
  committed leaves nothing behind, and an UPDATE reports the rows it matched.  Any call may fail.
*/
module SqlEngine {
  import opened Decimal
  import opened Wrappers
  import opened SqlText
  import opened SqlParser
  import opened SqlRoundTrip

  type Row = map<string, string>
  type Table = seq<Row>
  type Tables = map<string, Table>

  // ------------------------------------------------------------------ what statements mean

  predicate Matches(row: Row, pairs: KeyValues) {
    forall i :: 0 <= i < |pairs| ==> pairs[i].0 in row && row[pairs[i].0] == pairs[i].1
  }

  function PutAll(row: Row, kvs: KeyValues): Row
    decreases |kvs|
  {
    if kvs == [] then row else PutAll(row[kvs[0].0 := kvs[0].1], kvs[1..])
  }

  function Matching(t: Table, pairs: KeyValues): Table {
    if t == [] then [] else (if Matches(t[0], pairs) then [t[0]] else []) + Matching(t[1..], pairs)
  }

  function Others(t: Table, pairs: KeyValues): Table {
    if t == [] then [] else (if Matches(t[0], pairs) then [] else [t[0]]) + Others(t[1..], pairs)
  }

  function Updated(t: Table, pairs: KeyValues, kvs: KeyValues): Table {
    seq(|t|, i requires 0 <= i < |t| => if Matches(t[i], pairs) then PutAll(t[i], kvs) else t[i])
  }

  /** The one column of a COUNT's result. */
  const CNT := "cnt"

  /** The tables after a statement, and the rows it affected or returns. */
  function Apply(s: Statement, db: Tables): Option<(Tables, Table)> {
    if s.table !in db then None else
    var t := db[s.table];
    match s
    case InsertInto(table, kvs) => Some((db[table := t + [PutAll(map[], kvs)]], [PutAll(map[], kvs)]))
    case UpdateSet(table, kvs, pairs) => Some((db[table := Updated(t, pairs, kvs)], Matching(t, pairs)))
    case DeleteFrom(table, pairs) => Some((db[table := Others(t, pairs)], Matching(t, pairs)))
    case CountFrom(table, pairs) => Some((db, [map[CNT := IntText(|Matching(t, pairs)|)]]))
    case SelectFrom(table, pairs) => Some((db, Matching(t, pairs)))
  }

  function ApplyText(sql: string, db: Tables): Option<(Tables, Table)> {
    if Parse(sql).None? then None else Apply(Parse(sql).value, db)
  }

  lemma ApplyRendered(s: Statement, db: Tables)
    requires WellFormed(s)
    ensures ApplyText(Render(s), db) == Apply(s, db)
  {
    RenderedReadsBack(s);
  }

  /** A printed condition list selects every possible row exactly if all its values are empty. */
  lemma SelectsEverythingIff(kvs: KeyValues)
    ensures (forall row: Row :: Matches(row, NonEmpty(kvs))) <==> forall i :: 0 <= i < |kvs| ==> kvs[i].1 == []
  {
    NonEmptyNone(kvs);
    if NonEmpty(kvs) != [] {
      var blank: Row := map[];
      assert NonEmpty(kvs)[0].0 !in blank;
      assert !Matches(blank, NonEmpty(kvs));
    }
  }

  lemma {:induction false} NonEmptyNone(kvs: KeyValues)
    ensures NonEmpty(kvs) == [] <==> forall i :: 0 <= i < |kvs| ==> kvs[i].1 == []
  {
    if kvs != [] {
      NonEmptyNone(kvs[1..]);
      assert forall i :: 0 < i < |kvs| ==> kvs[i] == kvs[1..][i - 1];
    }
  }

  lemma MatchesCons(row: Row, kv: KeyValue, pairs: KeyValues)
    ensures Matches(row, [kv] + pairs) <==> kv.0 in row && row[kv.0] == kv.1 && Matches(row, pairs)
  {
    var all := [kv] + pairs;
    assert all[0] == kv && forall i :: 0 <= i < |pairs| ==> all[i + 1] == pairs[i];
    if Matches(row, all) {
      forall i | 0 <= i < |pairs| ensures pairs[i].0 in row && row[pairs[i].0] == pairs[i].1 {
        assert all[i + 1].0 in row && row[all[i + 1].0] == all[i + 1].1;
      }
    }
  }

  /** A printed condition list selects exactly the rows that agree with each of its non-empty values. */
  lemma {:induction false} SelectsExactly(row: Row, kvs: KeyValues)
    ensures Matches(row, NonEmpty(kvs)) <==>
            forall kv :: kv in kvs && kv.1 != [] ==> kv.0 in row && row[kv.0] == kv.1
  {
    if kvs != [] {
      var kv, rest := kvs[0], kvs[1..];
      SelectsExactly(row, rest);
      assert forall x :: x in kvs <==> x == kv || x in rest;
      MatchesCons(row, kv, NonEmpty(rest));
      assert NonEmpty(kvs) == if kv.1 == [] then NonEmpty(rest) else [kv] + NonEmpty(rest);
    }
  }

  /** DELETE keeps exactly the rows it does not select, in order, and loses none of them. */
  lemma {:induction false} DeletePartitions(t: Table, pairs: KeyValues)
    ensures multiset(Others(t, pairs)) + multiset(Matching(t, pairs)) == multiset(t)
    ensures forall row :: row in Others(t, pairs) ==> !Matches(row, pairs)
    ensures forall row :: row in Matching(t, pairs) ==> Matches(row, pairs)
  {
    if t != [] {
      DeletePartitions(t[1..], pairs);
      assert t == [t[0]] + t[1..];
    }
  }

  /** Selecting and deleting go through the table in order: a last row comes last, on one side or the other. */
  lemma {:induction false} RowsInOrder(t: Table, row: Row, pairs: KeyValues)
    ensures Matching(t + [row], pairs) == Matching(t, pairs) + if Matches(row, pairs) then [row] else []
    ensures Others(t + [row], pairs) == Others(t, pairs) + if Matches(row, pairs) then [] else [row]
  {
    if t != [] {
      assert (t + [row])[1..] == t[1..] + [row];
      RowsInOrder(t[1..], row, pairs);
    }
  }

  /** The value the list assigns to the column: the last one, if it names the column more than once. */
  function Assigned(kvs: KeyValues, column: string): Option<string>
    decreases |kvs|
  {
    if kvs == [] then None else
    var n := |kvs| - 1;
    if kvs[n].0 == column then Some(kvs[n].1) else Assigned(kvs[..n], column)
  }

  lemma {:induction false} PutAllSnoc(row: Row, kvs: KeyValues, kv: KeyValue)
    ensures PutAll(row, kvs + [kv]) == PutAll(row, kvs)[kv.0 := kv.1]
    decreases |kvs|
  {
    if kvs == [] {
      assert [kv][1..] == [];
    } else {
      assert (kvs + [kv])[1..] == kvs[1..] + [kv];
      PutAllSnoc(row[kvs[0].0 := kvs[0].1], kvs[1..], kv);
    }
  }

  /** Each column holds what is assigned to it last, and what it held before if nothing is. */
  lemma {:induction false} PutAllSets(row: Row, kvs: KeyValues, column: string)
    ensures column in PutAll(row, kvs) <==> column in row || Assigned(kvs, column).Some?
    ensures column in PutAll(row, kvs) ==>
              PutAll(row, kvs)[column] == if Assigned(kvs, column).Some? then Assigned(kvs, column).value else row[column]
    decreases |kvs|
  {
    if kvs != [] {
      var n := |kvs| - 1;
      assert kvs == kvs[..n] + [kvs[n]];
      PutAllSnoc(row, kvs[..n], kvs[n]);
      PutAllSets(row, kvs[..n], column);
    }
  }

  /** UPDATE leaves the rows it does not select alone, and in the others sets exactly the listed columns. */
  lemma UpdateTouchesExactly(t: Table, pairs: KeyValues, kvs: KeyValues, at: nat, column: string)
    requires at < |t|
    ensures |Updated(t, pairs, kvs)| == |t|
    ensures var row, row' := t[at], Updated(t, pairs, kvs)[at];
            if !Matches(row, pairs) then row' == row
            else if Assigned(kvs, column).Some? then column in row' && row'[column] == Assigned(kvs, column).value
            else (column in row' <==> column in row) && (column in row ==> row'[column] == row[column])
  {
    PutAllSets(t[at], kvs, column);
  }

  // ------------------------------------------------------------------ the connection

  class Connection {
    /** The durable tables, and the tables as the open transaction sees them. */
    var committed: Tables
    var working: Tables
    var inTransaction: bool
    /** Whether some call failed since the last `Acquire`. */
    ghost var faulted: bool

    constructor (tables: Tables)
      ensures committed == tables && !inTransaction
    {
      committed, working, inTransaction, faulted := tables, tables, false, false;
    }

    function View(): Tables
      reads this
    {
      if inTransaction then working else committed
    }

    /** What a call inside a transaction may not disturb. */
    twostate predicate Continues()
      reads this
    {
      && inTransaction == old(inTransaction)
      && (inTransaction ==> committed == old(committed))
      && (old(faulted) ==> faulted)
    }

    /** Takes the connection out of the pool for one request. */
    method Acquire() returns (ok: bool)
      requires !inTransaction
      modifies this
      ensures committed == old(committed) && !inTransaction
      ensures ok <==> !faulted
    {
      ok := *;
      faulted := !ok;
    }

    method BeginTransaction() returns (ok: bool)
      requires !inTransaction
      modifies this
      ensures committed == old(committed) && inTransaction == ok
      ensures ok ==> working == committed && faulted == old(faulted)
      ensures !ok ==> faulted
    {
      ok := *;
      if ok {
        working, inTransaction := committed, true;
      } else {
        faulted := true;
      }
    }

    method CommitTransaction() returns (ok: bool)
      requires inTransaction
      modifies this
      ensures ok ==> committed == old(working) && !inTransaction && faulted == old(faulted)
      ensures !ok ==> committed == old(committed) && inTransaction && faulted
    {
      ok := *;
      if ok {
        committed, inTransaction := working, false;
      } else {
        faulted := true;
      }
    }

    /** Whatever it reports, nothing of the transaction survives. */
    method RollbackTransaction() returns (ok: bool)
      modifies this
      ensures committed == old(committed) && !inTransaction
      ensures old(faulted) ==> faulted
      ensures faulted ==> old(faulted) || !ok
    {
      ok := *;
      inTransaction := false;
      if !ok {
        faulted := true;
      }
    }

    method IsConnected() returns (ok: bool)
      modifies this`faulted
      ensures faulted <==> old(faulted) || !ok
    {
      ok := *;
      if !ok {
        faulted := true;
      }
    }

    method Execute(sql: string) returns (ok: bool, affected: nat)
      modifies this
      ensures Continues()
      ensures ok ==> ApplyText(sql, old(View())).Some? &&
                     ApplyText(sql, old(View())).value.0 == View() &&
                     affected == |ApplyText(sql, old(View())).value.1| && faulted == old(faulted)
      ensures !ok ==> View() == old(View()) && (faulted || ApplyText(sql, old(View())).None?)
    {
      affected := 0;
      ok := *;
      if !ok {
        faulted := true;
        return;
      }
      var result := ApplyText(sql, View());
      if result.None? {
        return false, 0;
      }
      if inTransaction {
        working := result.value.0;
      } else {
        committed := result.value.0;
      }
      affected := |result.value.1|;
    }

    method Query(sql: string) returns (rows: Option<Table>)
      modifies this`faulted
      ensures old(faulted) ==> faulted
      ensures rows.Some? ==> ApplyText(sql, View()).Some? && rows.value == ApplyText(sql, View()).value.1
                             && faulted == old(faulted)
      ensures rows.None? ==> faulted || ApplyText(sql, View()).None?
    {
      var ok: bool := *;
      if !ok {
        faulted := true;
        return None;
      }
      var result := ApplyText(sql, View());
      rows := if result.None? then None else Some(result.value.1);
    }

    /** The row at `at` of a result; none at the end, and none if fetching fails. */
    method Fetch(rows: Table, at: nat) returns (row: Option<Row>)
      requires at <= |rows|
      modifies this`faulted
      ensures old(faulted) ==> faulted
      ensures row.Some? ==> at < |rows| && row.value == rows[at]
      ensures row.None? ==> faulted || at == |rows|
    {
      var ok: bool := *;
      if !ok {
        faulted := true;
      }
      row := if !ok || at == |rows| then None else Some(rows[at]);
    }
  }

  // ------------------------------------------------------------------ the DML helpers

  datatype ErrorCode = Success | InternalError | SystemError | NotFound

  datatype Result<+T> = Result(code: ErrorCode, data: Option<T>)

  lemma Reassociate(a: string, b: string, c: string, d: string, e: string, f: string)
    ensures a + b + c + (d + e + f) == a + (b + ((c + d) + (e + f)))
  {
  }

  lemma InsertTextIs(table: string, kvs: KeyValues)
    ensures INSERT_INTO + table + " " +
            ("(" + Join(Columns(kvs), COMMA) + VALUES + Join(Literals(Values(kvs)), COMMA) + CLOSE) ==
            Render(InsertInto(table, kvs))
  {
    var columns, literals := Join(Columns(kvs), COMMA), Join(Literals(Values(kvs)), COMMA);
    assert "(" + columns + VALUES + literals + CLOSE == "(" + columns + (VALUES + (literals + CLOSE));
    Reassociate(INSERT_INTO, table, " ", "(", columns, VALUES + (literals + CLOSE));
    assert " " + "(" == OPEN;
  }

  method InsertRow(c: Connection, table: string, values: KeyValues) returns (r: Result<nat>)
    requires IsIdentifier(table) && ColumnsAreIdentifiers(values)
    modifies c
    ensures c.Continues()
    ensures r.code == Success ==>
              values != [] && table in old(c.View()) &&
              c.View() == old(c.View())[table := old(c.View())[table] + [PutAll(map[], values)]]
    ensures r.code != Success ==>
              c.View() == old(c.View()) && (c.faulted || values == [] || table !in old(c.View()))
    ensures r.data == if r.code == Success then Some(1) else None
  {
    var connected := c.IsConnected();
    if !connected || values == [] {
      return Result(SystemError, None);
    }
    var columns := BuildInsertColumns(values);
    var sql := INSERT_INTO + table + " " + columns;
    ghost var s := InsertInto(table, values);
    InsertTextIs(table, values);
    ApplyRendered(s, c.View());
    var ok, affected := c.Execute(sql);
    r := if ok then Result(Success, Some(1)) else Result(SystemError, None);
  }

  method DeleteRows(c: Connection, table: string, whereValues: KeyValues) returns (r: Result<nat>)
    requires IsIdentifier(table) && ColumnsAreIdentifiers(whereValues)
    modifies c
    ensures c.Continues()
    ensures r.code == Success ==>
              whereValues != [] && table in old(c.View()) &&
              c.View() == old(c.View())[table := Others(old(c.View())[table], NonEmpty(whereValues))] &&
              r.data == Some(|Matching(old(c.View())[table], NonEmpty(whereValues))|)
    ensures r.code != Success ==>
              c.View() == old(c.View()) && r.data == None &&
              (c.faulted || whereValues == [] || table !in old(c.View()))
  {
    var connected := c.IsConnected();
    if !connected || whereValues == [] {
      return Result(SystemError, None);
    }
    var condition := BuildWhereSql(whereValues);
    var sql := DELETE_FROM + table + condition;
    ghost var s := DeleteFrom(table, NonEmpty(whereValues));
    NonEmptyColumns(whereValues);
    assert sql == Render(s);
    ApplyRendered(s, c.View());
    var ok, affected := c.Execute(sql);
    r := if ok then Result(Success, Some(affected)) else Result(SystemError, None);
  }

  method UpdateRows(c: Connection, table: string, values: KeyValues, whereValues: KeyValues)
    returns (r: Result<nat>)
    requires IsIdentifier(table) && ColumnsAreIdentifiers(values) && ColumnsAreIdentifiers(whereValues)
    modifies c
    ensures c.Continues()
    ensures r.code == Success ==>
              values != [] && whereValues != [] && table in old(c.View()) &&
              c.View() == old(c.View())[table := Updated(old(c.View())[table], NonEmpty(whereValues), values)] &&
              r.data == Some(|Matching(old(c.View())[table], NonEmpty(whereValues))|)
    ensures r.code != Success ==>
              c.View() == old(c.View()) && r.data == None &&
              (c.faulted || values == [] || whereValues == [] || table !in old(c.View()))
  {
    var connected := c.IsConnected();
    if !connected || values == [] || whereValues == [] {
      return Result(SystemError, None);
    }
    var assignments := BuildAssignments(values);
    var condition := BuildWhereSql(whereValues);
    var sql := UPDATE + table + SET + assignments + condition;
    ghost var s := UpdateSet(table, values, NonEmpty(whereValues));
    NonEmptyColumns(whereValues);
    assert sql == Render(s);
    ApplyRendered(s, c.View());
    var ok, affected := c.Execute(sql);
    r := if ok then Result(Success, Some(affected)) else Result(SystemError, None);
  }

  method CountRows(c: Connection, table: string, whereValues: KeyValues) returns (r: Result<int>)
    requires IsIdentifier(table) && ColumnsAreIdentifiers(whereValues)
    modifies c`faulted
    ensures old(c.faulted) ==> c.faulted
    ensures r.code == Success ==>
              table in c.View() && r.data == Some(|Matching(c.View()[table], NonEmpty(whereValues))|)
    ensures r.code != Success ==> r.data == None && (c.faulted || table !in c.View())
  {
    var connected := c.IsConnected();
    if !connected {
      return Result(SystemError, None);
    }
    var condition := BuildWhereSql(whereValues);
    var sql := SELECT_COUNT + table + condition;
    ghost var s := CountFrom(table, NonEmpty(whereValues));
    NonEmptyColumns(whereValues);
    assert sql == Render(s);
    ApplyRendered(s, c.View());
    var rows := c.Query(sql);
    if rows.None? {
      return Result(SystemError, None);
    }
    var row := c.Fetch(rows.value, 0);
    if row.None? {
      return Result(SystemError, None);
    }
    ghost var n := |Matching(c.View()[table], NonEmpty(whereValues))|;
    IntReads(n);
    if CNT in row.value {
      var v := ParseInt(row.value[CNT]);
      if v.Some? {
        return Result(Success, v);
      }
    }
    return Result(SystemError, None);
  }

  method SelectRows(c: Connection, table: string, whereValues: KeyValues) returns (r: Result<Table>)
    requires IsIdentifier(table) && ColumnsAreIdentifiers(whereValues)
    modifies c`faulted
    ensures old(c.faulted) ==> c.faulted
    ensures r.code == Success ==>
              table in c.View() && r.data == Some(Matching(c.View()[table], NonEmpty(whereValues)))
    ensures r.code != Success ==> r.data == None && (c.faulted || table !in c.View())
  {
    var connected := c.IsConnected();
    if !connected {
      return Result(SystemError, None);
    }
    var condition := BuildWhereSql(whereValues);
    var sql := SELECT_ALL + table + condition;
    ghost var s := SelectFrom(table, NonEmpty(whereValues));
    NonEmptyColumns(whereValues);
    assert sql == Render(s);
    ApplyRendered(s, c.View());
    var rows := c.Query(sql);
    r := if rows.Some? then Result(Success, Some(rows.value)) else Result(SystemError, None);
  }

  lemma {:induction false} NonEmptyColumns(kvs: KeyValues)
    requires ColumnsAreIdentifiers(kvs)
    ensures ColumnsAreIdentifiers(NonEmpty(kvs))
  {
    if kvs != [] {
      NonEmptyColumns(kvs[1..]);
    }
  }
}
