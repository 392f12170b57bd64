/**
 * The database the migration runs against, as an abstract state.
 *
 * Each table has its column list (name to definition),
 * its index list (name to the indexed columns) and its rows keyed by a
 * positive integer id. Scalars read from the database are strings or NULL,
 * as the PHP driver returns them; JSON columns are held already decoded as
 * objects and lists. The rows of `#__radicalmart_categories_items` (the
 * ordering table, which the migration only probes and appends to) are kept
 * as a sequence of entries, and the `params` of the `com_radicalmart` row
 * of `#__extensions` as a string-keyed map.
 *
 * Every write the migration performs is one `Statement`; `Apply` is its
 * effect. The class `Database` is the connection: it executes statements,
 * records them in `log`, and counts disconnects and cache resets.
 */
module Store {
  import opened Wrappers

  datatype Value = Null | Str(s: string) | List(items: seq<Value>) | Obj(fields: map<string, Value>)

  type Row = map<string, Value>

  /** A column of a row as read from the driver: an absent key reads as NULL. */
  function Get(row: Row, column: string): Value
  {
    if column in row then row[column] else Null
  }

  /** PHP's `empty()`: null, the empty string, the string "0" and the empty array; an object never is. */
  predicate Empty(v: Value): (b: bool)
    ensures v.Str? ==> (b <==> v.s == "" || v.s == "0")
    ensures v.List? ==> (b <==> |v.items| == 0)
    ensures v.Obj? ==> !b
  {
    v == Null || v == Str("") || v == Str("0") || v == List([])
  }

  /**
   * A column definition as the migration writes it: the SQL type, which is
   * what the driver's column list reports, the remaining options
   * (nullability, default, position) and the value every existing row takes
   * when the column is added: its `DEFAULT`, or null for a nullable column
   * without one, as the driver reads it back.
   */
  datatype ColumnDef = ColumnDef(sqlType: string, options: string, initial: Value)

  /** The value each column of `columns` gives an existing row when it is added. */
  function Initials(columns: map<string, ColumnDef>): Row
  {
    map c | c in columns :: columns[c].initial
  }

  datatype IndexColumn = IndexColumn(column: string, descending: bool)

  datatype Table = Table(columns: map<string, ColumnDef>, indexes: map<string, seq<IndexColumn>>, rows: map<int, Row>)

  const EmptyTable := Table(map[], map[], map[])

  /** The `type` column of the ordering table. */
  datatype ItemType = ProductType | MetaType

  datatype OrderingEntry = OrderingEntry(itemId: int, itemType: ItemType, categoryId: int, state: int, ordering: Value)

  datatype DbState = DbState(
    tables: map<string, Table>,
    orderings: seq<OrderingEntry>,
    componentParams: Option<map<string, Value>>)

  function TableOf(s: DbState, name: string): Table
  {
    if name in s.tables then s.tables[name] else EmptyTable
  }

  /** One DDL or DML statement on a single table. */
  datatype TableOp =
    | AddColumn(name: string, definition: ColumnDef)
    | AddIndex(name: string, parts: seq<IndexColumn>)
    | DropColumn(name: string)
    | DropIndex(name: string)
    | ModifyColumn(name: string, definition: ColumnDef)
    | UpdateRow(id: int, fields: Row)
    | UpdateWhereIn(ids: set<int>, column: string, value: Value)
    | CopyColumn(source: string, targets: set<string>)

  datatype Statement =
    | OnTable(table: string, op: TableOp)
    | DropTable(table: string)
    | InsertOrdering(entry: OrderingEntry)
    | SaveComponentParams(params: map<string, Value>)

  /** The index parts that remain once `column` is dropped. */
  function StripColumn(parts: seq<IndexColumn>, column: string): (r: seq<IndexColumn>)
    ensures forall p :: p in r <==> p in parts && p.column != column
  {
    if parts == [] then []
    else (if parts[0].column == column then [] else [parts[0]]) + StripColumn(parts[1..], column)
  }

  /**
   * Effect of one table statement. Adding a column gives every existing
   * row the column's initial value; dropping a column also removes it from
   * every index and drops an index left with no column, as MySQL does.
   */
  function ApplyOp(t: Table, op: TableOp): Table
  {
    match op
    case AddColumn(name, definition) => AddColumnTo(t, name, definition)
    case AddIndex(name, parts) => t.(indexes := t.indexes[name := parts])
    case DropColumn(name) =>
      Table(
        t.columns - {name},
        map i | i in t.indexes && StripColumn(t.indexes[i], name) != [] :: StripColumn(t.indexes[i], name),
        map id | id in t.rows :: t.rows[id] - {name})
    case DropIndex(name) => t.(indexes := t.indexes - {name})
    case ModifyColumn(name, definition) =>
      if name in t.columns then t.(columns := t.columns[name := definition]) else t
    case UpdateRow(id, fields) =>
      if id in t.rows then t.(rows := t.rows[id := t.rows[id] + fields]) else t
    case UpdateWhereIn(ids, column, value) => t.(rows := SetWhereIn(t.rows, ids, column, value))
    case CopyColumn(source, targets) =>
      t.(rows := map id | id in t.rows :: t.rows[id] + map c | c in targets :: Get(t.rows[id], source))
  }

  /** `UPDATE … SET column = value WHERE id IN (ids)` on the rows of a table. */
  function SetWhereIn(rows: map<int, Row>, ids: set<int>, column: string, value: Value): (r: map<int, Row>)
    ensures r.Keys == rows.Keys
    ensures forall id :: id in rows ==> r[id] == if id in ids then rows[id][column := value] else rows[id]
  {
    map id | id in rows :: if id in ids then rows[id][column := value] else rows[id]
  }

  /** ADD COLUMN: the column joins the column list and every existing row takes its initial value. */
  function AddColumnTo(t: Table, name: string, definition: ColumnDef): Table
  {
    Table(
      t.columns[name := definition],
      t.indexes,
      map id | id in t.rows :: t.rows[id][name := definition.initial])
  }

  function Apply(s: DbState, st: Statement): DbState
  {
    match st
    case OnTable(name, op) =>
      if name in s.tables then s.(tables := s.tables[name := ApplyOp(s.tables[name], op)]) else s
    case DropTable(name) => s.(tables := s.tables - {name})
    case InsertOrdering(e) => s.(orderings := s.orderings + [e])
    case SaveComponentParams(p) => s.(componentParams := Some(p))
  }

  /** The table after the statements of `ops`, in order. */
  function ApplyOps(t: Table, ops: seq<TableOp>): Table
  {
    ApplyFirstOps(t, ops, |ops|)
  }

  /** The table after the first `n` statements of `ops`. */
  function ApplyFirstOps(t: Table, ops: seq<TableOp>, n: nat): Table
    requires n <= |ops|
  {
    if n == 0 then t else ApplyOp(ApplyFirstOps(t, ops, n - 1), ops[n - 1])
  }

  /** The state after the statements of `stmts`, in order. */
  function ApplyAll(s: DbState, stmts: seq<Statement>): DbState
  {
    ApplyFirst(s, stmts, |stmts|)
  }

  /** The state after the first `n` statements of `stmts`. */
  function ApplyFirst(s: DbState, stmts: seq<Statement>, n: nat): DbState
    requires n <= |stmts|
  {
    if n == 0 then s else Apply(ApplyFirst(s, stmts, n - 1), stmts[n - 1])
  }

  /** The statements that run `ops` on table `name`. */
  function Lift(name: string, ops: seq<TableOp>): (r: seq<Statement>)
    ensures |r| == |ops| && forall i :: 0 <= i < |ops| ==> r[i] == OnTable(name, ops[i])
  {
    seq(|ops|, i requires 0 <= i < |ops| => OnTable(name, ops[i]))
  }

  lemma {:induction false} ApplyFirstOpsPrefix(t: Table, a: seq<TableOp>, b: seq<TableOp>, n: nat)
    requires n <= |a| && n <= |b| && forall i :: 0 <= i < n ==> a[i] == b[i]
    ensures ApplyFirstOps(t, a, n) == ApplyFirstOps(t, b, n)
  {
    if n > 0 { ApplyFirstOpsPrefix(t, a, b, n - 1); }
  }

  lemma {:induction false} ApplyFirstPrefix(s: DbState, a: seq<Statement>, b: seq<Statement>, n: nat)
    requires n <= |a| && n <= |b| && forall i :: 0 <= i < n ==> a[i] == b[i]
    ensures ApplyFirst(s, a, n) == ApplyFirst(s, b, n)
  {
    if n > 0 { ApplyFirstPrefix(s, a, b, n - 1); }
  }

  lemma {:induction false} ApplyFirstOpsAppend(t: Table, a: seq<TableOp>, b: seq<TableOp>, n: nat)
    requires n <= |b|
    ensures ApplyFirstOps(t, a + b, |a| + n) == ApplyFirstOps(ApplyOps(t, a), b, n)
  {
    if n == 0 {
      ApplyFirstOpsPrefix(t, a + b, a, |a|);
    } else {
      ApplyFirstOpsAppend(t, a, b, n - 1);
      assert (a + b)[|a| + n - 1] == b[n - 1];
    }
  }

  lemma {:induction false} ApplyFirstAppend(s: DbState, a: seq<Statement>, b: seq<Statement>, n: nat)
    requires n <= |b|
    ensures ApplyFirst(s, a + b, |a| + n) == ApplyFirst(ApplyAll(s, a), b, n)
  {
    if n == 0 {
      ApplyFirstPrefix(s, a + b, a, |a|);
    } else {
      ApplyFirstAppend(s, a, b, n - 1);
      assert (a + b)[|a| + n - 1] == b[n - 1];
    }
  }

  lemma ApplyAllAppend(s: DbState, a: seq<Statement>, b: seq<Statement>)
    ensures ApplyAll(s, a + b) == ApplyAll(ApplyAll(s, a), b)
  {
    ApplyFirstAppend(s, a, b, |b|);
  }

  lemma ApplyOpsAppend(t: Table, a: seq<TableOp>, b: seq<TableOp>)
    ensures ApplyOps(t, a + b) == ApplyOps(ApplyOps(t, a), b)
  {
    ApplyFirstOpsAppend(t, a, b, |b|);
  }

  lemma ApplyOpsSnoc(t: Table, ops: seq<TableOp>, op: TableOp)
    ensures ApplyOps(t, ops + [op]) == ApplyOp(ApplyOps(t, ops), op)
  {
    ApplyFirstOpsPrefix(t, ops + [op], ops, |ops|);
  }

  lemma ApplyAllSnoc(s: DbState, stmts: seq<Statement>, st: Statement)
    ensures ApplyAll(s, stmts + [st]) == Apply(ApplyAll(s, stmts), st)
  {
    ApplyFirstPrefix(s, stmts + [st], stmts, |stmts|);
  }

  lemma LiftAppend(name: string, a: seq<TableOp>, b: seq<TableOp>)
    ensures Lift(name, a + b) == Lift(name, a) + Lift(name, b)
  {
    assert forall i :: 0 <= i < |a + b| ==> Lift(name, a + b)[i] == (Lift(name, a) + Lift(name, b))[i];
  }

  lemma {:induction false} LiftFirst(s: DbState, name: string, ops: seq<TableOp>, n: nat)
    requires name in s.tables && n <= |ops|
    ensures ApplyFirst(s, Lift(name, ops), n) == s.(tables := s.tables[name := ApplyFirstOps(s.tables[name], ops, n)])
  {
    if n == 0 {
      assert s.tables[name := s.tables[name]] == s.tables;
    } else {
      LiftFirst(s, name, ops, n - 1);
    }
  }

  /** Running lifted statements on an existing table is running them on that table alone. */
  lemma LiftApply(s: DbState, name: string, ops: seq<TableOp>)
    requires name in s.tables
    ensures ApplyAll(s, Lift(name, ops)) == s.(tables := s.tables[name := ApplyOps(s.tables[name], ops)])
  {
    LiftFirst(s, name, ops, |ops|);
  }

  /** `stmts` is what was issued between (s0, log0) and (s, log). */
  ghost predicate Issued(s0: DbState, log0: seq<Statement>, s: DbState, log: seq<Statement>, stmts: seq<Statement>)
  {
    log == log0 + stmts && s == ApplyAll(s0, stmts)
  }

  lemma IssuedTrans(s0: DbState, l0: seq<Statement>, s1: DbState, l1: seq<Statement>, s2: DbState, l2: seq<Statement>,
                    a: seq<Statement>, b: seq<Statement>)
    requires Issued(s0, l0, s1, l1, a) && Issued(s1, l1, s2, l2, b)
    ensures Issued(s0, l0, s2, l2, a + b)
  {
    ApplyAllAppend(s0, a, b);
    assert l2 == l0 + (a + b);
  }

  lemma IssuedNothing(s: DbState, l: seq<Statement>)
    ensures Issued(s, l, s, l, [])
  {
  }

  /** The database connection. */
  class Database {
    var state: DbState
    /** Every statement executed on this connection, in order. */
    var log: seq<Statement>
    /** Calls of `$db->disconnect()`. */
    var disconnects: nat
    /** Resets of the application caches (`cleanRadicalMartRAM`, the helper `reset()` calls). */
    var cacheResets: nat

    constructor (initial: DbState)
      ensures state == initial && log == [] && disconnects == 0 && cacheResets == 0
    {
      state := initial;
      log := [];
      disconnects := 0;
      cacheResets := 0;
    }

    method Execute(st: Statement)
      modifies this
      ensures Issued(old(state), old(log), state, log, [st])
      ensures disconnects == old(disconnects) && cacheResets == old(cacheResets)
    {
      assert ApplyFirst(state, [st], 0) == state;
      state := Apply(state, st);
      log := log + [st];
    }

    method Disconnect()
      modifies this
      ensures state == old(state) && log == old(log)
      ensures disconnects == old(disconnects) + 1 && cacheResets == old(cacheResets)
    {
      disconnects := disconnects + 1;
    }

    method ResetCaches()
      modifies this
      ensures state == old(state) && log == old(log)
      ensures disconnects == old(disconnects) && cacheResets == old(cacheResets) + 1
    {
      cacheResets := cacheResets + 1;
    }
  }

  // ---------------------------------------------------------------------
  // Keyset pagination: `WHERE id > :last ORDER BY id ASC LIMIT :limit`.
  // ---------------------------------------------------------------------

  function Above(ids: set<int>, last: int): set<int>
  {
    set x | x in ids && x > last
  }

  predicate Increasing(xs: seq<int>)
  {
    forall i, j :: 0 <= i < j < |xs| ==> xs[i] < xs[j]
  }

  lemma Witness(s: set<int>) returns (y: int)
    requires s != {}
    ensures y in s
  {
    if forall z :: z !in s { assert false; }
    y :| y in s;
  }

  lemma {:induction false} MinExists(s: set<int>)
    requires s != {}
    ensures exists m :: m in s && forall x :: x in s ==> m <= x
    decreases |s|
  {
    var y := Witness(s);
    if s == {y} {
      assert forall x :: x in s ==> y <= x;
    } else {
      var r := s - {y};
      MinExists(r);
      var m :| m in r && forall x :: x in r ==> m <= x;
      var lo := if y < m then y else m;
      forall x | x in s ensures lo <= x {
        if x != y { assert x in r; }
      }
      assert lo in s;
    }
  }

  function Min(s: set<int>): (m: int)
    requires s != {}
    ensures m in s && forall x :: x in s ==> m <= x
  {
    MinExists(s);
    var m :| m in s && forall x :: x in s ==> m <= x;
    m
  }

  /** The elements of `s` in ascending order. */
  function Ascending(s: set<int>): seq<int>
    decreases |s|
  {
    if s == {} then [] else var m := Min(s); [m] + Ascending(s - {m})
  }

  /** `Ascending(s)` lists every element of `s` exactly once, in strictly ascending order. */
  lemma {:induction false} AscendingFacts(s: set<int>)
    ensures Increasing(Ascending(s)) && |Ascending(s)| == |s|
    ensures forall x :: x in Ascending(s) <==> x in s
    decreases |s|
  {
    if s != {} {
      var m := Min(s);
      var r := Ascending(s - {m});
      AscendingFacts(s - {m});
      assert Ascending(s) == [m] + r;
      forall i, j | 0 <= i < j < |[m] + r| ensures ([m] + r)[i] < ([m] + r)[j] {
        assert r[j - 1] in s - {m};
        if i > 0 { assert r[i - 1] < r[j - 1]; }
      }
    }
  }

  ghost predicate SameElements(a: seq<int>, b: seq<int>)
  {
    forall x :: x in a <==> x in b
  }

  lemma HeadsEqual(a: seq<int>, b: seq<int>)
    requires a != [] && b != [] && Increasing(a) && Increasing(b) && SameElements(a, b)
    ensures a[0] == b[0]
  {
    assert a[0] in a;
    var j :| 0 <= j < |b| && b[j] == a[0];
    assert b[0] in b;
    var i :| 0 <= i < |a| && a[i] == b[0];
    assert a[0] <= a[i];
    assert b[0] <= b[j];
  }

  lemma TailsSame(a: seq<int>, b: seq<int>)
    requires a != [] && b != [] && Increasing(a) && Increasing(b) && SameElements(a, b) && a[0] == b[0]
    ensures Increasing(a[1..]) && Increasing(b[1..]) && SameElements(a[1..], b[1..])
  {
    forall x ensures x in a[1..] <==> x in b[1..] {
      if x in a[1..] {
        var p :| 1 <= p < |a| && a[p] == x;
        assert x > a[0];
        assert x in b;
        var q :| 0 <= q < |b| && b[q] == x;
        assert b[1..][q - 1] == x;
      }
      if x in b[1..] {
        var q :| 1 <= q < |b| && b[q] == x;
        assert x > b[0];
        assert x in a;
        var p :| 0 <= p < |a| && a[p] == x;
        assert a[1..][p - 1] == x;
      }
    }
  }

  /** Two strictly ascending sequences with the same elements are equal. */
  lemma {:induction false} SortedUnique(a: seq<int>, b: seq<int>)
    ensures Increasing(a) && Increasing(b) && SameElements(a, b) ==> a == b
    decreases |a|
  {
    if a == [] && b != [] {
      assert b[0] in b;
    } else if a != [] && b == [] {
      assert a[0] in a;
    } else if a != [] && b != [] && Increasing(a) && Increasing(b) && SameElements(a, b) {
      HeadsEqual(a, b);
      TailsSame(a, b);
      SortedUnique(a[1..], b[1..]);
      assert a == [a[0]] + a[1..];
      assert b == [b[0]] + b[1..];
    }
  }

  lemma PrefixClosed(a: seq<int>, n: nat)
    requires Increasing(a) && 0 < n <= |a|
    ensures forall x :: x in a && x <= a[n - 1] ==> x in a[..n]
  {
    forall x | x in a && x <= a[n - 1] ensures x in a[..n] {
      var j :| 0 <= j < |a| && a[j] == x;
      assert j < n;
      assert a[..n][j] == x;
    }
  }

  function MinNat(a: nat, b: nat): nat { if a < b then a else b }

  lemma PageOfOrder(a: seq<int>, ids: set<int>, last: int, n: nat)
    requires Increasing(a) && n <= |a|
    requires forall x :: x in a <==> x in ids && x > last
    ensures forall x :: x in a[..n] ==> x in ids && x > last
    ensures n > 0 ==> forall x :: x in ids && last < x <= a[n - 1] ==> x in a[..n]
    ensures n == |a| ==> forall x :: x in ids && x > last ==> x in a[..n]
  {
    assert forall x :: x in a[..n] ==> x in a;
    if n > 0 { PrefixClosed(a, n); }
    assert n == |a| ==> a[..n] == a;
  }

  /**
   * One page of the keyset scan: the `limit` smallest ids above `last`, in
   * ascending order.
   */
  function NextPage(ids: set<int>, last: int, limit: nat): (page: seq<int>)
    ensures |page| == MinNat(|Above(ids, last)|, limit)
    ensures Increasing(page)
    ensures forall x :: x in page ==> x in ids && x > last
    ensures page != [] ==> forall x :: x in ids && last < x <= page[|page| - 1] ==> x in page
    ensures |page| < limit ==> forall x :: x in ids && x > last ==> x in page
  {
    var a := Ascending(Above(ids, last));
    AscendingFacts(Above(ids, last));
    var n := MinNat(|a|, limit);
    PageOfOrder(a, ids, last, n);
    a[..n]
  }

  lemma SuffixElements(a: seq<int>, ids: set<int>, k: nat)
    requires Increasing(a) && k <= |a|
    requires forall x :: x in a <==> x in ids && x > 0
    ensures var last := if k == 0 then 0 else a[k - 1];
            forall x :: x in a[k..] <==> x in ids && x > last
  {
    var last := if k == 0 then 0 else a[k - 1];
    assert last >= 0 by {
      if k > 0 { assert a[k - 1] in a; }
    }
    forall x | x in a[k..] ensures x in ids && x > last {
      var j :| k <= j < |a| && a[j] == x;
      assert a[j] in a;
      assert k > 0 ==> a[k - 1] < a[j];
    }
    forall x | x in ids && x > last ensures x in a[k..] {
      var j :| 0 <= j < |a| && a[j] == x;
      assert a[k..][j - k] == x;
    }
  }

  /** What remains of the ascending order after its first `k` ids is the ascending order of the ids above the `k`-th. */
  lemma AscendingSuffix(ids: set<int>, k: nat)
    requires k <= |Ascending(Above(ids, 0))|
    ensures var a := Ascending(Above(ids, 0));
            Ascending(Above(ids, if k == 0 then 0 else a[k - 1])) == a[k..]
  {
    var a := Ascending(Above(ids, 0));
    var last := if k == 0 then 0 else a[k - 1];
    AscendingFacts(Above(ids, 0));
    AscendingFacts(Above(ids, last));
    SuffixElements(a, ids, k);
    var b := Ascending(Above(ids, last));
    assert SameElements(b, a[k..]);
    SortedUnique(b, a[k..]);
  }

  /**
   * Page `k` of a scan: once the first `k` ids of the ascending order have
   * been processed and the cursor holds the last of them, the next page is
   * the following window of that order.
   */
  lemma Window(ids: set<int>, k: nat, limit: nat)
    requires k <= |Ascending(Above(ids, 0))|
    ensures var a := Ascending(Above(ids, 0));
            var last := if k == 0 then 0 else a[k - 1];
            NextPage(ids, last, limit) == a[k..k + MinNat(|a| - k, limit)]
  {
    AscendingSuffix(ids, k);
  }

  /** `a` is the order of a scan over the positive ids of `ids`: ascending. */
  ghost predicate ScanOrder(a: seq<int>, ids: set<int>)
  {
    a == Ascending(Above(ids, 0))
  }

  /** With the cursor on the `k`-th id of the order, the next page is the following window of the order. */
  lemma WindowOf(ids: set<int>, a: seq<int>, k: nat, last: int, limit: nat)
    requires ScanOrder(a, ids) && k <= |a|
    requires last == if k == 0 then 0 else a[k - 1]
    ensures NextPage(ids, last, limit) == a[k..k + MinNat(|a| - k, limit)]
  {
    Window(ids, k, limit);
  }

  /**
   * `CommandsHelper::getNextPrimaryKeys`: the query for the next page of
   * the scan. Given the number `k` of ids the scan has consumed, with the
   * cursor on the last of them, the page is the next window of the
   * ascending order of the ids.
   */
  method NextPrimaryKeys(ids: set<int>, last: int, limit: nat, ghost a: seq<int>, ghost k: nat) returns (pks: seq<int>)
    requires ScanOrder(a, ids) && k <= |a|
    requires last == if k == 0 then 0 else a[k - 1]
    ensures pks == a[k..k + MinNat(|a| - k, limit)]
  {
    pks := NextPage(ids, last, limit);
    WindowOf(ids, a, k, last, limit);
  }

  /** Number of pages a scan of `n` ids processes, the last one possibly partial. */
  function Pages(n: nat, limit: nat): nat
    requires limit > 0
  {
    (n + limit - 1) / limit
  }
}
