/**
 * The idempotent schema editor (`UpdaterDatabaseTrait`): add the columns
 * and indexes that are missing, drop the columns and indexes that are
 * there, drop the tables whose key probe succeeds, and detect which legacy
 * ("rudimental") columns are still present.
 *
 * Each editing operation reads the table's column or index list once and
 * then issues one statement per name; its *plan* is the list of statements
 * it issues, computed from the state it starts in.
 */
module SchemaEditor {
  import opened Wrappers
  import opened Store

  /** An entry `name => definition` of a PHP array; the keys of such an array are distinct. */
  type ColumnSpec = (string, ColumnDef)
  type IndexSpec = (string, seq<IndexColumn>)

  predicate DistinctKeys<T>(specs: seq<(string, T)>)
  {
    forall i, j :: 0 <= i < j < |specs| ==> specs[i].0 != specs[j].0
  }

  predicate Distinct(names: seq<string>)
  {
    forall i, j :: 0 <= i < j < |names| ==> names[i] != names[j]
  }

  // ---------------------------------------------------------------------
  // databaseCreateColumns
  // ---------------------------------------------------------------------

  /** ADD COLUMN for each entry whose name is not in `existing`, in argument order. */
  function AddColumnsPlan(existing: set<string>, cols: seq<ColumnSpec>): seq<TableOp>
  {
    if cols == [] then []
    else
      var c := cols[|cols| - 1];
      AddColumnsPlan(existing, cols[..|cols| - 1]) + (if c.0 in existing then [] else [AddColumn(c.0, c.1)])
  }

  /** ADD INDEX for each entry whose name is not in `existing`, in argument order. */
  function AddIndexesPlan(existing: set<string>, idxs: seq<IndexSpec>): seq<TableOp>
  {
    if idxs == [] then []
    else
      var x := idxs[|idxs| - 1];
      AddIndexesPlan(existing, idxs[..|idxs| - 1]) + (if x.0 in existing then [] else [AddIndex(x.0, x.1)])
  }

  /** The statements `databaseCreateColumns` issues on table `t`. */
  function CreatePlan(t: Table, cols: seq<ColumnSpec>, idxs: seq<IndexSpec>): seq<TableOp>
  {
    AddColumnsPlan(t.columns.Keys, cols) + AddIndexesPlan(t.indexes.Keys, idxs)
  }

  lemma LiftSnoc(name: string, ops: seq<TableOp>, extra: seq<TableOp>, s0: DbState, l0: seq<Statement>,
                 s1: DbState, l1: seq<Statement>, s2: DbState, l2: seq<Statement>)
    requires Issued(s0, l0, s1, l1, Lift(name, ops))
    requires Issued(s1, l1, s2, l2, Lift(name, extra))
    ensures Issued(s0, l0, s2, l2, Lift(name, ops + extra))
  {
    IssuedTrans(s0, l0, s1, l1, s2, l2, Lift(name, ops), Lift(name, extra));
    LiftAppend(name, ops, extra);
  }

  /**
   * `databaseCreateColumns`: a missing table makes the column probe throw
   * before anything is issued (`ok` is false).
   */
  method CreateColumns(db: Database, table: string, cols: seq<ColumnSpec>, idxs: seq<IndexSpec>) returns (ok: bool)
    modifies db
    ensures ok == (table in old(db.state.tables))
    ensures Issued(old(db.state), old(db.log), db.state, db.log,
                   if ok then Lift(table, CreatePlan(old(db.state.tables[table]), cols, idxs)) else [])
    ensures db.disconnects == old(db.disconnects) && db.cacheResets == old(db.cacheResets)
  {
    if table !in db.state.tables {
      IssuedNothing(db.state, db.log);
      return false;
    }
    ok := true;
    ghost var s0, l0 := db.state, db.log;
    var columns := db.state.tables[table].columns.Keys;
    var indexes := db.state.tables[table].indexes.Keys;
    var i := 0;
    while i < |cols|
      invariant 0 <= i <= |cols|
      invariant Issued(s0, l0, db.state, db.log, Lift(table, AddColumnsPlan(columns, cols[..i])))
      invariant db.disconnects == old(db.disconnects) && db.cacheResets == old(db.cacheResets)
    {
      ghost var s1, l1 := db.state, db.log;
      var name := cols[i].0;
      if name !in columns {
        db.Execute(OnTable(table, AddColumn(name, cols[i].1)));
        assert Lift(table, [AddColumn(name, cols[i].1)]) == [OnTable(table, AddColumn(name, cols[i].1))];
        LiftSnoc(table, AddColumnsPlan(columns, cols[..i]), [AddColumn(name, cols[i].1)], s0, l0, s1, l1, db.state, db.log);
      } else {
        assert AddColumnsPlan(columns, cols[..i]) + [] == AddColumnsPlan(columns, cols[..i]);
      }
      assert cols[..i + 1][..i] == cols[..i];
      i := i + 1;
    }
    assert cols[..i] == cols;
    ghost var s1, l1 := db.state, db.log;
    var j := 0;
    while j < |idxs|
      invariant 0 <= j <= |idxs|
      invariant Issued(s1, l1, db.state, db.log, Lift(table, AddIndexesPlan(indexes, idxs[..j])))
      invariant db.disconnects == old(db.disconnects) && db.cacheResets == old(db.cacheResets)
    {
      ghost var s2, l2 := db.state, db.log;
      var name := idxs[j].0;
      if name !in indexes {
        db.Execute(OnTable(table, AddIndex(name, idxs[j].1)));
        assert Lift(table, [AddIndex(name, idxs[j].1)]) == [OnTable(table, AddIndex(name, idxs[j].1))];
        LiftSnoc(table, AddIndexesPlan(indexes, idxs[..j]), [AddIndex(name, idxs[j].1)], s1, l1, s2, l2, db.state, db.log);
      } else {
        assert AddIndexesPlan(indexes, idxs[..j]) + [] == AddIndexesPlan(indexes, idxs[..j]);
      }
      assert idxs[..j + 1][..j] == idxs[..j];
      j := j + 1;
    }
    assert idxs[..j] == idxs;
    LiftSnoc(table, AddColumnsPlan(columns, cols), AddIndexesPlan(indexes, idxs), s0, l0, s1, l1, db.state, db.log);
  }

  /** An ADD COLUMN is issued exactly for the requested names missing from the column list. */
  lemma {:induction false} AddColumnsPlanIssues(existing: set<string>, cols: seq<ColumnSpec>)
    ensures forall op :: op in AddColumnsPlan(existing, cols) ==> op.AddColumn?
    ensures forall c, d :: AddColumn(c, d) in AddColumnsPlan(existing, cols) <==> (c, d) in cols && c !in existing
  {
    if cols != [] {
      AddColumnsPlanIssues(existing, cols[..|cols| - 1]);
      assert cols == cols[..|cols| - 1] + [cols[|cols| - 1]];
    }
  }

  /** An ADD INDEX is issued exactly for the requested names missing from the index list. */
  lemma {:induction false} AddIndexesPlanIssues(existing: set<string>, idxs: seq<IndexSpec>)
    ensures forall op :: op in AddIndexesPlan(existing, idxs) ==> op.AddIndex?
    ensures forall n, p :: AddIndex(n, p) in AddIndexesPlan(existing, idxs) <==> (n, p) in idxs && n !in existing
  {
    if idxs != [] {
      AddIndexesPlanIssues(existing, idxs[..|idxs| - 1]);
      assert idxs == idxs[..|idxs| - 1] + [idxs[|idxs| - 1]];
    }
  }

  /** The entries of `specs` whose name is not in `existing`, as a map (later entries win). */
  function NewEntries<T>(existing: set<string>, specs: seq<(string, T)>): map<string, T>
  {
    if specs == [] then map[]
    else
      var x := specs[|specs| - 1];
      var m := NewEntries(existing, specs[..|specs| - 1]);
      if x.0 in existing then m else m[x.0 := x.1]
  }

  /** The new entries are exactly the requested names that are not in `existing`, with their requested definition. */
  lemma {:induction false} NewEntriesFacts<T>(existing: set<string>, specs: seq<(string, T)>)
    requires DistinctKeys(specs)
    ensures forall n :: n in NewEntries(existing, specs) ==> n !in existing
    ensures forall n :: n in NewEntries(existing, specs) ==> exists i :: 0 <= i < |specs| && specs[i].0 == n
    ensures forall i :: 0 <= i < |specs| && specs[i].0 !in existing ==>
              specs[i].0 in NewEntries(existing, specs) && NewEntries(existing, specs)[specs[i].0] == specs[i].1
  {
    if specs != [] {
      var pre := specs[..|specs| - 1];
      NewEntriesFacts(existing, pre);
      var m := NewEntries(existing, specs);
      forall n | n in m ensures exists i :: 0 <= i < |specs| && specs[i].0 == n {
        if n != specs[|specs| - 1].0 {
          assert n in NewEntries(existing, pre);
          var i :| 0 <= i < |pre| && pre[i].0 == n;
          assert specs[i].0 == n;
        }
      }
      forall i | 0 <= i < |specs| && specs[i].0 !in existing ensures specs[i].0 in m && m[specs[i].0] == specs[i].1 {
        if i < |specs| - 1 { assert specs[i] == pre[i]; }
      }
    }
  }

  /** The rows once the columns of `added` are added: each row takes every added column's initial value. */
  function WithInitials(rows: map<int, Row>, added: map<string, ColumnDef>): map<int, Row>
  {
    map id | id in rows :: rows[id] + Initials(added)
  }

  /**
   * The ADD COLUMN statements extend the column map by the new entries,
   * give every existing row their initial values and touch nothing else.
   */
  lemma {:induction false} AddColumnsApply(t: Table, existing: set<string>, cols: seq<ColumnSpec>)
    ensures var added := NewEntries(existing, cols);
            ApplyOps(t, AddColumnsPlan(existing, cols)) == Table(t.columns + added, t.indexes, WithInitials(t.rows, added))
  {
    if cols == [] {
      assert t.columns + map[] == t.columns;
      assert WithInitials(t.rows, map[]) == t.rows by {
        forall id | id in t.rows ensures t.rows[id] + Initials(map[]) == t.rows[id] {
          assert Initials(map[]) == map[];
        }
      }
    } else {
      var x := cols[|cols| - 1];
      var p := AddColumnsPlan(existing, cols[..|cols| - 1]);
      var m := NewEntries(existing, cols[..|cols| - 1]);
      AddColumnsApply(t, existing, cols[..|cols| - 1]);
      if x.0 !in existing {
        ApplyOpsSnoc(t, p, AddColumn(x.0, x.1));
        AddColumnStep(t, m, x.0, x.1);
      } else {
        assert p + [] == p;
      }
    }
  }

  /** One more ADD COLUMN on a table that already has the columns of `m` added. */
  lemma AddColumnStep(t: Table, m: map<string, ColumnDef>, name: string, definition: ColumnDef)
    ensures ApplyOp(Table(t.columns + m, t.indexes, WithInitials(t.rows, m)), AddColumn(name, definition))
         == Table(t.columns + m[name := definition], t.indexes, WithInitials(t.rows, m[name := definition]))
  {
    var w := WithInitials(t.rows, m);
    assert (t.columns + m)[name := definition] == t.columns + m[name := definition];
    WithInitialsStep(t.rows, m, name, definition);
  }

  /** The rows with the initial values of `m` added, then one more column's. */
  lemma WithInitialsStep(rows: map<int, Row>, m: map<string, ColumnDef>, name: string, definition: ColumnDef)
    ensures var w := WithInitials(rows, m);
            (map id | id in w :: w[id][name := definition.initial]) == WithInitials(rows, m[name := definition])
  {
    forall id | id in rows
      ensures (rows[id] + Initials(m))[name := definition.initial] == rows[id] + Initials(m[name := definition])
    {
      InitialsUpdate(rows[id], m, name, definition);
    }
  }

  /** A row with the initial values of `m` added, then one more column's. */
  lemma InitialsUpdate(row: Row, m: map<string, ColumnDef>, name: string, definition: ColumnDef)
    ensures (row + Initials(m))[name := definition.initial] == row + Initials(m[name := definition])
  {
    assert Initials(m[name := definition]) == Initials(m)[name := definition.initial];
  }

  /** No entry is new when every requested name already exists. */
  lemma {:induction false} NewEntriesNone<T>(existing: set<string>, specs: seq<(string, T)>)
    requires forall i :: 0 <= i < |specs| ==> specs[i].0 in existing
    ensures NewEntries(existing, specs) == map[]
  {
    if specs != [] { NewEntriesNone(existing, specs[..|specs| - 1]); }
  }

  /** The ADD INDEX statements extend the index map by the new entries and touch nothing else. */
  lemma {:induction false} AddIndexesApply(t: Table, existing: set<string>, idxs: seq<IndexSpec>)
    ensures ApplyOps(t, AddIndexesPlan(existing, idxs)) == t.(indexes := t.indexes + NewEntries(existing, idxs))
  {
    if idxs == [] {
      assert t.indexes + map[] == t.indexes;
    } else {
      var x := idxs[|idxs| - 1];
      var p := AddIndexesPlan(existing, idxs[..|idxs| - 1]);
      AddIndexesApply(t, existing, idxs[..|idxs| - 1]);
      if x.0 !in existing {
        ApplyOpsSnoc(t, p, AddIndex(x.0, x.1));
        var m := NewEntries(existing, idxs[..|idxs| - 1]);
        assert (t.indexes + m)[x.0 := x.1] == t.indexes + m[x.0 := x.1];
      } else {
        assert p + [] == p;
      }
    }
  }

  lemma {:induction false} AddColumnsPlanNone(existing: set<string>, cols: seq<ColumnSpec>)
    requires forall i :: 0 <= i < |cols| ==> cols[i].0 in existing
    ensures AddColumnsPlan(existing, cols) == []
  {
    if cols != [] { AddColumnsPlanNone(existing, cols[..|cols| - 1]); }
  }

  lemma {:induction false} AddIndexesPlanNone(existing: set<string>, idxs: seq<IndexSpec>)
    requires forall i :: 0 <= i < |idxs| ==> idxs[i].0 in existing
    ensures AddIndexesPlan(existing, idxs) == []
  {
    if idxs != [] { AddIndexesPlanNone(existing, idxs[..|idxs| - 1]); }
  }

  /**
   * After `databaseCreateColumns` every requested column and index exists,
   * those that existed keep their definition even where it differs from the
   * requested one, every existing row takes each added column's initial
   * value and keeps every other field, nothing else changes, and a second
   * call issues nothing.
   */
  lemma CreateColumnsOutcome(t: Table, cols: seq<ColumnSpec>, idxs: seq<IndexSpec>)
    requires DistinctKeys(cols) && DistinctKeys(idxs)
    ensures var r := ApplyOps(t, CreatePlan(t, cols, idxs));
            && r.rows == WithInitials(t.rows, NewEntries(t.columns.Keys, cols))
            && r.rows.Keys == t.rows.Keys
            && (forall id, i :: id in t.rows && 0 <= i < |cols| && cols[i].0 !in t.columns ==>
                  cols[i].0 in r.rows[id] && r.rows[id][cols[i].0] == cols[i].1.initial)
            && (forall id, c :: id in t.rows && (c in t.columns || c !in r.columns) ==>
                  (c in r.rows[id] <==> c in t.rows[id]) && (c in t.rows[id] ==> r.rows[id][c] == t.rows[id][c]))
            && ((forall i :: 0 <= i < |cols| ==> cols[i].0 in t.columns) ==> r.rows == t.rows)
            && (forall c :: c in t.columns ==> c in r.columns && r.columns[c] == t.columns[c])
            && (forall i :: 0 <= i < |cols| ==> cols[i].0 in r.columns)
            && (forall i :: 0 <= i < |cols| && cols[i].0 !in t.columns ==> r.columns[cols[i].0] == cols[i].1)
            && (forall c :: c in r.columns ==> c in t.columns || exists i :: 0 <= i < |cols| && cols[i].0 == c)
            && (forall n :: n in t.indexes ==> n in r.indexes && r.indexes[n] == t.indexes[n])
            && (forall i :: 0 <= i < |idxs| ==> idxs[i].0 in r.indexes)
            && (forall i :: 0 <= i < |idxs| && idxs[i].0 !in t.indexes ==> r.indexes[idxs[i].0] == idxs[i].1)
            && (forall n :: n in r.indexes ==> n in t.indexes || exists i :: 0 <= i < |idxs| && idxs[i].0 == n)
            && CreatePlan(r, cols, idxs) == []
  {
    var r := ApplyOps(t, CreatePlan(t, cols, idxs));
    CreatePlanApply(t, cols, idxs);
    InitialsRows(t, cols, r.columns, r.rows);
    NewEntriesMerge(t.columns, cols, r.columns);
    NewEntriesMerge(t.indexes, idxs, r.indexes);
    AddColumnsPlanNone(r.columns.Keys, cols);
    AddIndexesPlanNone(r.indexes.Keys, idxs);
  }

  /** The statements of `databaseCreateColumns` add the new columns, with their initial values, and the new indexes. */
  lemma CreatePlanApply(t: Table, cols: seq<ColumnSpec>, idxs: seq<IndexSpec>)
    ensures var added := NewEntries(t.columns.Keys, cols);
            ApplyOps(t, CreatePlan(t, cols, idxs))
              == Table(t.columns + added, t.indexes + NewEntries(t.indexes.Keys, idxs), WithInitials(t.rows, added))
  {
    var a := AddColumnsPlan(t.columns.Keys, cols);
    ApplyOpsAppend(t, a, AddIndexesPlan(t.indexes.Keys, idxs));
    AddColumnsApply(t, t.columns.Keys, cols);
    AddIndexesApply(ApplyOps(t, a), t.indexes.Keys, idxs);
  }

  /** A map extended by the new entries of `specs`: what it keeps, what it gains, and nothing more. */
  lemma NewEntriesMerge<T>(before: map<string, T>, specs: seq<(string, T)>, after: map<string, T>)
    requires DistinctKeys(specs) && after == before + NewEntries(before.Keys, specs)
    ensures forall c :: c in before ==> c in after && after[c] == before[c]
    ensures forall i :: 0 <= i < |specs| ==> specs[i].0 in after
    ensures forall i :: 0 <= i < |specs| && specs[i].0 !in before ==> after[specs[i].0] == specs[i].1
    ensures forall c :: c in after ==> c in before || exists i :: 0 <= i < |specs| && specs[i].0 == c
  {
    NewEntriesFacts(before.Keys, specs);
  }

  /** What the initial values mean for each field of each row. */
  lemma InitialsRows(t: Table, cols: seq<ColumnSpec>, columns: map<string, ColumnDef>, rows: map<int, Row>)
    requires DistinctKeys(cols)
    requires columns == t.columns + NewEntries(t.columns.Keys, cols)
    requires rows == WithInitials(t.rows, NewEntries(t.columns.Keys, cols))
    ensures rows.Keys == t.rows.Keys
    ensures forall id, i :: id in t.rows && 0 <= i < |cols| && cols[i].0 !in t.columns ==>
              cols[i].0 in rows[id] && rows[id][cols[i].0] == cols[i].1.initial
    ensures forall id, c :: id in t.rows && (c in t.columns || c !in columns) ==>
              (c in rows[id] <==> c in t.rows[id]) && (c in t.rows[id] ==> rows[id][c] == t.rows[id][c])
    ensures (forall i :: 0 <= i < |cols| ==> cols[i].0 in t.columns) ==> rows == t.rows
  {
    InitialsAdded(t, cols, rows);
    InitialsKept(t, cols, columns, rows);
    if forall i :: 0 <= i < |cols| ==> cols[i].0 in t.columns {
      InitialsNone(t, cols, rows);
    }
  }

  /** When every requested column exists, no row changes. */
  lemma InitialsNone(t: Table, cols: seq<ColumnSpec>, rows: map<int, Row>)
    requires forall i :: 0 <= i < |cols| ==> cols[i].0 in t.columns
    requires rows == WithInitials(t.rows, NewEntries(t.columns.Keys, cols))
    ensures rows == t.rows
  {
    NewEntriesNone(t.columns.Keys, cols);
    assert Initials(map[]) == map[];
    forall id | id in t.rows ensures rows[id] == t.rows[id] {
    }
  }

  /** Every row takes the initial value of each column that is added. */
  lemma InitialsAdded(t: Table, cols: seq<ColumnSpec>, rows: map<int, Row>)
    requires DistinctKeys(cols)
    requires rows == WithInitials(t.rows, NewEntries(t.columns.Keys, cols))
    ensures forall id, i :: id in t.rows && 0 <= i < |cols| && cols[i].0 !in t.columns ==>
              cols[i].0 in rows[id] && rows[id][cols[i].0] == cols[i].1.initial
  {
    var added := NewEntries(t.columns.Keys, cols);
    forall id, i | id in t.rows && 0 <= i < |cols| && cols[i].0 !in t.columns
      ensures cols[i].0 in rows[id] && rows[id][cols[i].0] == cols[i].1.initial
    {
      NewEntriesFacts(t.columns.Keys, cols);
      assert cols[i].0 in Initials(added);
    }
  }

  /** Every other field of every row keeps its value. */
  lemma InitialsKept(t: Table, cols: seq<ColumnSpec>, columns: map<string, ColumnDef>, rows: map<int, Row>)
    requires DistinctKeys(cols)
    requires columns == t.columns + NewEntries(t.columns.Keys, cols)
    requires rows == WithInitials(t.rows, NewEntries(t.columns.Keys, cols))
    ensures forall id, c :: id in t.rows && (c in t.columns || c !in columns) ==>
              (c in rows[id] <==> c in t.rows[id]) && (c in t.rows[id] ==> rows[id][c] == t.rows[id][c])
  {
    var added := NewEntries(t.columns.Keys, cols);
    forall id, c | id in t.rows && (c in t.columns || c !in columns)
      ensures (c in rows[id] <==> c in t.rows[id]) && (c in t.rows[id] ==> rows[id][c] == t.rows[id][c])
    {
      NewEntriesFacts(t.columns.Keys, cols);
      assert c !in Initials(added);
    }
  }

  // ---------------------------------------------------------------------
  // databaseDropColumns
  // ---------------------------------------------------------------------

  /** DROP COLUMN for each listed name that is in `existing`, in argument order. */
  function DropColumnsPlan(existing: set<string>, names: seq<string>): seq<TableOp>
  {
    if names == [] then []
    else
      var c := names[|names| - 1];
      DropColumnsPlan(existing, names[..|names| - 1]) + (if c in existing then [DropColumn(c)] else [])
  }

  /** DROP INDEX for each listed name that is in `existing`, in argument order. */
  function DropIndexesPlan(existing: set<string>, names: seq<string>): seq<TableOp>
  {
    if names == [] then []
    else
      var n := names[|names| - 1];
      DropIndexesPlan(existing, names[..|names| - 1]) + (if n in existing then [DropIndex(n)] else [])
  }

  /**
   * The statements `databaseDropColumns` issues: the column drops against
   * the column list read first, then the index drops against the index list
   * read again after the column drops.
   */
  function DropPlan(t: Table, cols: seq<string>, idxs: seq<string>): seq<TableOp>
  {
    var c := DropColumnsPlan(t.columns.Keys, cols);
    c + DropIndexesPlan(ApplyOps(t, c).indexes.Keys, idxs)
  }

  /** `databaseDropColumns`; a missing table makes the column probe throw (`ok` is false). */
  method DropColumns(db: Database, table: string, cols: seq<string>, idxs: seq<string>) returns (ok: bool)
    modifies db
    ensures ok == (table in old(db.state.tables))
    ensures Issued(old(db.state), old(db.log), db.state, db.log,
                   if ok then Lift(table, DropPlan(old(db.state.tables[table]), cols, idxs)) else [])
    ensures db.disconnects == old(db.disconnects) && db.cacheResets == old(db.cacheResets)
  {
    if table !in db.state.tables {
      IssuedNothing(db.state, db.log);
      return false;
    }
    ok := true;
    ghost var s0, l0 := db.state, db.log;
    ghost var t0 := db.state.tables[table];
    var columns := db.state.tables[table].columns.Keys;
    var i := 0;
    while i < |cols|
      invariant 0 <= i <= |cols|
      invariant Issued(s0, l0, db.state, db.log, Lift(table, DropColumnsPlan(columns, cols[..i])))
      invariant db.disconnects == old(db.disconnects) && db.cacheResets == old(db.cacheResets)
    {
      ghost var s1, l1 := db.state, db.log;
      if cols[i] in columns {
        db.Execute(OnTable(table, DropColumn(cols[i])));
        assert Lift(table, [DropColumn(cols[i])]) == [OnTable(table, DropColumn(cols[i]))];
        LiftSnoc(table, DropColumnsPlan(columns, cols[..i]), [DropColumn(cols[i])], s0, l0, s1, l1, db.state, db.log);
      } else {
        assert DropColumnsPlan(columns, cols[..i]) + [] == DropColumnsPlan(columns, cols[..i]);
      }
      assert cols[..i + 1][..i] == cols[..i];
      i := i + 1;
    }
    assert cols[..i] == cols;
    LiftApply(s0, table, DropColumnsPlan(columns, cols));
    ghost var s1, l1 := db.state, db.log;
    var indexes := db.state.tables[table].indexes.Keys;
    var j := 0;
    while j < |idxs|
      invariant 0 <= j <= |idxs|
      invariant Issued(s1, l1, db.state, db.log, Lift(table, DropIndexesPlan(indexes, idxs[..j])))
      invariant db.disconnects == old(db.disconnects) && db.cacheResets == old(db.cacheResets)
    {
      ghost var s2, l2 := db.state, db.log;
      if idxs[j] in indexes {
        db.Execute(OnTable(table, DropIndex(idxs[j])));
        assert Lift(table, [DropIndex(idxs[j])]) == [OnTable(table, DropIndex(idxs[j]))];
        LiftSnoc(table, DropIndexesPlan(indexes, idxs[..j]), [DropIndex(idxs[j])], s1, l1, s2, l2, db.state, db.log);
      } else {
        assert DropIndexesPlan(indexes, idxs[..j]) + [] == DropIndexesPlan(indexes, idxs[..j]);
      }
      assert idxs[..j + 1][..j] == idxs[..j];
      j := j + 1;
    }
    assert idxs[..j] == idxs;
    LiftSnoc(table, DropColumnsPlan(columns, cols), DropIndexesPlan(indexes, idxs), s0, l0, s1, l1, db.state, db.log);
  }

  /** The index parts whose column is not in `dropped`, in their order. */
  function Keep(parts: seq<IndexColumn>, dropped: set<string>): (r: seq<IndexColumn>)
    ensures forall p :: p in r <==> p in parts && p.column !in dropped
  {
    if parts == [] then []
    else (if parts[0].column in dropped then [] else [parts[0]]) + Keep(parts[1..], dropped)
  }

  /** Every index of a table has at least one column. */
  predicate WellFormed(t: Table)
  {
    forall n :: n in t.indexes ==> t.indexes[n] != []
  }

  /**
   * Table `t` once the columns in `dropped` are gone: from the column list,
   * from every index (an index left with no column disappears) and from
   * every row.
   */
  function WithoutColumns(t: Table, dropped: set<string>): Table
  {
    Table(
      t.columns - dropped,
      map n | n in t.indexes && Keep(t.indexes[n], dropped) != [] :: Keep(t.indexes[n], dropped),
      map id | id in t.rows :: t.rows[id] - dropped)
  }

  lemma {:induction false} StripKeep(parts: seq<IndexColumn>, dropped: set<string>, column: string)
    ensures StripColumn(Keep(parts, dropped), column) == Keep(parts, dropped + {column})
  {
    if parts != [] {
      StripKeep(parts[1..], dropped, column);
      var head := if parts[0].column in dropped then [] else [parts[0]];
      assert Keep(parts, dropped) == head + Keep(parts[1..], dropped);
      if head != [] {
        assert (head + Keep(parts[1..], dropped))[1..] == Keep(parts[1..], dropped);
      } else {
        assert head + Keep(parts[1..], dropped) == Keep(parts[1..], dropped);
      }
    }
  }

  lemma {:induction false} KeepNothing(parts: seq<IndexColumn>)
    ensures Keep(parts, {}) == parts
  {
    if parts != [] { KeepNothing(parts[1..]); }
  }

  lemma DropColumnIndexes(t: Table, dropped: set<string>, column: string)
    ensures ApplyOp(WithoutColumns(t, dropped), DropColumn(column)).indexes == WithoutColumns(t, dropped + {column}).indexes
  {
    forall n | n in t.indexes
      ensures StripColumn(Keep(t.indexes[n], dropped), column) == Keep(t.indexes[n], dropped + {column})
    {
      StripKeep(t.indexes[n], dropped, column);
    }
  }

  lemma DropColumnRows(t: Table, dropped: set<string>, column: string)
    ensures ApplyOp(WithoutColumns(t, dropped), DropColumn(column)).rows == WithoutColumns(t, dropped + {column}).rows
  {
    forall id | id in t.rows ensures (t.rows[id] - dropped) - {column} == t.rows[id] - (dropped + {column}) {
      assert (t.rows[id] - dropped) - {column} == t.rows[id] - (dropped + {column});
    }
  }

  /** One more DROP COLUMN on a table whose columns in `dropped` are gone. */
  lemma DropColumnStep(t: Table, dropped: set<string>, column: string)
    ensures ApplyOp(WithoutColumns(t, dropped), DropColumn(column)) == WithoutColumns(t, dropped + {column})
  {
    DropColumnIndexes(t, dropped, column);
    DropColumnRows(t, dropped, column);
    assert (t.columns - dropped) - {column} == t.columns - (dropped + {column});
  }

  /** The column drops of `databaseDropColumns` amount to removing the listed columns that exist. */
  lemma {:induction false} DropColumnsApply(t: Table, names: seq<string>)
    requires WellFormed(t)
    ensures ApplyOps(t, DropColumnsPlan(t.columns.Keys, names))
            == WithoutColumns(t, set c | c in names && c in t.columns)
  {
    if names == [] {
      assert (set c | c in names && c in t.columns) == {};
      WithoutNoColumns(t);
    } else {
      var pre := names[..|names| - 1];
      var x := names[|names| - 1];
      var p := DropColumnsPlan(t.columns.Keys, pre);
      var d := set c | c in pre && c in t.columns;
      DropColumnsApply(t, pre);
      if x in t.columns {
        ApplyOpsSnoc(t, p, DropColumn(x));
        DropColumnStep(t, d, x);
        assert (set c | c in names && c in t.columns) == d + {x};
      } else {
        assert p + [] == p;
        assert (set c | c in names && c in t.columns) == d;
      }
    }
  }

  lemma WithoutNoColumns(t: Table)
    requires WellFormed(t)
    ensures WithoutColumns(t, {}) == t
  {
    forall n | n in t.indexes ensures Keep(t.indexes[n], {}) == t.indexes[n] {
      KeepNothing(t.indexes[n]);
    }
    forall id | id in t.rows ensures t.rows[id] - {} == t.rows[id] {
      assert t.rows[id] - {} == t.rows[id];
    }
    var w := WithoutColumns(t, {});
    assert w.indexes == t.indexes;
    assert w.rows == t.rows;
    assert w.columns == t.columns;
  }

  /** The index drops remove the listed indexes and nothing else. */
  lemma {:induction false} DropIndexesApply(t: Table, existing: set<string>, names: seq<string>)
    ensures ApplyOps(t, DropIndexesPlan(existing, names))
            == t.(indexes := t.indexes - (set n | n in names && n in existing))
  {
    if names == [] {
      assert t.indexes - {} == t.indexes;
    } else {
      var pre := names[..|names| - 1];
      var x := names[|names| - 1];
      var p := DropIndexesPlan(existing, pre);
      DropIndexesApply(t, existing, pre);
      var d := set n | n in pre && n in existing;
      var u := t.(indexes := t.indexes - d);
      assert ApplyOps(t, p) == u;
      if x in existing {
        assert DropIndexesPlan(existing, names) == p + [DropIndex(x)];
        ApplyOpsSnoc(t, p, DropIndex(x));
        assert ApplyOp(u, DropIndex(x)) == u.(indexes := u.indexes - {x});
        assert (set n | n in names && n in existing) == d + {x};
        assert (t.indexes - d) - {x} == t.indexes - (d + {x});
      } else {
        assert DropIndexesPlan(existing, names) == p + [];
        assert p + [] == p;
        assert (set n | n in names && n in existing) == d;
      }
    }
  }

  lemma {:induction false} DropColumnsPlanNone(existing: set<string>, names: seq<string>)
    requires forall i :: 0 <= i < |names| ==> names[i] !in existing
    ensures DropColumnsPlan(existing, names) == []
  {
    if names != [] { DropColumnsPlanNone(existing, names[..|names| - 1]); }
  }

  lemma {:induction false} DropIndexesPlanNone(existing: set<string>, names: seq<string>)
    requires forall i :: 0 <= i < |names| ==> names[i] !in existing
    ensures DropIndexesPlan(existing, names) == []
  {
    if names != [] { DropIndexesPlanNone(existing, names[..|names| - 1]); }
  }

  /**
   * After `databaseDropColumns` the listed columns are gone from the column
   * list, the indexes and the rows; the listed indexes that were still there
   * after the column drops are gone; nothing else changes; and a second call
   * issues nothing.
   */
  lemma DropColumnsOutcome(t: Table, cols: seq<string>, idxs: seq<string>)
    requires WellFormed(t)
    ensures var w := WithoutColumns(t, set c | c in cols && c in t.columns);
            ApplyOps(t, DropPlan(t, cols, idxs)) == w.(indexes := w.indexes - (set n | n in idxs))
    ensures var r := ApplyOps(t, DropPlan(t, cols, idxs));
            && (forall c :: c in cols ==> c !in r.columns)
            && (forall n :: n in idxs ==> n !in r.indexes)
            && DropPlan(r, cols, idxs) == []
  {
    var c := DropColumnsPlan(t.columns.Keys, cols);
    var w := WithoutColumns(t, set c | c in cols && c in t.columns);
    DropColumnsApply(t, cols);
    ApplyOpsAppend(t, c, DropIndexesPlan(w.indexes.Keys, idxs));
    DropIndexesApply(w, w.indexes.Keys, idxs);
    assert w.indexes - (set n | n in idxs && n in w.indexes.Keys) == w.indexes - (set n | n in idxs);
    var r := ApplyOps(t, DropPlan(t, cols, idxs));
    DropColumnsPlanNone(r.columns.Keys, cols);
    DropIndexesPlanNone(r.indexes.Keys, idxs);
  }

  // ---------------------------------------------------------------------
  // databaseDropTables
  // ---------------------------------------------------------------------

  /**
   * The statements `databaseDropTables` issues: a table is dropped when its
   * key probe returns a non-empty list; a missing table makes the probe
   * throw, which counts as an empty list.
   */
  function DropTablesPlan(s: DbState, names: seq<string>): seq<Statement>
  {
    if names == [] then []
    else
      var pre := DropTablesPlan(s, names[..|names| - 1]);
      var s1 := ApplyAll(s, pre);
      var n := names[|names| - 1];
      pre + (if n in s1.tables && s1.tables[n].indexes != map[] then [DropTable(n)] else [])
  }

  /** The tables that remain: those not listed, and those whose key list was empty. */
  function TablesLeft(tables: map<string, Table>, names: seq<string>): map<string, Table>
  {
    map n | n in tables && !(n in names && tables[n].indexes != map[]) :: tables[n]
  }

  lemma TablesLeftSnoc(tables: map<string, Table>, names: seq<string>, n: string)
    ensures var m := TablesLeft(tables, names);
            TablesLeft(tables, names + [n]) == if n in m && m[n].indexes != map[] then m - {n} else m
  {
    var m := TablesLeft(tables, names);
    var e := TablesLeft(tables, names + [n]);
    forall t ensures t in e <==> t in (if n in m && m[n].indexes != map[] then m - {n} else m) {
      assert t in names + [n] <==> t in names || t == n;
    }
  }

  /** `databaseDropTables` drops exactly the listed tables that exist and have a key, and changes nothing else. */
  lemma {:induction false} DropTablesEffect(s: DbState, names: seq<string>)
    ensures ApplyAll(s, DropTablesPlan(s, names)) == s.(tables := TablesLeft(s.tables, names))
  {
    if names == [] {
      assert TablesLeft(s.tables, names) == s.tables;
    } else {
      var pre := names[..|names| - 1];
      var n := names[|names| - 1];
      assert names == pre + [n];
      var p := DropTablesPlan(s, pre);
      DropTablesEffect(s, pre);
      TablesLeftSnoc(s.tables, pre, n);
      var m := TablesLeft(s.tables, pre);
      assert ApplyAll(s, p).tables == m;
      if n in m && m[n].indexes != map[] {
        ApplyAllSnoc(s, p, DropTable(n));
      } else {
        assert p + [] == p;
      }
    }
  }

  /** Once the listed tables are gone (or keyless), `databaseDropTables` issues nothing. */
  lemma {:induction false} DropTablesPlanNone(s: DbState, names: seq<string>)
    requires forall n :: n in names ==> n !in s.tables || s.tables[n].indexes == map[]
    ensures DropTablesPlan(s, names) == []
  {
    if names != [] {
      DropTablesPlanNone(s, names[..|names| - 1]);
      assert names[|names| - 1] in names;
    }
  }

  /** Running `databaseDropTables` twice: the second run drops nothing. */
  lemma DropTablesIdempotent(s: DbState, names: seq<string>)
    ensures DropTablesPlan(ApplyAll(s, DropTablesPlan(s, names)), names) == []
  {
    DropTablesEffect(s, names);
    DropTablesPlanNone(ApplyAll(s, DropTablesPlan(s, names)), names);
  }

  /** `databaseDropTables`; it never fails. */
  method DropTables(db: Database, names: seq<string>)
    modifies db
    ensures Issued(old(db.state), old(db.log), db.state, db.log, DropTablesPlan(old(db.state), names))
    ensures db.disconnects == old(db.disconnects) && db.cacheResets == old(db.cacheResets)
  {
    ghost var s0, l0 := db.state, db.log;
    var i := 0;
    IssuedNothing(s0, l0);
    while i < |names|
      invariant 0 <= i <= |names|
      invariant Issued(s0, l0, db.state, db.log, DropTablesPlan(s0, names[..i]))
      invariant db.disconnects == old(db.disconnects) && db.cacheResets == old(db.cacheResets)
    {
      ghost var s1, l1 := db.state, db.log;
      var n := names[i];
      assert names[..i + 1][..i] == names[..i];
      var keys := if n in db.state.tables then db.state.tables[n].indexes.Keys else {};
      if keys != {} {
        db.Execute(DropTable(n));
        IssuedTrans(s0, l0, s1, l1, db.state, db.log, DropTablesPlan(s0, names[..i]), [DropTable(n)]);
      } else {
        assert DropTablesPlan(s0, names[..i]) + [] == DropTablesPlan(s0, names[..i]);
      }
      i := i + 1;
    }
    assert names[..i] == names;
  }

  // ---------------------------------------------------------------------
  // databaseGetRudimentalSelect
  // ---------------------------------------------------------------------

  /** `a` is `b` with some elements left out, the rest in their order. */
  ghost predicate SubsequenceOf(a: seq<string>, b: seq<string>)
    decreases |b|
  {
    a == [] || (b != [] && if a[0] == b[0] then SubsequenceOf(a[1..], b[1..]) else SubsequenceOf(a, b[1..]))
  }

  /** The names of `rudimental` that are columns of the table, in argument order. */
  function Present(columns: map<string, ColumnDef>, rudimental: seq<string>): (r: seq<string>)
    ensures forall c :: c in r <==> c in rudimental && c in columns
    ensures SubsequenceOf(r, rudimental)
  {
    if rudimental == [] then []
    else if rudimental[0] in columns then [rudimental[0]] + Present(columns, rudimental[1..])
    else Present(columns, rudimental[1..])
  }

  /**
   * `databaseGetRudimentalSelect`: `None` stands for PHP's `false` (no
   * legacy column left), otherwise the select list is `base` followed by
   * the legacy columns present. The source's probe throws on a missing
   * table, which the caller rules out.
   */
  method RudimentalSelect(db: Database, table: string, rudimental: seq<string>, base: seq<string>)
    returns (r: Option<seq<string>>)
    requires table in db.state.tables
    ensures r.None? <==> forall c :: c in rudimental ==> c !in db.state.tables[table].columns
    ensures r.Some? ==> r.value == base + Present(db.state.tables[table].columns, rudimental)
  {
    var columns := db.state.tables[table].columns;
    var result := base;
    var i := 0;
    while i < |rudimental|
      invariant 0 <= i <= |rudimental|
      invariant result == base + Present(columns, rudimental[..i])
    {
      PresentSnoc(columns, rudimental[..i], rudimental[i]);
      assert rudimental[..i + 1] == rudimental[..i] + [rudimental[i]];
      if rudimental[i] in columns {
        result := result + [rudimental[i]];
      }
      i := i + 1;
    }
    assert rudimental[..i] == rudimental;
    var present := Present(columns, rudimental);
    if present != [] {
      assert present[0] in present;
    }
    if |result| == |base| {
      r := None;
    } else {
      r := Some(result);
    }
  }

  lemma {:induction false} PresentSnoc(columns: map<string, ColumnDef>, a: seq<string>, c: string)
    ensures Present(columns, a + [c]) == Present(columns, a) + (if c in columns then [c] else [])
  {
    if a == [] {
      assert [c][1..] == [];
    } else {
      assert (a + [c])[1..] == a[1..] + [c];
      PresentSnoc(columns, a[1..], c);
    }
  }
}
