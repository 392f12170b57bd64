/**
 * What the runs of the migration steps achieve: which rows get which
 * columns, what the ordering table gains, and that running a step a second
 * time issues nothing.
 */
module MigrationProperties {
  import opened Wrappers
  import opened Text
  import opened Store
  import opened SchemaEditor
  import opened ParamsMove
  import opened RowTransforms
  import opened Backfill
  import opened Migration300

  // ---------------------------------------------------------------------
  // Scans
  // ---------------------------------------------------------------------

  /** The scan order holds each id the scan query reads, above 0, once, ascending; those are rows of the table. */
  lemma ScanOrderOfFacts(job: Job, s: DbState)
    ensures var a := ScanOrderOf(job, s);
            && Increasing(a)
            && (forall y :: y in a <==> y in ScanIds(job, s) && y > 0)
            && (forall i :: 0 <= i < |a| ==> a[i] in TableOf(s, JobTable(job)).rows)
  {
    var a := ScanOrderOf(job, s);
    AscendingFacts(Above(ScanIds(job, s), 0));
    forall i | 0 <= i < |a| ensures a[i] in TableOf(s, JobTable(job)).rows {
      assert a[i] in a;
    }
  }

  /**
   * A whole scan: each row the query reads (with a positive id) gets its
   * patch, computed from the row as read, every other row and every table
   * the job does not touch is as before, and no table, column, index or row
   * appears or disappears.
   */
  lemma ScanStepRows(job: Job, s: DbState)
    ensures var t := After(s, ScanStep(job, s));
            && SameShape(s, t)
            && t.componentParams == s.componentParams
            && (forall n :: Untouched(job, n) ==> TableOf(t, n) == TableOf(s, n))
            && (forall y :: y in ScanIds(job, s) && y > 0 ==>
                  RowOf(t, JobTable(job), y) == RowOf(s, JobTable(job), y) + PatchOf(job, s, y))
            && (forall y :: !(y in ScanIds(job, s) && y > 0) ==> RowOf(t, JobTable(job), y) == RowOf(s, JobTable(job), y))
  {
    var a := ScanOrderOf(job, s);
    ScanOrderOfFacts(job, s);
    PlanPlanned(job);
    ScanEffect(job, Plan(job), a, 0, s);
    assert a[0..] == a;
  }

  /**
   * The products after a whole metas scan: each product a visited meta
   * lists points, through `meta_variability`, at the last such meta in
   * scan order, as the meta rows were read; every other product row is as
   * before, and no product row appears or disappears.
   */
  lemma ScanStepLinks(select: seq<string>, s: DbState)
    ensures var job := MetaRows(select);
            var t := After(s, ScanStep(job, s));
            && TableOf(t, Products).rows.Keys == TableOf(s, Products).rows.Keys
            && forall y :: y in TableOf(s, Products).rows ==>
                 RowOf(t, Products, y) == WithLink(RowOf(s, Products, y), LastLink(s, ScanOrderOf(job, s), y))
  {
    var job := MetaRows(select);
    var a := ScanOrderOf(job, s);
    ScanStepRows(job, s);
    ScanOrderOfFacts(job, s);
    PlanPlanned(job);
    ScanLinks(select, Plan(job), a, 0, s);
    assert a[0..] == a;
  }

  /**
   * The orderings after a scan: none are added unless the job backfills;
   * an item never gets a second root entry, none is lost, and every row
   * visited by a backfilling job has one.
   */
  lemma ScanStepOrderings(job: Job, s: DbState)
    ensures var t := After(s, ScanStep(job, s));
            && (!Backfills(job) ==> t.orderings == s.orderings)
            && (UniqueRoots(s.orderings) ==> UniqueRoots(t.orderings))
            && (forall u, other :: HasRootEntry(s.orderings, u, other) ==> HasRootEntry(t.orderings, u, other))
            && (Backfills(job) ==> forall y :: y in ScanIds(job, s) && y > 0 ==>
                  HasRootEntry(t.orderings, ItemTypeOf(job), OrderingItemId(ItemTypeOf(job), y)))
  {
    var a := ScanOrderOf(job, s);
    ScanOrderOfFacts(job, s);
    PlanPlanned(job);
    ScanOrderings(job, Plan(job), a, 0, s);
    forall y | y in ScanIds(job, s) && y > 0 ensures exists i :: 0 <= i < |a| && a[i] == y {
      assert y in a;
    }
  }

  // ---------------------------------------------------------------------
  // updateMenuItems
  // ---------------------------------------------------------------------

  /**
   * After the menu step no menu item is a legacy categories link any more
   * (the ids are positive), and a second run visits nothing, issues
   * nothing and closes no connection.
   */
  lemma MenuSettles(s: DbState)
    requires forall id :: id in TableOf(s, Menu).rows ==> id > 0
    ensures ScanIds(MenuRows, After(s, MenuStep(s))) == {}
    ensures MenuStep(After(s, MenuStep(s))) == StepRun(Pass, [], 0, 0)
  {
    var t := After(s, MenuStep(s));
    ScanStepRows(MenuRows, s);
    forall y | y in TableOf(t, Menu).rows ensures !MenuMatches(TableOf(t, Menu).rows[y]) {
      MenuRowSettled(s, y);
    }
    MenuQuiet(t);
  }

  /** A menu item after the scan is no legacy categories link. */
  lemma MenuRowSettled(s: DbState, y: int)
    requires forall id :: id in TableOf(s, Menu).rows ==> id > 0
    requires y in TableOf(After(s, MenuStep(s)), Menu).rows
    ensures !MenuMatches(TableOf(After(s, MenuStep(s)), Menu).rows[y])
  {
    ScanStepRow(MenuRows, s, y);
    if y in ScanIds(MenuRows, s) {
      MenuPatchSettles(RowOf(s, Menu, y));
    }
  }

  /** One row of a scan: it has its patch afterwards when the scan reads it, and is as before otherwise. */
  lemma ScanStepRow(job: Job, s: DbState, y: int)
    ensures var t := After(s, ScanStep(job, s));
            && (y in TableOf(t, JobTable(job)).rows <==> y in TableOf(s, JobTable(job)).rows)
            && RowOf(t, JobTable(job), y) == (if y in ScanIds(job, s) && y > 0
                                              then RowOf(s, JobTable(job), y) + PatchOf(job, s, y)
                                              else RowOf(s, JobTable(job), y))
  {
    ScanStepRows(job, s);
  }

  /** With no legacy link left the menu scan reads an empty first page. */
  lemma MenuQuiet(t: DbState)
    requires forall y :: y in TableOf(t, Menu).rows ==> !MenuMatches(TableOf(t, Menu).rows[y])
    ensures ScanIds(MenuRows, t) == {}
    ensures MenuStep(t) == StepRun(Pass, [], 0, 0)
  {
    assert JobTable(MenuRows) == Menu;
    assert forall x :: x !in ScanIds(MenuRows, t);
    assert Above({}, 0) == {};
    assert Ascending({}) == [];
  }

  // ---------------------------------------------------------------------
  // updateComponentParams
  // ---------------------------------------------------------------------

  lemma ComponentMappingDisjoint()
    ensures Disjoint(ComponentMapping)
  {
    var m := ComponentMapping;
    forall i | 0 <= i < |m| ensures forall j :: 0 <= j < |m| ==> m[i].0 != m[j].1 {
      SourceNotDestination(i);
    }
    forall i | 0 <= i < |m| ensures forall j :: i < j < |m| ==> m[i].0 != m[j].0 && m[i].1 != m[j].1 {
      EntryNamesUnique(i);
    }
  }

  /** No later entry has the source or the destination of entry `i`. */
  lemma EntryNamesUnique(i: nat)
    requires i < |ComponentMapping|
    ensures forall j :: i < j < |ComponentMapping| ==>
              ComponentMapping[i].0 != ComponentMapping[j].0 && ComponentMapping[i].1 != ComponentMapping[j].1
  {
    if i == 0 {
    } else if i == 1 {
    } else if i == 2 {
    } else if i == 3 {
    } else if i == 4 {
    } else if i == 5 {
    } else {
    }
  }

  /** The source of entry `i` is no entry's destination: a `user_` name or `0` against the others. */
  lemma SourceNotDestination(i: nat)
    requires i < |ComponentMapping|
    ensures forall j :: 0 <= j < |ComponentMapping| ==> ComponentMapping[i].0 != ComponentMapping[j].1
  {
    var m := ComponentMapping;
    if i == 0 {
    } else if i == 1 {
    } else if i == 2 {
    } else if i == 3 {
    } else if i == 4 {
    } else if i == 5 {
    } else {
    }
  }

  /** A second run of the parameter move moves nothing and saves nothing. */
  lemma ComponentParamsIdempotent(p: Params)
    ensures MoveAll(MoveAll(p, ComponentMapping).0, ComponentMapping) == (MoveAll(p, ComponentMapping).0, false)
  {
    ComponentMappingDisjoint();
    MoveAllIdempotent(p, ComponentMapping);
  }

  /**
   * The entry without a key has PHP's key 0, an empty path that
   * `Registry::exists` never finds, so it never fires: neither its key nor
   * its destination changes, the login timeout itself is never moved, and
   * `login_code_timeout` is never written.
   */
  lemma TimeoutNotMoved(p: Params)
    ensures SameAt(p, MoveAll(p, ComponentMapping).0, ComponentMapping[1].0)
    ensures SameAt(p, MoveAll(p, ComponentMapping).0, ComponentMapping[1].1)
    ensures SameAt(p, MoveAll(p, ComponentMapping).0, "user_login_timeout")
    ensures SameAt(p, MoveAll(p, ComponentMapping).0, "login_code_timeout")
  {
    ComponentMappingDisjoint();
    MoveAllDisjoint(p, ComponentMapping);
    assert !Fires(p, ComponentMapping[1].0, ComponentMapping[1].1);
    assert "user_login_timeout" !in Names(ComponentMapping);
    assert "login_code_timeout" !in Names(ComponentMapping);
  }

  // ---------------------------------------------------------------------
  // updateAlphaStructures
  // ---------------------------------------------------------------------

  /** After the alpha step both ordering indexes exist, and a second run issues nothing. */
  lemma AlphaIdempotent(s: DbState)
    requires AlphaStep(s).outcome.Pass?
    ensures var t := After(s, AlphaStep(s));
            && "idx_category_ordering_asc" in TableOf(t, CategoriesItems).indexes
            && "idx_category_ordering_desc" in TableOf(t, CategoriesItems).indexes
            && AlphaStep(t) == Issue([])
  {
    var t0 := s.tables[CategoriesItems];
    LiftApply(s, CategoriesItems, CreatePlan(t0, [], AlphaIndexes));
    CreateColumnsOutcome(t0, [], AlphaIndexes);
    assert AlphaIndexes[0].0 == "idx_category_ordering_asc" && AlphaIndexes[1].0 == "idx_category_ordering_desc";
  }

  // ---------------------------------------------------------------------
  // updateUsersColumns
  // ---------------------------------------------------------------------

  /** `column` is not an unsigned column of `t`. */
  predicate Signed(t: Table, column: string)
  {
    !(column in t.columns && Contains(t.columns[column].sqlType, "unsigned"))
  }

  /** The users step has nothing left to do on `t`. */
  predicate UsersSettled(t: Table)
  {
    Signed(t, "created_by") && Signed(t, "modified_by") && "idx_createdby" !in t.indexes
  }

  /** The MODIFY of one user column: that column is signed afterwards, nothing else changes. */
  lemma ResignEffect(t: Table, columns: map<string, ColumnDef>, column: string)
    requires (column in columns <==> column in t.columns) && (column in columns ==> t.columns[column] == columns[column])
    ensures var r := ApplyOps(t, Resign(columns, column));
            && r.indexes == t.indexes && r.rows == t.rows
            && r.columns.Keys == t.columns.Keys
            && (forall c :: c in t.columns && c != column ==> r.columns[c] == t.columns[c])
            && Signed(r, column)
  {
    var ops := Resign(columns, column);
    assert ApplyOps(t, []) == t;
    if ops != [] {
      ApplyOpsSnoc(t, [], ops[0]);
      assert [] + [ops[0]] == ops;
      assert !Contains(SignedUser.sqlType, "unsigned");
    }
  }

  /** The rename of `idx_createdby`: it is gone, and the columns are as before. */
  lemma RenameEffect(t: Table)
    requires "idx_createdby" in t.indexes
    ensures var d := ApplyOps(t, DropPlan(t, [], ["idx_createdby"]));
            var r := ApplyOps(d, CreatePlan(d, [], CreatedByIndex));
            && r.columns == t.columns
            && "idx_createdby" !in r.indexes
            && "idx_created_by" in r.indexes
            && ("idx_created_by" !in t.indexes ==> r.indexes["idx_created_by"] == [IndexColumn("created_by", false)])
            && (forall n :: n in t.indexes && n != "idx_createdby" ==> n in r.indexes && r.indexes[n] == t.indexes[n])
  {
    assert ApplyOps(t, []) == t;
    assert DropColumnsPlan(t.columns.Keys, []) == [];
    assert ["idx_createdby"][..0] == [];
    assert DropIndexesPlan(t.indexes.Keys, ["idx_createdby"]) == [DropIndex("idx_createdby")];
    ApplyOpsSnoc(t, [], DropIndex("idx_createdby"));
    var d := ApplyOps(t, DropPlan(t, [], ["idx_createdby"]));
    assert d == t.(indexes := t.indexes - {"idx_createdby"});
    CreateColumnsOutcome(d, [], CreatedByIndex);
  }

  /** The two MODIFYs of one table: both user columns signed, the indexes as before. */
  lemma ResignBoth(t: Table)
    ensures var r := ApplyOps(t, Resign(t.columns, "created_by") + Resign(t.columns, "modified_by"));
            && Signed(r, "created_by") && Signed(r, "modified_by") && r.indexes == t.indexes
  {
    var a := Resign(t.columns, "created_by");
    var b := Resign(t.columns, "modified_by");
    ApplyOpsAppend(t, a, b);
    ResignEffect(t, t.columns, "created_by");
    ResignEffect(ApplyOps(t, a), t.columns, "modified_by");
  }

  /** One table of the users step: it is settled afterwards, and no other table changes. */
  lemma UsersTableSettles(s: DbState, name: string)
    requires name in s.tables
    ensures var t := ApplyAll(s, UsersTable(s, name));
            && t.tables.Keys == s.tables.Keys
            && UsersSettled(t.tables[name])
            && (forall n :: n != name ==> TableOf(t, n) == TableOf(s, n))
  {
    var t0 := s.tables[name];
    var fix := Lift(name, Resign(t0.columns, "created_by") + Resign(t0.columns, "modified_by"));
    FixSigned(s, name);
    UsersTableParts(s, name);
    var s1 := ApplyAll(s, fix);
    if "idx_createdby" in s1.tables[name].indexes {
      RenameSettles(s1, name);
      ApplyAllAppend(s, fix, Rename(s1, name));
    } else {
      assert fix + [] == fix;
    }
  }

  /** The statements of one table: the MODIFYs, then the rename when the old index is there. */
  lemma UsersTableParts(s: DbState, name: string)
    ensures var t0 := TableOf(s, name);
            var fix := Lift(name, Resign(t0.columns, "created_by") + Resign(t0.columns, "modified_by"));
            var s1 := ApplyAll(s, fix);
            UsersTable(s, name) == fix + (if "idx_createdby" in TableOf(s1, name).indexes then Rename(s1, name) else [])
  {
  }

  /** The MODIFYs of one table sign both user columns of it and touch no other table. */
  lemma FixSigned(s: DbState, name: string)
    requires name in s.tables
    ensures var t0 := s.tables[name];
            var t := ApplyAll(s, Lift(name, Resign(t0.columns, "created_by") + Resign(t0.columns, "modified_by")));
            && t.tables.Keys == s.tables.Keys
            && Signed(t.tables[name], "created_by") && Signed(t.tables[name], "modified_by")
            && (forall n :: n != name ==> TableOf(t, n) == TableOf(s, n))
  {
    var t0 := s.tables[name];
    ResignBoth(t0);
    LiftApply(s, name, Resign(t0.columns, "created_by") + Resign(t0.columns, "modified_by"));
  }

  /** The statements renaming `idx_createdby` on table `name` of `s`. */
  function Rename(s: DbState, name: string): seq<Statement>
  {
    var drop := Lift(name, DropPlan(TableOf(s, name), [], ["idx_createdby"]));
    drop + Lift(name, CreatePlan(TableOf(ApplyAll(s, drop), name), [], CreatedByIndex))
  }

  lemma RenameSettles(s: DbState, name: string)
    requires name in s.tables && "idx_createdby" in s.tables[name].indexes
    ensures var t := ApplyAll(s, Rename(s, name));
            && t.tables.Keys == s.tables.Keys
            && t.tables[name].columns == s.tables[name].columns
            && "idx_createdby" !in t.tables[name].indexes
            && "idx_created_by" in t.tables[name].indexes
            && ("idx_created_by" !in s.tables[name].indexes ==> t.tables[name].indexes["idx_created_by"] == [IndexColumn("created_by", false)])
            && (forall n :: n != name ==> TableOf(t, n) == TableOf(s, n))
  {
    var drop := DropPlan(s.tables[name], [], ["idx_createdby"]);
    LiftApply(s, name, drop);
    var s2 := ApplyAll(s, Lift(name, drop));
    LiftApply(s2, name, CreatePlan(s2.tables[name], [], CreatedByIndex));
    RenameEffect(s.tables[name]);
    ApplyAllAppend(s, Lift(name, drop), Lift(name, CreatePlan(s2.tables[name], [], CreatedByIndex)));
  }

  /** A settled table: the users step issues nothing on it. */
  lemma UsersTableQuiet(s: DbState, name: string)
    requires name in s.tables && UsersSettled(s.tables[name])
    ensures UsersTable(s, name) == []
  {
    assert Lift(name, []) == [];
    assert ApplyAll(s, []) == s;
  }

  /** The tables of the users step are settled once it passes; the other tables are untouched. */
  lemma {:induction false} UsersTablesEffect(s: DbState, tables: seq<string>)
    requires UsersTables(s, tables).outcome.Pass?
    ensures var t := After(s, UsersTables(s, tables));
            && t.tables.Keys == s.tables.Keys
            && (forall i :: 0 <= i < |tables| ==> tables[i] in t.tables && UsersSettled(t.tables[tables[i]]))
            && (forall n :: n !in tables ==> TableOf(t, n) == TableOf(s, n))
  {
    if tables == [] {
      assert ApplyAll(s, []) == s;
    } else {
      var init := tables[..|tables| - 1];
      var name := tables[|tables| - 1];
      var pre := UsersTables(s, init);
      UsersTablesEffect(s, init);
      var s1 := After(s, pre);
      UsersTableSettles(s1, name);
      ApplyAllAppend(s, pre.stmts, UsersTable(s1, name));
      forall i | 0 <= i < |tables| - 1
        ensures tables[i] in After(s, UsersTables(s, tables)).tables
        ensures UsersSettled(After(s, UsersTables(s, tables)).tables[tables[i]])
      {
        assert tables[i] == init[i];
        if tables[i] != name {
          assert TableOf(ApplyAll(s1, UsersTable(s1, name)), tables[i]) == TableOf(s1, tables[i]);
        }
      }
      forall n | n !in tables ensures TableOf(After(s, UsersTables(s, tables)), n) == TableOf(s, n) {
        assert n !in init;
      }
    }
  }

  /** With every table settled, the users step issues nothing. */
  lemma {:induction false} UsersTablesQuiet(s: DbState, tables: seq<string>)
    requires forall i :: 0 <= i < |tables| ==> tables[i] in s.tables && UsersSettled(s.tables[tables[i]])
    ensures UsersTables(s, tables) == Issue([])
  {
    if tables != [] {
      var init := tables[..|tables| - 1];
      UsersTablesQuiet(s, init);
      assert ApplyAll(s, []) == s;
      UsersTableQuiet(s, tables[|tables| - 1]);
    }
  }

  /**
   * After the users step neither user column of the three tables is
   * unsigned and `idx_createdby` is gone; a second run modifies nothing and
   * only closes the connection.
   */
  lemma UsersIdempotent(s: DbState)
    requires UsersStep(s).outcome.Pass?
    ensures var t := After(s, UsersStep(s));
            && (forall n :: n in UserTables ==> n in t.tables && UsersSettled(t.tables[n]))
            && UsersStep(t) == StepRun(Pass, [], 1, 0)
  {
    UsersTablesEffect(s, UserTables);
    var t := After(s, UsersStep(s));
    UsersTablesQuiet(t, UserTables);
  }

  // ---------------------------------------------------------------------
  // updateProductsStructure, updateMetasStructure
  // ---------------------------------------------------------------------

  /** A step run one after the other ends where the second part ends. */
  lemma AfterThen(s: DbState, a: StepRun, b: StepRun)
    ensures After(s, Then(a, b)) == After(After(s, a), b)
  {
    ApplyAllAppend(s, a.stmts, b.stmts);
  }

  /**
   * What the products and metas steps need of their constants: the table is
   * the entity's, the new columns and indexes have distinct names, are not
   * dropped again and keep a column once the dropped ones are gone, every
   * legacy column is dropped, and the mapping table is another table.
   */
  predicate ValidStructure(c: Structure)
  {
    && (c.entity == ProductEntity ==> c.table == Products)
    && (c.entity == MetaEntity ==> c.table == Metas)
    && DistinctKeys(c.columns) && DistinctKeys(c.indexes)
    && c.mappingTable != c.table
    && LegacyDropped(c)
    && CreatedKept(c)
  }

  /** Every legacy column is among the dropped ones. */
  predicate LegacyDropped(c: Structure)
  {
    forall x :: x in c.legacy ==> x in c.dropColumns
  }

  /** No new column or index is dropped, and each new index keeps a column. */
  predicate CreatedKept(c: Structure)
  {
    && (forall i :: 0 <= i < |c.columns| ==> c.columns[i].0 !in c.dropColumns)
    && (forall i :: 0 <= i < |c.indexes| ==>
          c.indexes[i].0 !in c.dropIndexes && Keep(c.indexes[i].1, set x | x in c.dropColumns) != [])
  }

  lemma ProductsStructureValid()
    ensures ValidStructure(ProductsStructure)
  {
    ProductsColumnsDistinct();
    ProductsLegacyDropped();
    ProductsCreatedKept();
  }

  lemma ProductsColumnsDistinct()
    ensures DistinctKeys(ProductsStructure.columns)
  {
  }

  lemma ProductsLegacyDropped()
    ensures LegacyDropped(ProductsStructure)
  {
  }

  lemma ProductsCreatedKept()
    ensures CreatedKept(ProductsStructure)
  {
    var c := ProductsStructure;
    forall i | 0 <= i < |c.columns| ensures c.columns[i].0 !in c.dropColumns {
      ProductsColumnKept(i);
    }
    assert IndexColumn("meta_variability", false) in Keep(c.indexes[0].1, set x | x in c.dropColumns);
  }

  lemma ProductsColumnKept(i: nat)
    requires i < |ProductsStructure.columns|
    ensures ProductsStructure.columns[i].0 !in ProductsStructure.dropColumns
  {
    if i == 0 {
    } else if i == 1 {
    } else if i == 2 {
    } else if i == 3 {
    } else if i == 4 {
    } else {
    }
  }

  lemma MetasStructureValid()
    ensures ValidStructure(MetasStructure)
  {
    MetasColumnsDistinct();
    MetasLegacyDropped();
    MetasCreatedKept();
  }

  lemma MetasColumnsDistinct()
    ensures DistinctKeys(MetasStructure.columns)
  {
  }

  lemma MetasLegacyDropped()
    ensures LegacyDropped(MetasStructure)
  {
  }

  lemma MetasCreatedKept()
    ensures CreatedKept(MetasStructure)
  {
    var c := MetasStructure;
    forall i | 0 <= i < |c.columns| ensures c.columns[i].0 !in c.dropColumns {
      MetasColumnKept(i);
    }
    assert IndexColumn("in_stock", false) in Keep(c.indexes[0].1, set x | x in c.dropColumns);
  }

  lemma MetasColumnKept(i: nat)
    requires i < |MetasStructure.columns|
    ensures MetasStructure.columns[i].0 !in MetasStructure.dropColumns
  {
    if i < 6 {
      if i == 0 {
      } else if i == 1 {
      } else if i == 2 {
      } else if i == 3 {
      } else if i == 4 {
      } else {
      }
    } else {
      if i == 6 {
      } else if i == 7 {
      } else if i == 8 {
      } else if i == 9 {
      } else if i == 10 {
      } else {
      }
    }
  }

  /** An index that keeps a column when `big` is dropped keeps one when a part of `big` is. */
  lemma KeepShrinks(parts: seq<IndexColumn>, small: set<string>, big: set<string>)
    requires small <= big && Keep(parts, big) != []
    ensures Keep(parts, small) != []
  {
    var p := Keep(parts, big)[0];
    assert p in Keep(parts, big);
    assert p in Keep(parts, small);
  }

  /** The legacy-free table a structure step leaves: what a second run finds. */
  predicate Restructured(c: Structure, t: Table)
  {
    && (forall i :: 0 <= i < |c.columns| ==> c.columns[i].0 in t.columns)
    && (forall i :: 0 <= i < |c.indexes| ==> c.indexes[i].0 in t.indexes)
    && (forall x :: x in c.legacy ==> x !in t.columns)
  }

  /**
   * The table after the new columns and indexes: it has them all, no index
   * without columns, and every index the step asks for still keeps a column
   * once the legacy columns are dropped.
   */
  lemma CreatedTable(c: Structure, t: Table)
    requires ValidStructure(c) && WellFormed(t)
    requires forall i :: 0 <= i < |c.indexes| && c.indexes[i].0 in t.indexes ==>
               Keep(t.indexes[c.indexes[i].0], set x | x in c.dropColumns) != []
    ensures var r := ApplyOps(t, CreatePlan(t, c.columns, c.indexes));
            && WellFormed(r) && r.rows == WithInitials(t.rows, NewEntries(t.columns.Keys, c.columns))
            && (forall x :: x in t.columns ==> x in r.columns)
            && (forall i :: 0 <= i < |c.columns| ==> c.columns[i].0 in r.columns)
            && (forall i :: 0 <= i < |c.indexes| ==>
                  c.indexes[i].0 in r.indexes && Keep(r.indexes[c.indexes[i].0], set x | x in c.dropColumns) != [])
  {
    CreateColumnsOutcome(t, c.columns, c.indexes);
    var r := ApplyOps(t, CreatePlan(t, c.columns, c.indexes));
    forall n | n in r.indexes ensures r.indexes[n] != [] {
      if n !in t.indexes {
        var i :| 0 <= i < |c.indexes| && c.indexes[i].0 == n;
        assert Keep(c.indexes[i].1, set x | x in c.dropColumns) != [];
      }
    }
  }

  /** The legacy columns and indexes dropped from a created table leave it restructured. */
  lemma DroppedTable(c: Structure, t: Table)
    requires ValidStructure(c) && WellFormed(t)
    requires forall i :: 0 <= i < |c.columns| ==> c.columns[i].0 in t.columns
    requires forall i :: 0 <= i < |c.indexes| ==>
               c.indexes[i].0 in t.indexes && Keep(t.indexes[c.indexes[i].0], set x | x in c.dropColumns) != []
    ensures Restructured(c, ApplyOps(t, DropPlan(t, c.dropColumns, c.dropIndexes)))
  {
    DropColumnsOutcome(t, c.dropColumns, c.dropIndexes);
    var dropped := set x | x in c.dropColumns && x in t.columns;
    forall i | 0 <= i < |c.indexes|
      ensures Keep(t.indexes[c.indexes[i].0], dropped) != []
    {
      KeepShrinks(t.indexes[c.indexes[i].0], dropped, set x | x in c.dropColumns);
    }
  }

  /** The backfill, the drop and the mapping table: the step's table is the scanned one with the legacy parts dropped. */
  lemma BackfilledTable(c: Structure, present: seq<string>, s: DbState)
    requires c.table in s.tables && c.mappingTable != c.table
    ensures var s1 := After(s, ScanStep(StructureJob(c, c.base + present), s));
            && c.table in s1.tables
            && s1.tables[c.table].columns == s.tables[c.table].columns
            && s1.tables[c.table].indexes == s.tables[c.table].indexes
            && var t := After(s, Backfilled(c, present, s));
               && c.table in t.tables
               && t.tables[c.table] == ApplyOps(s1.tables[c.table], DropPlan(s1.tables[c.table], c.dropColumns, c.dropIndexes))
               && t.orderings == s1.orderings
  {
    var job := StructureJob(c, c.base + present);
    var scan := ScanStep(job, s);
    ScanStepRows(job, s);
    var s1 := After(s, scan);
    var t1 := s1.tables[c.table];
    var drop := Issue(Lift(c.table, DropPlan(t1, c.dropColumns, c.dropIndexes)));
    LiftApply(s1, c.table, DropPlan(t1, c.dropColumns, c.dropIndexes));
    var s2 := After(s1, drop);
    DropTablesEffect(s2, [c.mappingTable]);
    AfterThen(s, scan, Then(drop, Issue(DropTablesPlan(s2, [c.mappingTable]))));
    AfterThen(s1, drop, Issue(DropTablesPlan(s2, [c.mappingTable])));
  }

  /**
   * When the detector finds no legacy column the step only adds the new
   * columns and indexes to its table: it passes, runs no scan, and the rows
   * change only by taking the added columns' initial values.
   */
  lemma StructureNoLegacy(c: Structure, s: DbState)
    requires ValidStructure(c) && c.table in s.tables
    requires forall x :: x in c.legacy ==> x !in s.tables[c.table].columns
    ensures var r := StructureStep(c, s);
            && r.outcome == Pass && r.disconnects == 0 && r.cacheResets == 0
            && (forall st :: st in r.stmts ==> st.OnTable? && st.table == c.table && (st.op.AddColumn? || st.op.AddIndex?))
            && After(s, r).tables.Keys == s.tables.Keys
            && After(s, r).tables[c.table].rows == WithInitials(s.tables[c.table].rows, NewEntries(s.tables[c.table].columns.Keys, c.columns))
  {
    var t0 := s.tables[c.table];
    var plan := CreatePlan(t0, c.columns, c.indexes);
    CreateColumnsOutcome(t0, c.columns, c.indexes);
    LiftApply(s, c.table, plan);
    AddColumnsPlanIssues(t0.columns.Keys, c.columns);
    AddIndexesPlanIssues(t0.indexes.Keys, c.indexes);
    var t1 := ApplyOps(t0, plan);
    PresentEmpty(t1.columns, c.legacy);
    forall st | st in Lift(c.table, plan)
      ensures st.OnTable? && st.table == c.table && (st.op.AddColumn? || st.op.AddIndex?)
    {
      var i :| 0 <= i < |plan| && Lift(c.table, plan)[i] == st;
      assert plan[i] in plan;
    }
  }

  /**
   * Running the products or metas step a second time issues nothing: the
   * new columns and indexes are there and the legacy columns gone, so the
   * creation is skipped and the detector takes the early exit. An index the
   * step would create that the table already has must keep a column when
   * the legacy columns go (otherwise MySQL drops it with them).
   */
  lemma StructureIdempotent(c: Structure, s: DbState)
    requires ValidStructure(c) && c.table in s.tables && WellFormed(s.tables[c.table])
    requires forall i :: 0 <= i < |c.indexes| && c.indexes[i].0 in s.tables[c.table].indexes ==>
               Keep(s.tables[c.table].indexes[c.indexes[i].0], set x | x in c.dropColumns) != []
    ensures StructureStep(c, After(s, StructureStep(c, s))) == Issue([])
  {
    var t0 := s.tables[c.table];
    var create := Issue(Lift(c.table, CreatePlan(t0, c.columns, c.indexes)));
    LiftApply(s, c.table, CreatePlan(t0, c.columns, c.indexes));
    CreatedTable(c, t0);
    CreateColumnsOutcome(t0, c.columns, c.indexes);
    var s1 := After(s, create);
    var t1 := s1.tables[c.table];
    var present := Present(t1.columns, c.legacy);
    var u := After(s, StructureStep(c, s));
    if present != [] {
      AfterThen(s, create, Backfilled(c, present, s1));
      BackfilledTable(c, present, s1);
      var tA := After(s1, ScanStep(StructureJob(c, c.base + present), s1)).tables[c.table];
      DroppedTable(c, tA);
      StructureQuiet(c, u);
    } else {
      assert u == s1;
      assert Lift(c.table, []) == [];
      assert After(s1, Issue([])) == s1;
    }
  }

  /** On a restructured table the step issues nothing. */
  lemma StructureQuiet(c: Structure, s: DbState)
    requires c.table in s.tables && Restructured(c, s.tables[c.table])
    ensures StructureStep(c, s) == Issue([])
  {
    var t := s.tables[c.table];
    AddColumnsPlanNone(t.columns.Keys, c.columns);
    AddIndexesPlanNone(t.indexes.Keys, c.indexes);
    assert Lift(c.table, []) == [];
    assert After(s, Issue([])) == s;
    PresentEmpty(t.columns, c.legacy);
  }

  /** The item type of the ordering entries a structure step backfills. */
  function ItemOf(c: Structure): ItemType
  {
    if c.entity == MetaEntity then MetaType else ProductType
  }

  /**
   * The ordering backfill of the products and metas steps: while the legacy
   * `ordering` column is there, every row with a positive id ends with a
   * root ordering entry (a meta under its negated id), no entry is lost and
   * no item gets a second root entry.
   */
  lemma StructureOrderings(c: Structure, s: DbState)
    requires ValidStructure(c) && c.table in s.tables
    requires "ordering" in c.legacy && "ordering" in s.tables[c.table].columns
    ensures var t := After(s, StructureStep(c, s));
            && (UniqueRoots(s.orderings) ==> UniqueRoots(t.orderings))
            && (forall u, other :: HasRootEntry(s.orderings, u, other) ==> HasRootEntry(t.orderings, u, other))
            && (forall y :: y in s.tables[c.table].rows && y > 0 ==>
                  HasRootEntry(t.orderings, ItemOf(c), OrderingItemId(ItemOf(c), y)))
  {
    var t0 := s.tables[c.table];
    var create := Issue(Lift(c.table, CreatePlan(t0, c.columns, c.indexes)));
    LiftApply(s, c.table, CreatePlan(t0, c.columns, c.indexes));
    CreateColumnsOutcome(t0, c.columns, c.indexes);
    var s1 := After(s, create);
    var present := Present(s1.tables[c.table].columns, c.legacy);
    assert "ordering" in present;
    var job := StructureJob(c, c.base + present);
    assert "ordering" in c.base + present;
    assert JobTable(job) == c.table && ItemTypeOf(job) == ItemOf(c);
    AfterThen(s, create, Backfilled(c, present, s1));
    BackfilledTable(c, present, s1);
    ScanStepOrderings(job, s1);
  }

  // ---------------------------------------------------------------------
  // updateCategoriesStructure
  // ---------------------------------------------------------------------

  /** The categories step has nothing left to do on `t`. */
  predicate CategoriesSettled(t: Table)
  {
    && "fields" in t.columns && t.columns["fields"].sqlType == "text"
    && "totals" in t.columns
    && (t.rows == map[] || forall x :: x in CategoryLegacy ==> x !in t.columns)
  }

  /** On a settled table the categories step issues nothing and closes no connection. */
  lemma CategoriesQuiet(s: DbState)
    requires Categories in s.tables && CategoriesSettled(s.tables[Categories])
    ensures CategoriesStep(s) == Issue([])
  {
    var t := s.tables[Categories];
    assert FieldsText(s) == Issue([]);
    assert ApplyAll(s, []) == s;
    AddColumnsPlanNone(t.columns.Keys, CategoryColumns);
    assert Lift(Categories, []) == [];
    PresentEmpty(t.columns, CategoryLegacy);
  }

  /** The `fields` column made `text`: nothing else of the table changes. */
  lemma FieldsTextEffect(s: DbState)
    requires Categories in s.tables && "fields" in s.tables[Categories].columns
    ensures var t := After(s, FieldsText(s));
            var before := s.tables[Categories];
            && t.tables.Keys == s.tables.Keys
            && t.tables[Categories].rows == before.rows
            && t.tables[Categories].indexes == before.indexes
            && t.tables[Categories].columns.Keys == before.columns.Keys
            && t.tables[Categories].columns["fields"].sqlType == "text"
  {
    assert ApplyAll(s, []) == s;
    ApplyOne(s, OnTable(Categories, ModifyColumn("fields", TextNull)));
  }

  /** The totals part of the step settles a table whose `fields` column is `text`. */
  lemma CategoriesColumnsSettle(s: DbState)
    requires Categories in s.tables && WellFormed(s.tables[Categories])
    requires "fields" in s.tables[Categories].columns && s.tables[Categories].columns["fields"].sqlType == "text"
    ensures var t := After(s, CategoriesColumns(s));
            Categories in t.tables && CategoriesSettled(t.tables[Categories])
  {
    var t0 := s.tables[Categories];
    var create := Issue(Lift(Categories, CreatePlan(t0, CategoryColumns, [])));
    LiftApply(s, Categories, CreatePlan(t0, CategoryColumns, []));
    CreateColumnsOutcome(t0, CategoryColumns, []);
    var s1 := After(s, create);
    var t1 := s1.tables[Categories];
    var present := Present(t1.columns, CategoryLegacy);
    PresentEmpty(t1.columns, CategoryLegacy);
    if t1.rows != map[] && present != [] {
      TotalsSettle(present, s1);
      AfterThen(s, create, Totals(present, s1));
    }
  }

  /** The totals scan and the drop leave no legacy total column and keep `fields` and `totals`. */
  lemma TotalsSettle(present: seq<string>, s: DbState)
    requires Categories in s.tables && WellFormed(s.tables[Categories])
    requires "fields" in s.tables[Categories].columns && s.tables[Categories].columns["fields"].sqlType == "text"
    requires "totals" in s.tables[Categories].columns
    ensures var t := After(s, Totals(present, s));
            Categories in t.tables && CategoriesSettled(t.tables[Categories])
  {
    var job := CategoryRows(CategoryBase + present);
    var scan := ScanStep(job, s);
    ScanStepRows(job, s);
    var sA := After(s, scan);
    var tA := sA.tables[Categories];
    LiftApply(sA, Categories, DropPlan(tA, CategoryDropColumns, CategoryDropIndexes));
    DropColumnsOutcome(tA, CategoryDropColumns, CategoryDropIndexes);
    AfterThen(s, scan, Issue(Lift(Categories, DropPlan(tA, CategoryDropColumns, CategoryDropIndexes))));
  }

  /**
   * After the categories step `fields` is `text`, `totals` exists and, on a
   * table with rows, no legacy total column is left; a second run issues
   * nothing and closes no connection.
   */
  lemma CategoriesIdempotent(s: DbState)
    requires Categories in s.tables && "fields" in s.tables[Categories].columns && WellFormed(s.tables[Categories])
    ensures var t := After(s, CategoriesStep(s));
            && Categories in t.tables && CategoriesSettled(t.tables[Categories])
            && CategoriesStep(t) == Issue([])
  {
    var fix := FieldsText(s);
    FieldsTextEffect(s);
    var s1 := After(s, fix);
    CategoriesColumnsSettle(s1);
    AfterThen(s, fix, CategoriesColumns(s1));
    CategoriesQuiet(After(s, CategoriesStep(s)));
  }

  // ---------------------------------------------------------------------
  // updateFieldsStructure
  // ---------------------------------------------------------------------

  /** Field row `after` holds the old `fieldset` in both new columns, has no `fieldset`, and agrees with `before` elsewhere. */
  ghost predicate CopiedRow(before: Row, after: Row)
  {
    && Get(after, "fieldset_site") == Get(before, "fieldset")
    && Get(after, "fieldset_administrator") == Get(before, "fieldset")
    && "fieldset" !in after
    && (forall c :: c != "fieldset_site" && c != "fieldset_administrator" && c != "fieldset" ==> Get(after, c) == Get(before, c))
  }

  /** A field row after the copy and the drop. */
  lemma FieldsetRow(row: Row)
    ensures CopiedRow(row, (row + map c | c in FieldsetCopy.targets :: Get(row, "fieldset")) - {"fieldset"})
  {
  }

  /**
   * The created fields table: both new columns exist, every row keeps its
   * fields other than the two new columns, no index is empty.
   */
  lemma FieldsCreated(t: Table)
    requires WellFormed(t)
    ensures var r := ApplyOps(t, CreatePlan(t, FieldColumns, FieldIndexes));
            && WellFormed(r) && r.rows.Keys == t.rows.Keys
            && (forall id, c :: id in t.rows && c != "fieldset_site" && c != "fieldset_administrator" ==>
                  Get(r.rows[id], c) == Get(t.rows[id], c))
            && (forall c :: c in t.columns ==> c in r.columns)
            && "fieldset_site" in r.columns && "fieldset_administrator" in r.columns
  {
    CreateColumnsOutcome(t, FieldColumns, FieldIndexes);
    assert FieldColumns[0].0 == "fieldset_administrator" && FieldColumns[1].0 == "fieldset_site";
    var r := ApplyOps(t, CreatePlan(t, FieldColumns, FieldIndexes));
    assert forall c :: c in r.columns ==> c in t.columns || c == "fieldset_site" || c == "fieldset_administrator";
    FieldsRowsKept(t, r);
  }

  /** Rows that changed only in columns the table gained keep every field outside the two new columns. */
  lemma FieldsRowsKept(t: Table, r: Table)
    requires forall c :: c in r.columns ==> c in t.columns || c == "fieldset_site" || c == "fieldset_administrator"
    requires r.rows.Keys == t.rows.Keys
    requires forall id, c :: id in t.rows && (c in t.columns || c !in r.columns) ==>
               (c in r.rows[id] <==> c in t.rows[id]) && (c in t.rows[id] ==> r.rows[id][c] == t.rows[id][c])
    ensures forall id, c :: id in t.rows && c != "fieldset_site" && c != "fieldset_administrator" ==>
              Get(r.rows[id], c) == Get(t.rows[id], c)
  {
    forall id, c | id in t.rows && c != "fieldset_site" && c != "fieldset_administrator"
      ensures Get(r.rows[id], c) == Get(t.rows[id], c)
    {
      assert c in t.columns || c !in r.columns;
    }
  }

  /** A copied row agrees with any row that holds the same fields outside the two new columns. */
  lemma CopiedRowAgree(before: Row, created: Row, after: Row)
    requires CopiedRow(created, after)
    requires forall c :: c != "fieldset_site" && c != "fieldset_administrator" ==> Get(created, c) == Get(before, c)
    ensures CopiedRow(before, after)
  {
    assert Get(created, "fieldset") == Get(before, "fieldset");
  }

  /**
   * The fields step copies `fieldset` into `fieldset_site` and
   * `fieldset_administrator` on every row and then drops it with its index;
   * the other columns of each row keep their values, and a second run
   * issues nothing.
   */
  lemma FieldsCopied(s: DbState)
    requires Fields in s.tables && "fieldset" in s.tables[Fields].columns && WellFormed(s.tables[Fields])
    ensures var t := After(s, FieldsStep(s));
            var before := s.tables[Fields];
            && t.tables.Keys == s.tables.Keys
            && t.tables[Fields].rows.Keys == before.rows.Keys
            && (forall id :: id in before.rows ==> CopiedRow(before.rows[id], t.tables[Fields].rows[id]))
            && "fieldset" !in t.tables[Fields].columns && "idx_fieldset" !in t.tables[Fields].indexes
            && "fieldset_site" in t.tables[Fields].columns && "fieldset_administrator" in t.tables[Fields].columns
            && FieldsStep(t) == Issue([])
  {
    var t0 := s.tables[Fields];
    var create := Lift(Fields, CreatePlan(t0, FieldColumns, FieldIndexes));
    LiftApply(s, Fields, CreatePlan(t0, FieldColumns, FieldIndexes));
    FieldsCreated(t0);
    var s1 := ApplyAll(s, create);
    ApplyAllAppend(s, create, [OnTable(Fields, FieldsetCopy)]);
    ApplyOne(s1, OnTable(Fields, FieldsetCopy));
    var s2 := ApplyAll(s, create + [OnTable(Fields, FieldsetCopy)]);
    var t2 := s2.tables[Fields];
    var drop := Lift(Fields, DropPlan(t2, ["fieldset"], ["idx_fieldset"]));
    LiftApply(s2, Fields, DropPlan(t2, ["fieldset"], ["idx_fieldset"]));
    ApplyAllAppend(s, create + [OnTable(Fields, FieldsetCopy)], drop);
    var t1 := s1.tables[Fields];
    FieldsDropped(t1, t1.rows);
    var r := ApplyAll(s, create + [OnTable(Fields, FieldsetCopy)] + drop).tables[Fields];
    forall id | id in t0.rows ensures CopiedRow(t0.rows[id], r.rows[id]) {
      CopiedRowAgree(t0.rows[id], t1.rows[id], r.rows[id]);
    }
  }

  /** The copy and the drop on the created table, whose rows are `rows`. */
  lemma FieldsDropped(t: Table, rows: map<int, Row>)
    requires WellFormed(t) && t.rows == rows && "fieldset" in t.columns
    requires "fieldset_site" in t.columns && "fieldset_administrator" in t.columns
    ensures var c := ApplyOp(t, FieldsetCopy);
            var r := ApplyOps(c, DropPlan(c, ["fieldset"], ["idx_fieldset"]));
            && r.rows.Keys == rows.Keys
            && (forall id :: id in rows ==> CopiedRow(rows[id], r.rows[id]))
            && "fieldset" !in r.columns && "idx_fieldset" !in r.indexes
            && "fieldset_site" in r.columns && "fieldset_administrator" in r.columns
  {
    var c := ApplyOp(t, FieldsetCopy);
    FieldsetDrop(c);
    var r := ApplyOps(c, DropPlan(c, ["fieldset"], ["idx_fieldset"]));
    assert c.rows.Keys == t.rows.Keys && c.columns == t.columns;
    forall id | id in rows ensures CopiedRow(rows[id], r.rows[id]) {
      FieldsRowAfter(t, id);
    }
  }

  /** One row of the fields table through the copy and the drop. */
  lemma FieldsRowAfter(t: Table, id: int)
    requires WellFormed(t) && "fieldset" in t.columns && id in t.rows
    ensures var c := ApplyOp(t, FieldsetCopy);
            var r := ApplyOps(c, DropPlan(c, ["fieldset"], ["idx_fieldset"]));
            id in r.rows && CopiedRow(t.rows[id], r.rows[id])
  {
    var c := ApplyOp(t, FieldsetCopy);
    FieldsetDrop(c);
    assert c.rows[id] == t.rows[id] + map x | x in FieldsetCopy.targets :: Get(t.rows[id], "fieldset");
    FieldsetRow(t.rows[id]);
  }

  /** Dropping `fieldset` and its index removes that column from the table and from every row. */
  lemma FieldsetDrop(c: Table)
    requires WellFormed(c) && "fieldset" in c.columns
    ensures var r := ApplyOps(c, DropPlan(c, ["fieldset"], ["idx_fieldset"]));
            && r.columns == c.columns - {"fieldset"}
            && r.rows == (map id | id in c.rows :: c.rows[id] - {"fieldset"})
            && r.rows.Keys == c.rows.Keys
            && "idx_fieldset" !in r.indexes
  {
    DropColumnsOutcome(c, ["fieldset"], ["idx_fieldset"]);
    assert (set x | x in ["fieldset"] && x in c.columns) == {"fieldset"};
  }
}
