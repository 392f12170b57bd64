/**
 * The steps of the 2.0.0 to 3.0.0 migration (`RadicalMart300`). Each step
 * is a method on the database connection and a function, its *run*: the
 * outcome, the statements issued and the connection closes and cache
 * resets, all computed from the state the step starts in. The method is
 * proved to do exactly its run; what the runs achieve is proved in
 * `MigrationProperties`.
 */
module Migration300 {
  import opened Wrappers
  import opened Text
  import opened Store
  import opened SchemaEditor
  import opened ParamsMove
  import opened Backfill

  /** The steps, in the order the command runs them. */
  const Methods: seq<string> := [
    "updateAlphaStructures",
    "updateComponentParams",
    "updateUsersColumns",
    "updateProductsStructure",
    "updateMetasStructure",
    "updateCategoriesStructure",
    "updateFieldsStructure",
    "updateMenuItems",
    "resaveProducts",
    "resaveMetas"
  ]

  const Orders := "#__radicalmart_orders"
  const CategoriesItems := "#__radicalmart_categories_items"
  const ProductsCategories := "#__radicalmart_products_categories"
  const MetasCategories := "#__radicalmart_metas_categories"

  /** What a step did: its outcome, the statements it issued, and how often it closed the connection and reset the caches. */
  datatype StepRun = StepRun(outcome: Outcome<string>, stmts: seq<Statement>, disconnects: nat, cacheResets: nat)

  /** The statements `stmts`, issued by a step that goes on. */
  function Issue(stmts: seq<Statement>): StepRun
  {
    StepRun(Pass, stmts, 0, 0)
  }

  /** A step that stops, having issued nothing: the driver's metadata probe throws on a missing table. */
  function Missing(table: string): StepRun
  {
    StepRun(Fail("table " + table + " does not exist"), [], 0, 0)
  }

  /** `a` followed by `b`; the outcome is the later one. */
  function Then(a: StepRun, b: StepRun): StepRun
  {
    StepRun(b.outcome, a.stmts + b.stmts, a.disconnects + b.disconnects, a.cacheResets + b.cacheResets)
  }

  function After(s: DbState, r: StepRun): DbState
  {
    ApplyAll(s, r.stmts)
  }

  /** The connection did `r`, from the state `s0`, log `l0` and counters `d0`, `c0` it started with. */
  ghost predicate Ran(db: Database, s0: DbState, l0: seq<Statement>, d0: nat, c0: nat, outcome: Outcome<string>, r: StepRun)
    reads db
  {
    && outcome == r.outcome
    && Issued(s0, l0, db.state, db.log, r.stmts)
    && db.disconnects == d0 + r.disconnects
    && db.cacheResets == c0 + r.cacheResets
  }

  lemma RanThen(db: Database, s0: DbState, l0: seq<Statement>, d0: nat, c0: nat, a: StepRun,
                s1: DbState, l1: seq<Statement>, d1: nat, c1: nat, outcome: Outcome<string>, b: StepRun)
    requires Issued(s0, l0, s1, l1, a.stmts) && d1 == d0 + a.disconnects && c1 == c0 + a.cacheResets
    requires Ran(db, s1, l1, d1, c1, outcome, b)
    ensures Ran(db, s0, l0, d0, c0, outcome, Then(a, b))
  {
    IssuedTrans(s0, l0, s1, l1, db.state, db.log, a.stmts, b.stmts);
  }

  /** The select list has no legacy column exactly when `Present` is empty. */
  lemma PresentEmpty(columns: map<string, ColumnDef>, legacy: seq<string>)
    ensures Present(columns, legacy) == [] <==> forall c :: c in legacy ==> c !in columns
  {
    var p := Present(columns, legacy);
    if p != [] {
      assert p[0] in p;
    }
  }

  // ---------------------------------------------------------------------
  // A scan loop as a step of its own
  // ---------------------------------------------------------------------

  /** The ids a scan of `job` visits on `s`, in order. */
  function ScanOrderOf(job: Job, s: DbState): seq<int>
  {
    Ascending(Above(ScanIds(job, s), 0))
  }

  /** `ScanRows`: every visited row's statements; the caches are reset, or for the menu the connection closed, once per page. */
  function ScanStep(job: Job, s: DbState): StepRun
  {
    var a := ScanOrderOf(job, s);
    var stmts := Scan(Plan(job), a, 0, s);
    if job.MenuRows? then StepRun(Pass, stmts, |a|, 0) else StepRun(Pass, stmts, 0, Pages(|a|, 100))
  }

  method RunScan(db: Database, job: Job) returns (outcome: Outcome<string>)
    modifies db
    ensures Ran(db, old(db.state), old(db.log), old(db.disconnects), old(db.cacheResets), outcome, ScanStep(job, old(db.state)))
  {
    PlanPlanned(job);
    ScanRows(db, job, Plan(job));
    outcome := Pass;
  }

  // ---------------------------------------------------------------------
  // updateAlphaStructures
  // ---------------------------------------------------------------------

  const AlphaIndexes: seq<IndexSpec> := [
    ("idx_category_ordering_asc", [IndexColumn("category_id", false), IndexColumn("ordering", false)]),
    ("idx_category_ordering_desc", [IndexColumn("category_id", false), IndexColumn("ordering", true)])
  ]

  /** The two ordering indexes of the category items, added when missing. */
  function AlphaStep(s: DbState): StepRun
  {
    if CategoriesItems !in s.tables then Missing(CategoriesItems)
    else Issue(Lift(CategoriesItems, CreatePlan(s.tables[CategoriesItems], [], AlphaIndexes)))
  }

  method UpdateAlphaStructures(db: Database) returns (outcome: Outcome<string>)
    modifies db
    ensures Ran(db, old(db.state), old(db.log), old(db.disconnects), old(db.cacheResets), outcome, AlphaStep(old(db.state)))
  {
    var ok := CreateColumns(db, CategoriesItems, [], AlphaIndexes);
    outcome := if ok then Pass else Missing(CategoriesItems).outcome;
  }

  // ---------------------------------------------------------------------
  // updateComponentParams
  // ---------------------------------------------------------------------

  /**
   * The component parameter renames, in source order. The second entry has
   * no key in the source array, so PHP gives it the key `0` and the whole
   * text as its destination; `Registry::exists` never finds the empty path
   * 0, so that entry never fires. `privancy_client` is spelt as in the
   * source.
   */
  const ComponentMapping: Mapping := [
    ("user_login_code", "login_code"),
    ("0", "user_login_timeout-> login_code_timeout"),
    ("user_login_length", "login_code_length"),
    ("user_login_symbols", "login_code_symbols"),
    ("user_ip", "privacy_ip"),
    ("user_client", "privancy_client"),
    ("user_menu", "user_menu_additional")
  ]

  method UpdateComponentParams(db: Database) returns (outcome: Outcome<string>)
    modifies db
    ensures old(db.state.componentParams).None? ==>
              outcome.Fail? && db.state == old(db.state) && db.log == old(db.log)
              && db.disconnects == old(db.disconnects) && db.cacheResets == old(db.cacheResets)
    ensures old(db.state.componentParams).Some? ==>
              var moved := MoveAll(old(db.state.componentParams).value, ComponentMapping);
              && outcome == Pass
              && Issued(old(db.state), old(db.log), db.state, db.log,
                        if moved.1 then [SaveComponentParams(moved.0)] else [])
              && db.disconnects == old(db.disconnects) + (if moved.1 then 1 else 0)
              && db.cacheResets == old(db.cacheResets) + (if moved.1 then 1 else 0)
  {
    outcome := MoveParams(db, ComponentMapping);
  }

  // ---------------------------------------------------------------------
  // updateUsersColumns
  // ---------------------------------------------------------------------

  const UserTables: seq<string> := [Products, Metas, Orders]
  const SignedUser := ColumnDef("int(10)", "default 0 not null", Str("0"))
  const CreatedByIndex: seq<IndexSpec> := [("idx_created_by", [IndexColumn("created_by", false)])]

  /** The MODIFY of `column` when its type, in the column list read first, is unsigned. */
  function Resign(columns: map<string, ColumnDef>, column: string): seq<TableOp>
  {
    if column in columns && Contains(columns[column].sqlType, "unsigned") then [ModifyColumn(column, SignedUser)] else []
  }

  /** The statements of one table: the two user columns made signed, then `idx_createdby` renamed to `idx_created_by`. */
  function UsersTable(s: DbState, table: string): seq<Statement>
  {
    var columns := TableOf(s, table).columns;
    var fix := Lift(table, Resign(columns, "created_by") + Resign(columns, "modified_by"));
    var s1 := ApplyAll(s, fix);
    if "idx_createdby" in TableOf(s1, table).indexes then
      var drop := Lift(table, DropPlan(TableOf(s1, table), [], ["idx_createdby"]));
      var s2 := ApplyAll(s1, drop);
      fix + drop + Lift(table, CreatePlan(TableOf(s2, table), [], CreatedByIndex))
    else fix
  }

  /** The tables of `tables` in turn; a missing one stops the step. */
  function UsersTables(s: DbState, tables: seq<string>): StepRun
  {
    if tables == [] then Issue([])
    else
      var pre := UsersTables(s, tables[..|tables| - 1]);
      var t := tables[|tables| - 1];
      var s1 := After(s, pre);
      if pre.outcome.Fail? then pre
      else if t !in s1.tables then Then(pre, Missing(t))
      else Then(pre, Issue(UsersTable(s1, t)))
  }

  /** `updateUsersColumns`; the connection is closed at the end. */
  function UsersStep(s: DbState): StepRun
  {
    var r := UsersTables(s, UserTables);
    StepRun(r.outcome, r.stmts, if r.outcome.Pass? then 1 else 0, 0)
  }

  method UsersTableColumns(db: Database, table: string)
    requires table in db.state.tables
    modifies db
    ensures Issued(old(db.state), old(db.log), db.state, db.log, UsersTable(old(db.state), table))
    ensures db.disconnects == old(db.disconnects) && db.cacheResets == old(db.cacheResets)
  {
    ghost var s0, l0 := db.state, db.log;
    var columns := db.state.tables[table].columns;
    ghost var fix := Resign(columns, "created_by") + Resign(columns, "modified_by");
    IssuedNothing(s0, l0);
    var i := 0;
    var users := ["created_by", "modified_by"];
    while i < 2
      invariant 0 <= i <= 2
      invariant Issued(s0, l0, db.state, db.log, Lift(table, if i == 0 then [] else if i == 1 then Resign(columns, "created_by") else fix))
      invariant db.disconnects == old(db.disconnects) && db.cacheResets == old(db.cacheResets)
    {
      ghost var s1, l1 := db.state, db.log;
      ghost var pre := if i == 0 then [] else Resign(columns, "created_by");
      var column := users[i];
      if column in columns && Contains(columns[column].sqlType, "unsigned") {
        db.Execute(OnTable(table, ModifyColumn(column, SignedUser)));
        assert Lift(table, [ModifyColumn(column, SignedUser)]) == [OnTable(table, ModifyColumn(column, SignedUser))];
        LiftSnoc(table, pre, [ModifyColumn(column, SignedUser)], s0, l0, s1, l1, db.state, db.log);
      } else {
        assert pre + [] == pre;
      }
      assert (if i + 1 == 1 then Resign(columns, "created_by") else fix) == pre + Resign(columns, column);
      i := i + 1;
    }
    LiftApply(s0, table, fix);
    ghost var s1, l1 := db.state, db.log;
    var indexes := db.state.tables[table].indexes;
    if "idx_createdby" in indexes {
      var ok := DropColumns(db, table, [], ["idx_createdby"]);
      assert ok;
      ghost var d := Lift(table, DropPlan(s1.tables[table], [], ["idx_createdby"]));
      IssuedTrans(s0, l0, s1, l1, db.state, db.log, Lift(table, fix), d);
      ghost var s2, l2 := db.state, db.log;
      LiftApply(s1, table, DropPlan(s1.tables[table], [], ["idx_createdby"]));
      ok := CreateColumns(db, table, [], CreatedByIndex);
      assert ok;
      IssuedTrans(s0, l0, s2, l2, db.state, db.log, Lift(table, fix) + d,
                  Lift(table, CreatePlan(s2.tables[table], [], CreatedByIndex)));
    }
  }

  method UpdateUsersColumns(db: Database) returns (outcome: Outcome<string>)
    modifies db
    ensures Ran(db, old(db.state), old(db.log), old(db.disconnects), old(db.cacheResets), outcome, UsersStep(old(db.state)))
  {
    outcome := UsersColumns(db, UserTables);
    if outcome.Pass? {
      db.Disconnect();
    }
  }

  /** The loop over the tables of `updateUsersColumns`. */
  method UsersColumns(db: Database, tables: seq<string>) returns (outcome: Outcome<string>)
    modifies db
    ensures var r := UsersTables(old(db.state), tables);
            && outcome == r.outcome
            && Issued(old(db.state), old(db.log), db.state, db.log, r.stmts)
            && db.disconnects == old(db.disconnects) && db.cacheResets == old(db.cacheResets)
  {
    ghost var s0, l0 := db.state, db.log;
    IssuedNothing(s0, l0);
    var i := 0;
    while i < |tables|
      invariant 0 <= i <= |tables|
      invariant UsersTables(s0, tables[..i]).outcome == Pass
      invariant Issued(s0, l0, db.state, db.log, UsersTables(s0, tables[..i]).stmts)
      invariant db.disconnects == old(db.disconnects) && db.cacheResets == old(db.cacheResets)
    {
      ghost var s1, l1 := db.state, db.log;
      ghost var pre := UsersTables(s0, tables[..i]);
      var table := tables[i];
      assert tables[..i + 1][..i] == tables[..i];
      if table !in db.state.tables {
        assert UsersTables(s0, tables[..i + 1]) == Then(pre, Missing(table));
        UsersTablesStop(s0, tables, i + 1);
        assert pre.stmts + [] == pre.stmts;
        return Missing(table).outcome;
      }
      UsersTableColumns(db, table);
      IssuedTrans(s0, l0, s1, l1, db.state, db.log, pre.stmts, UsersTable(s1, table));
      i := i + 1;
    }
    assert tables[..i] == tables;
    outcome := Pass;
  }

  /** Once a table is missing, the tables after it are not looked at. */
  lemma {:induction false} UsersTablesStop(s: DbState, tables: seq<string>, n: nat)
    requires 0 < n <= |tables| && UsersTables(s, tables[..n]).outcome.Fail?
    ensures UsersTables(s, tables) == UsersTables(s, tables[..n])
    decreases |tables| - n
  {
    if n < |tables| {
      assert tables[..n + 1][..n] == tables[..n];
      UsersTablesStop(s, tables, n + 1);
    } else {
      assert tables[..n] == tables;
    }
  }

  // ---------------------------------------------------------------------
  // updateProductsStructure, updateMetasStructure
  // ---------------------------------------------------------------------

  datatype Entity = ProductEntity | MetaEntity

  /**
   * The shape of the products and metas steps: the new columns and indexes,
   * the legacy columns the select list is built from and its base, and what
   * is dropped once the rows are backfilled.
   */
  datatype Structure = Structure(
    entity: Entity, table: string,
    columns: seq<ColumnSpec>, indexes: seq<IndexSpec>,
    legacy: seq<string>, base: seq<string>,
    dropColumns: seq<string>, dropIndexes: seq<string>, mappingTable: string)

  const ProductsStructure := Structure(
    ProductEntity, Products,
    [("category_pathway", ColumnDef("int(10) unsigned", "NOT NULL DEFAULT 0 after `category`", Str("0"))),
     ("category_route", ColumnDef("int(10) unsigned", "NOT NULL DEFAULT 0 after `category_pathway`", Str("0"))),
     ("categories_additional", ColumnDef("text", "NULL after `category_route`", Null)),
     ("categories_all", ColumnDef("text", "NULL after `categories_additional`", Null)),
     ("meta_variability", ColumnDef("int(10) unsigned", "NOT NULL DEFAULT 0 after `categories_all`", Str("0"))),
     ("changelogs", ColumnDef("json", "NULL after `params`", Null))],
    [("idx_meta_variability", [IndexColumn("meta_variability", false)])],
    ["categories", "pathway", "ordering"], ["id", "category"],
    ["categories", "pathway", "ordering", "ordering_price"],
    ["idx_pathway", "idx_ordering", "idx_ordering_price"],
    ProductsCategories)

  const MetasStructure := Structure(
    MetaEntity, Metas,
    [("category_pathway", ColumnDef("int(10) unsigned", "NOT NULL DEFAULT 0 after `category`", Str("0"))),
     ("category_route", ColumnDef("int(10) unsigned", "NOT NULL DEFAULT 0 after `category_pathway`", Str("0"))),
     ("categories_additional", ColumnDef("text", "NULL after `category_route`", Null)),
     ("categories_all", ColumnDef("text", "NULL after `categories_additional`", Null)),
     ("created_by", ColumnDef("int(10) unsigned", "NOT NULL DEFAULT 0 after `created`", Str("0"))),
     ("modified", ColumnDef("datetime", "NULL after `created_by`", Null)),
     ("modified_by", ColumnDef("int(10) unsigned", "NOT NULL DEFAULT 0 after `modified`", Str("0"))),
     ("fulltext", ColumnDef("mediumtext", "NULL after `introtext`", Null)),
     ("search_text", ColumnDef("longtext", "NULL after `fulltext`", Null)),
     ("stock", ColumnDef("json", "NULL after `prices`", Null)),
     ("in_stock", ColumnDef("tinyint(3)", "NOT NULL DEFAULT 1 after `stock`", Str("1"))),
     ("fields", ColumnDef("json", "NULL after `in_stock`", Null))],
    [("idx_in_stock", [IndexColumn("in_stock", false)])],
    ["categories", "ordering"], ["id", "category", "products", "params", "created"],
    ["categories", "ordering", "ordering_price"],
    ["idx_ordering", "idx_ordering_price"],
    MetasCategories)

  function StructureJob(c: Structure, select: seq<string>): Job
  {
    match c.entity
    case ProductEntity => ProductRows(select)
    case MetaEntity => MetaRows(select)
  }

  /**
   * The new columns and indexes; then, unless the legacy-column detector
   * finds nothing (the step's "already migrated" exit), the backfill scan,
   * the legacy columns and indexes dropped and the mapping table dropped.
   */
  function StructureStep(c: Structure, s: DbState): StepRun
  {
    if c.table !in s.tables then Missing(c.table)
    else
      var create := Issue(Lift(c.table, CreatePlan(s.tables[c.table], c.columns, c.indexes)));
      var s1 := After(s, create);
      var present := Present(TableOf(s1, c.table).columns, c.legacy);
      if present == [] then create
      else Then(create, Backfilled(c, present, s1))
  }

  /** What follows a select list with the legacy columns `present`. */
  function Backfilled(c: Structure, present: seq<string>, s: DbState): StepRun
  {
    var scan := ScanStep(StructureJob(c, c.base + present), s);
    var s1 := After(s, scan);
    var drop := Issue(Lift(c.table, DropPlan(TableOf(s1, c.table), c.dropColumns, c.dropIndexes)));
    var s2 := After(s1, drop);
    Then(scan, Then(drop, Issue(DropTablesPlan(s2, [c.mappingTable]))))
  }

  lemma ScanKeepsTables(job: Job, s: DbState)
    ensures After(s, ScanStep(job, s)).tables.Keys == s.tables.Keys
  {
    var a := ScanOrderOf(job, s);
    var ids := ScanIds(job, s);
    PlanPlanned(job);
    ScanOrderFacts(ids, a);
    AscendingFacts(Above(ids, 0));
    forall i | 0 <= i < |a| ensures a[i] in TableOf(s, JobTable(job)).rows {
      assert a[i] in a;
    }
    ScanEffect(job, Plan(job), a, 0, s);
  }

  method UpdateStructure(db: Database, c: Structure) returns (outcome: Outcome<string>)
    modifies db
    ensures Ran(db, old(db.state), old(db.log), old(db.disconnects), old(db.cacheResets), outcome, StructureStep(c, old(db.state)))
  {
    ghost var s0, l0 := db.state, db.log;
    var ok := CreateColumns(db, c.table, c.columns, c.indexes);
    if !ok {
      return Missing(c.table).outcome;
    }
    LiftApply(s0, c.table, CreatePlan(s0.tables[c.table], c.columns, c.indexes));
    var select := RudimentalSelect(db, c.table, c.legacy, c.base);
    PresentEmpty(db.state.tables[c.table].columns, c.legacy);
    if select.None? {
      return Pass;
    }
    ghost var create := Issue(Lift(c.table, CreatePlan(s0.tables[c.table], c.columns, c.indexes)));
    ghost var s1, l1 := db.state, db.log;
    outcome := BackfillRows(db, c, Present(db.state.tables[c.table].columns, c.legacy));
    RanThen(db, s0, l0, old(db.disconnects), old(db.cacheResets), create, s1, l1, old(db.disconnects), old(db.cacheResets),
            outcome, Backfilled(c, Present(s1.tables[c.table].columns, c.legacy), s1));
  }

  method BackfillRows(db: Database, c: Structure, present: seq<string>) returns (outcome: Outcome<string>)
    requires c.table in db.state.tables
    modifies db
    ensures Ran(db, old(db.state), old(db.log), old(db.disconnects), old(db.cacheResets), outcome, Backfilled(c, present, old(db.state)))
  {
    ghost var s0, l0 := db.state, db.log;
    var job := StructureJob(c, c.base + present);
    outcome := RunScan(db, job);
    ScanKeepsTables(job, s0);
    ghost var s1, l1, d1, c1 := db.state, db.log, db.disconnects, db.cacheResets;
    var ok := DropColumns(db, c.table, c.dropColumns, c.dropIndexes);
    assert ok;
    ghost var drop := Issue(Lift(c.table, DropPlan(s1.tables[c.table], c.dropColumns, c.dropIndexes)));
    ghost var s2, l2 := db.state, db.log;
    DropTables(db, [c.mappingTable]);
    outcome := Pass;
    ghost var tail := Issue(DropTablesPlan(s2, [c.mappingTable]));
    RanThen(db, s1, l1, d1, c1, drop, s2, l2, d1, c1, outcome, tail);
    RanThen(db, s0, l0, old(db.disconnects), old(db.cacheResets), ScanStep(job, s0), s1, l1, d1, c1, outcome, Then(drop, tail));
  }

  method UpdateProductsStructure(db: Database) returns (outcome: Outcome<string>)
    modifies db
    ensures Ran(db, old(db.state), old(db.log), old(db.disconnects), old(db.cacheResets), outcome, StructureStep(ProductsStructure, old(db.state)))
  {
    outcome := UpdateStructure(db, ProductsStructure);
  }

  method UpdateMetasStructure(db: Database) returns (outcome: Outcome<string>)
    modifies db
    ensures Ran(db, old(db.state), old(db.log), old(db.disconnects), old(db.cacheResets), outcome, StructureStep(MetasStructure, old(db.state)))
  {
    outcome := UpdateStructure(db, MetasStructure);
  }

  // ---------------------------------------------------------------------
  // updateCategoriesStructure
  // ---------------------------------------------------------------------

  const TextNull := ColumnDef("text", "null", Null)
  const CategoryColumns: seq<ColumnSpec> := [("totals", ColumnDef("json", "NULL after `fields`", Null))]
  const CategoryLegacy: seq<string> := ["total_products", "total_metas"]
  const CategoryBase: seq<string> := ["id", "totals"]
  const CategoryDropColumns: seq<string> := ["total_products", "total_metas"]
  const CategoryDropIndexes: seq<string> := ["idx_total_products", "idx_total_metas"]

  /**
   * The `fields` column made `text` (with the connection closed after),
   * the `totals` column added, and, when the table has rows and a legacy
   * total column, the totals backfilled and the legacy columns dropped. A
   * missing `fields` column makes the MODIFY fail.
   */
  function CategoriesStep(s: DbState): StepRun
  {
    if Categories !in s.tables then Missing(Categories)
    else if "fields" !in s.tables[Categories].columns then
      StepRun(Fail("unknown column fields in " + Categories), [], 0, 0)
    else
      var fix := FieldsText(s);
      Then(fix, CategoriesColumns(After(s, fix)))
  }

  /** The MODIFY of `fields` to `text` when its type is another, and then the connection closed. */
  function FieldsText(s: DbState): StepRun
  {
    var columns := TableOf(s, Categories).columns;
    if "fields" in columns && columns["fields"].sqlType != "text"
    then StepRun(Pass, [OnTable(Categories, ModifyColumn("fields", TextNull))], 1, 0)
    else Issue([])
  }

  /** The `totals` column, then the backfill when the table has rows and a legacy total column. */
  function CategoriesColumns(s: DbState): StepRun
  {
    var create := Issue(Lift(Categories, CreatePlan(TableOf(s, Categories), CategoryColumns, [])));
    var s1 := After(s, create);
    var present := Present(TableOf(s1, Categories).columns, CategoryLegacy);
    if TableOf(s1, Categories).rows == map[] || present == [] then create
    else Then(create, Totals(present, s1))
  }

  /** The totals scan and the legacy columns dropped after it. */
  function Totals(present: seq<string>, s: DbState): StepRun
  {
    var scan := ScanStep(CategoryRows(CategoryBase + present), s);
    var s1 := After(s, scan);
    Then(scan, Issue(Lift(Categories, DropPlan(TableOf(s1, Categories), CategoryDropColumns, CategoryDropIndexes))))
  }

  /** One table statement leaves the set of tables alone. */
  lemma OnTableKeeps(s: DbState, name: string, op: TableOp)
    ensures ApplyAll(s, [OnTable(name, op)]).tables.Keys == s.tables.Keys
  {
    ApplyOne(s, OnTable(name, op));
  }

  method UpdateCategoriesStructure(db: Database) returns (outcome: Outcome<string>)
    modifies db
    ensures Ran(db, old(db.state), old(db.log), old(db.disconnects), old(db.cacheResets), outcome, CategoriesStep(old(db.state)))
  {
    ghost var s0, l0 := db.state, db.log;
    if Categories !in db.state.tables {
      return Missing(Categories).outcome;
    }
    var columns := db.state.tables[Categories].columns;
    if "fields" !in columns {
      return Fail("unknown column fields in " + Categories);
    }
    IssuedNothing(s0, l0);
    if columns["fields"].sqlType != "text" {
      db.Execute(OnTable(Categories, ModifyColumn("fields", TextNull)));
      OnTableKeeps(s0, Categories, ModifyColumn("fields", TextNull));
      db.Disconnect();
    }
    ghost var s1, l1, d1 := db.state, db.log, db.disconnects;
    outcome := AddTotals(db);
    RanThen(db, s0, l0, old(db.disconnects), old(db.cacheResets), FieldsText(s0), s1, l1, d1, old(db.cacheResets),
            outcome, CategoriesColumns(s1));
  }

  method AddTotals(db: Database) returns (outcome: Outcome<string>)
    requires Categories in db.state.tables
    modifies db
    ensures Ran(db, old(db.state), old(db.log), old(db.disconnects), old(db.cacheResets), outcome, CategoriesColumns(old(db.state)))
  {
    ghost var s0, l0 := db.state, db.log;
    var ok := CreateColumns(db, Categories, CategoryColumns, []);
    assert ok;
    LiftApply(s0, Categories, CreatePlan(s0.tables[Categories], CategoryColumns, []));
    var total := |db.state.tables[Categories].rows|;
    var select := None;
    if total > 0 {
      select := RudimentalSelect(db, Categories, CategoryLegacy, CategoryBase);
    }
    PresentEmpty(db.state.tables[Categories].columns, CategoryLegacy);
    if select.None? {
      return Pass;
    }
    ghost var s1, l1 := db.state, db.log;
    outcome := UpdateTotals(db, Present(db.state.tables[Categories].columns, CategoryLegacy));
    RanThen(db, s0, l0, old(db.disconnects), old(db.cacheResets),
            Issue(Lift(Categories, CreatePlan(s0.tables[Categories], CategoryColumns, []))), s1, l1,
            old(db.disconnects), old(db.cacheResets), outcome, Totals(Present(s1.tables[Categories].columns, CategoryLegacy), s1));
  }

  method UpdateTotals(db: Database, present: seq<string>) returns (outcome: Outcome<string>)
    requires Categories in db.state.tables
    modifies db
    ensures Ran(db, old(db.state), old(db.log), old(db.disconnects), old(db.cacheResets), outcome, Totals(present, old(db.state)))
  {
    ghost var s0, l0 := db.state, db.log;
    var job := CategoryRows(CategoryBase + present);
    outcome := RunScan(db, job);
    ScanKeepsTables(job, s0);
    ghost var s1, l1, d1, c1 := db.state, db.log, db.disconnects, db.cacheResets;
    var ok := DropColumns(db, Categories, CategoryDropColumns, CategoryDropIndexes);
    assert ok;
    RanThen(db, s0, l0, old(db.disconnects), old(db.cacheResets), ScanStep(job, s0), s1, l1, d1, c1, outcome,
            Issue(Lift(Categories, DropPlan(s1.tables[Categories], CategoryDropColumns, CategoryDropIndexes))));
  }

  // ---------------------------------------------------------------------
  // updateFieldsStructure
  // ---------------------------------------------------------------------

  const FieldColumns: seq<ColumnSpec> := [
    ("fieldset_administrator", ColumnDef("int(11) unsigned", "NOT NULL DEFAULT 0 after `plugin`", Str("0"))),
    ("fieldset_site", ColumnDef("int(11) unsigned", "NOT NULL DEFAULT 0 after `fieldset_administrator`", Str("0")))
  ]
  const FieldIndexes: seq<IndexSpec> := [
    ("idx_fieldset_administrator", [IndexColumn("fieldset_administrator", false)]),
    ("idx_fieldset_site", [IndexColumn("fieldset_site", false)])
  ]
  const FieldsetCopy := CopyColumn("fieldset", {"fieldset_site", "fieldset_administrator"})

  /**
   * Nothing when the legacy `fieldset` column is gone; otherwise the two
   * new columns, each set to `fieldset` on every row, `fieldset` and its
   * index dropped, and the connection closed.
   */
  function FieldsStep(s: DbState): StepRun
  {
    if Fields !in s.tables then Missing(Fields)
    else if "fieldset" !in s.tables[Fields].columns then Issue([])
    else
      var create := Lift(Fields, CreatePlan(s.tables[Fields], FieldColumns, FieldIndexes));
      var s1 := ApplyAll(s, create + [OnTable(Fields, FieldsetCopy)]);
      var drop := Lift(Fields, DropPlan(TableOf(s1, Fields), ["fieldset"], ["idx_fieldset"]));
      StepRun(Pass, create + [OnTable(Fields, FieldsetCopy)] + drop, 1, 0)
  }

  method UpdateFieldsStructure(db: Database) returns (outcome: Outcome<string>)
    modifies db
    ensures Ran(db, old(db.state), old(db.log), old(db.disconnects), old(db.cacheResets), outcome, FieldsStep(old(db.state)))
  {
    ghost var s0, l0 := db.state, db.log;
    if Fields !in db.state.tables {
      return Missing(Fields).outcome;
    }
    if "fieldset" !in db.state.tables[Fields].columns {
      IssuedNothing(s0, l0);
      return Pass;
    }
    var ok := CreateColumns(db, Fields, FieldColumns, FieldIndexes);
    assert ok;
    ghost var create := Lift(Fields, CreatePlan(s0.tables[Fields], FieldColumns, FieldIndexes));
    ghost var s1, l1 := db.state, db.log;
    db.Execute(OnTable(Fields, FieldsetCopy));
    LiftApply(s0, Fields, CreatePlan(s0.tables[Fields], FieldColumns, FieldIndexes));
    OnTableKeeps(s1, Fields, FieldsetCopy);
    IssuedTrans(s0, l0, s1, l1, db.state, db.log, create, [OnTable(Fields, FieldsetCopy)]);
    ghost var s2, l2 := db.state, db.log;
    ok := DropColumns(db, Fields, ["fieldset"], ["idx_fieldset"]);
    assert ok;
    IssuedTrans(s0, l0, s2, l2, db.state, db.log, create + [OnTable(Fields, FieldsetCopy)],
                Lift(Fields, DropPlan(s2.tables[Fields], ["fieldset"], ["idx_fieldset"])));
    db.Disconnect();
    outcome := Pass;
  }

  // ---------------------------------------------------------------------
  // updateMenuItems
  // ---------------------------------------------------------------------

  /**
   * The menu scan. The source's early exit compares the count query's
   * result, a string, with the integer 0 and so never fires: with no
   * legacy item the scan finds an empty first page and stops.
   */
  function MenuStep(s: DbState): StepRun
  {
    ScanStep(MenuRows, s)
  }

  method UpdateMenuItems(db: Database) returns (outcome: Outcome<string>)
    modifies db
    ensures Ran(db, old(db.state), old(db.log), old(db.disconnects), old(db.cacheResets), outcome, MenuStep(old(db.state)))
  {
    outcome := RunScan(db, MenuRows);
  }
}
