/**
 * The keyset-paginated row scans of the 3.0.0 migration: the products,
 * metas, categories and menu steps each read the rows of one table in
 * ascending id order, `WHERE id > :last ORDER BY id ASC LIMIT :limit`,
 * move the cursor to each row processed, write that row's patch (and, for
 * products and metas, an ordering entry and the products' link to their
 * meta), clean up after each page, and stop on an empty or short page.
 *
 * `Scan` is the specification of a whole scan: the statements of each row
 * in turn, each row seeing the state the rows before it left.
 */
module Backfill {
  import opened Wrappers
  import opened Text
  import opened Store
  import opened RowTransforms

  const Products := "#__radicalmart_products"
  const Metas := "#__radicalmart_metas"
  const Categories := "#__radicalmart_categories"
  const Fields := "#__radicalmart_fields"
  const Menu := "#__menu"

  /** Which scan: the three table steps carry their select list. */
  datatype Job = ProductRows(select: seq<string>) | MetaRows(select: seq<string>) | CategoryRows(select: seq<string>) | MenuRows

  function JobTable(job: Job): string
  {
    match job
    case ProductRows(_) => Products
    case MetaRows(_) => Metas
    case CategoryRows(_) => Categories
    case MenuRows => Menu
  }

  /** Rows per page: 100, and one for the menu. */
  function Limit(job: Job): nat
  {
    if job.MenuRows? then 1 else 100
  }

  function RowOf(s: DbState, table: string, id: int): Row
  {
    if id in TableOf(s, table).rows then TableOf(s, table).rows[id] else map[]
  }

  /** The ids the scan query can return: every row, or for the menu the rows it selects. */
  function ScanIds(job: Job, s: DbState): set<int>
  {
    var rows := TableOf(s, JobTable(job)).rows;
    if job.MenuRows? then set id | id in rows && MenuMatches(rows[id]) else rows.Keys
  }

  // ---------------------------------------------------------------------
  // The statements of one row
  // ---------------------------------------------------------------------

  /** The columns row `x` is updated with, or `None` when it is not written. */
  function Patch(job: Job, s: DbState, x: int): Option<Row>
  {
    var row := RowOf(s, JobTable(job), x);
    match job
    case ProductRows(select) => ProductPatch(select, row)
    case MetaRows(select) => MetaPatch(select, row, TableOf(s, Fields).rows)
    case CategoryRows(select) => TotalsPatch(select, row)
    case MenuRows => Some(MenuPatch(row))
  }

  function PatchOf(job: Job, s: DbState, x: int): Row
  {
    var p := Patch(job, s, x);
    if p.Some? then p.value else map[]
  }

  /** The step backfills the ordering table: products and metas whose legacy `ordering` is selected. */
  predicate Backfills(job: Job)
  {
    (job.ProductRows? || job.MetaRows?) && "ordering" in job.select
  }

  function ItemTypeOf(job: Job): ItemType
  {
    if job.MetaRows? then MetaType else ProductType
  }

  /** The INSERT of the root ordering entry when the probe finds none. */
  function OrderingPlan(s: DbState, t: ItemType, x: int, ordering: Value): seq<Statement>
  {
    match BackfillEntry(s.orderings, t, OrderingItemId(t, x), ordering)
    case None => []
    case Some(e) => [InsertOrdering(e)]
  }

  /** The UPDATE of the products a meta lists, pointing them at the meta. */
  function LinkPlan(row: Row, x: int): seq<Statement>
  {
    var ids := ProductIds(Get(row, "products"));
    if ids != {} then [OnTable(Products, UpdateWhereIn(ids, "meta_variability", Str(IntToStr(x))))] else []
  }

  /**
   * The statements issued for row `x` once its patch is known, in the
   * order the source issues them: the row's UPDATE, the ordering INSERT,
   * and for a meta the UPDATE of its products. A row marked for writing
   * with no column to write issues no UPDATE, as `updateObject` then
   * returns without a query.
   */
  function RowStatements(job: Job, s: DbState, x: int, patch: Option<Row>): seq<Statement>
  {
    var table := JobTable(job);
    var row := RowOf(s, table, x);
    UpdatePlan(table, x, patch)
    + (if Backfills(job) then OrderingPlan(s, ItemTypeOf(job), x, Get(row, "ordering")) else [])
    + (if job.MetaRows? then LinkPlan(row, x) else [])
  }

  /** The statements issued for row `x`. */
  function RowPlan(job: Job, s: DbState, x: int): seq<Statement>
  {
    RowStatements(job, s, x, Patch(job, s, x))
  }

  /** `updateObject` of row `x` when it is marked for writing: an UPDATE of the patch, unless the patch is empty. */
  function UpdatePlan(table: string, x: int, patch: Option<Row>): seq<Statement>
  {
    if patch.Some? && patch.value != map[] then [OnTable(table, UpdateRow(x, patch.value))] else []
  }

  /**
   * A meta marked for writing only because its `created` is empty has no
   * column to write, so no UPDATE is issued for it.
   */
  lemma CreatedOnlyNotUpdated(select: seq<string>, row: Row, fieldRows: map<int, Row>, x: int)
    requires Empty(Get(row, "created")) && !SplitsCategories(select, row)
    requires VariabilityPatch(RegistryOf(Get(row, "params")), fieldRows).None?
    ensures MetaPatch(select, row, fieldRows) == Some(map[])
    ensures UpdatePlan(Metas, x, MetaPatch(select, row, fieldRows)) == []
  {
  }

  /** The row plan of a job, as a function value the scan is generic over. */
  function Plan(job: Job): (DbState, int) -> seq<Statement>
  {
    (s: DbState, x: int) => RowPlan(job, s, x)
  }

  /** `plan` is the row plan of `job`. */
  ghost predicate Planned(job: Job, plan: (DbState, int) -> seq<Statement>)
  {
    forall s: DbState, x: int {:trigger RowPlan(job, s, x)} :: plan(s, x) == RowPlan(job, s, x)
  }

  lemma PlanPlanned(job: Job)
    ensures Planned(job, Plan(job))
  {
  }

  /** The statements of the rows `a[k..]`, each row planned against the state the earlier ones left. */
  function Scan(plan: (DbState, int) -> seq<Statement>, a: seq<int>, k: nat, s: DbState): seq<Statement>
    decreases |a| - k
  {
    if k >= |a| then []
    else
      var p := plan(s, a[k]);
      p + Scan(plan, a, k + 1, ApplyAll(s, p))
  }

  // ---------------------------------------------------------------------
  // What one row changes
  // ---------------------------------------------------------------------

  /** Same tables, with the same columns, indexes and row ids. */
  ghost predicate SameShape(s: DbState, t: DbState)
  {
    && s.tables.Keys == t.tables.Keys
    && forall n :: n in s.tables ==>
         && s.tables[n].columns == t.tables[n].columns
         && s.tables[n].indexes == t.tables[n].indexes
         && s.tables[n].rows.Keys == t.tables[n].rows.Keys
  }

  lemma SameShapeTrans(s: DbState, t: DbState, u: DbState)
    requires SameShape(s, t) && SameShape(t, u)
    ensures SameShape(s, u)
  {
  }

  /** The orderings once row `x` is done. */
  function OrderingsAfter(job: Job, s: DbState, x: int): seq<OrderingEntry>
  {
    if Backfills(job) then
      AfterBackfill(s.orderings, ItemTypeOf(job), OrderingItemId(ItemTypeOf(job), x), Get(RowOf(s, JobTable(job), x), "ordering"))
    else s.orderings
  }

  /** Another table than the scanned one, and than the products a meta links. */
  predicate Untouched(job: Job, n: string)
  {
    n != JobTable(job) && !(job.MetaRows? && n == Products)
  }

  /**
   * What the statements of row `x` do, taking `s` to `t`: the row gets
   * `patch`, no other row of the table and no untouched table changes, the
   * shape of the database stays, and the orderings gain the backfilled
   * entry.
   */
  ghost predicate RowStep(job: Job, s: DbState, x: int, t: DbState, patch: Row)
  {
    && SameShape(s, t)
    && t.componentParams == s.componentParams
    && (forall n :: Untouched(job, n) ==> TableOf(t, n) == TableOf(s, n))
    && (forall y :: y != x ==> RowOf(t, JobTable(job), y) == RowOf(s, JobTable(job), y))
    && (x in TableOf(s, JobTable(job)).rows ==> RowOf(t, JobTable(job), x) == RowOf(s, JobTable(job), x) + patch)
    && t.orderings == OrderingsAfter(job, s, x)
  }

  lemma ApplyOne(s: DbState, st: Statement)
    ensures ApplyAll(s, [st]) == Apply(s, st)
  {
    assert ApplyFirst(s, [st], 0) == s;
  }

  /** The UPDATE of row `x` of `table` with `fields`. */
  lemma UpdateRowStep(s: DbState, table: string, x: int, fields: Row)
    ensures var t := ApplyAll(s, [OnTable(table, UpdateRow(x, fields))]);
            && SameShape(s, t) && t.componentParams == s.componentParams && t.orderings == s.orderings
            && (forall n :: n != table ==> TableOf(t, n) == TableOf(s, n))
            && (forall y :: y != x ==> RowOf(t, table, y) == RowOf(s, table, y))
            && (x in TableOf(s, table).rows ==> RowOf(t, table, x) == RowOf(s, table, x) + fields)
  {
    ApplyOne(s, OnTable(table, UpdateRow(x, fields)));
  }

  /** The UPDATE of the products a meta lists touches the products table only. */
  lemma LinkStep(s: DbState, row: Row, x: int)
    ensures var t := ApplyAll(s, LinkPlan(row, x));
            && SameShape(s, t) && t.componentParams == s.componentParams && t.orderings == s.orderings
            && (forall n :: n != Products ==> TableOf(t, n) == TableOf(s, n))
    ensures var t := ApplyAll(s, LinkPlan(row, x));
            forall y :: y in TableOf(s, Products).rows ==>
              RowOf(t, Products, y) == if y in ProductIds(Get(row, "products"))
                                       then RowOf(s, Products, y)["meta_variability" := Str(IntToStr(x))]
                                       else RowOf(s, Products, y)
  {
    var ids := ProductIds(Get(row, "products"));
    if ids != {} {
      WhereInStep(s, Products, ids, "meta_variability", Str(IntToStr(x)));
    } else {
      assert ApplyFirst(s, [], 0) == s;
    }
  }

  /** `UPDATE table SET column = value WHERE id IN (ids)`: those rows of that table take the value, nothing else changes. */
  lemma WhereInStep(s: DbState, table: string, ids: set<int>, column: string, value: Value)
    ensures var t := ApplyAll(s, [OnTable(table, UpdateWhereIn(ids, column, value))]);
            && SameShape(s, t) && t.componentParams == s.componentParams && t.orderings == s.orderings
            && (forall n :: n != table ==> TableOf(t, n) == TableOf(s, n))
            && (forall y :: y in TableOf(s, table).rows ==>
                  RowOf(t, table, y) == if y in ids then RowOf(s, table, y)[column := value] else RowOf(s, table, y))
  {
    var st := OnTable(table, UpdateWhereIn(ids, column, value));
    ApplyOne(s, st);
    if table in s.tables {
      var p := s.tables[table];
      var q := p.(rows := SetWhereIn(p.rows, ids, column, value));
      assert ApplyOp(p, st.op) == q;
      assert Apply(s, st) == s.(tables := s.tables[table := q]);
    }
  }

  /** The INSERT of the root ordering entry changes the orderings only. */
  lemma OrderingStep(s: DbState, t: ItemType, x: int, ordering: Value)
    ensures var u := ApplyAll(s, OrderingPlan(s, t, x, ordering));
            && u.tables == s.tables && u.componentParams == s.componentParams
            && u.orderings == AfterBackfill(s.orderings, t, OrderingItemId(t, x), ordering)
  {
    var e := BackfillEntry(s.orderings, t, OrderingItemId(t, x), ordering);
    if e.Some? {
      ApplyOne(s, InsertOrdering(e.value));
    }
  }

  /** The three pieces of a row's statements together make a `RowStep`. */
  lemma StepCompose(job: Job, s: DbState, x: int, s1: DbState, s2: DbState, t: DbState, patch: Row)
    requires SameShape(s, s1) && s1.componentParams == s.componentParams && s1.orderings == s.orderings
    requires forall n :: n != JobTable(job) ==> TableOf(s1, n) == TableOf(s, n)
    requires forall y :: y != x ==> RowOf(s1, JobTable(job), y) == RowOf(s, JobTable(job), y)
    requires x in TableOf(s, JobTable(job)).rows ==> RowOf(s1, JobTable(job), x) == RowOf(s, JobTable(job), x) + patch
    requires s2.tables == s1.tables && s2.componentParams == s1.componentParams && s2.orderings == OrderingsAfter(job, s, x)
    requires SameShape(s2, t) && t.componentParams == s2.componentParams && t.orderings == s2.orderings
    requires forall n :: Untouched(job, n) ==> TableOf(t, n) == TableOf(s2, n)
    requires TableOf(t, JobTable(job)) == TableOf(s2, JobTable(job))
    ensures RowStep(job, s, x, t, patch)
  {
    assert SameShape(s1, s2);
    SameShapeTrans(s, s1, s2);
    SameShapeTrans(s, s2, t);
    forall y ensures RowOf(t, JobTable(job), y) == RowOf(s1, JobTable(job), y) {
      assert TableOf(s2, JobTable(job)) == TableOf(s1, JobTable(job));
    }
  }

  lemma {:induction false} StatementsStep(job: Job, s: DbState, x: int, patch: Option<Row>)
    ensures RowStep(job, s, x, ApplyAll(s, RowStatements(job, s, x, patch)), if patch.Some? then patch.value else map[])
  {
    var table := JobTable(job);
    var row := RowOf(s, table, x);
    var p1 := UpdatePlan(table, x, patch);
    var p2 := if Backfills(job) then OrderingPlan(s, ItemTypeOf(job), x, Get(row, "ordering")) else [];
    var p3 := if job.MetaRows? then LinkPlan(row, x) else [];
    var s1 := ApplyAll(s, p1);
    if patch.Some? && patch.value != map[] {
      UpdateRowStep(s, table, x, patch.value);
    } else {
      assert s1 == s;
      assert RowOf(s, table, x) + map[] == RowOf(s, table, x);
    }
    OrderingStep(s1, ItemTypeOf(job), x, Get(row, "ordering"));
    var s2 := ApplyAll(s1, p2);
    if !Backfills(job) { assert s2 == s1; }
    LinkStep(s2, row, x);
    var t := ApplyAll(s2, p3);
    if !job.MetaRows? { assert t == s2; }
    ApplyAllAppend(s, p1, p2);
    ApplyAllAppend(s, p1 + p2, p3);
    assert RowStatements(job, s, x, patch) == p1 + p2 + p3;
    StepCompose(job, s, x, s1, s2, t, if patch.Some? then patch.value else map[]);
  }

  /** What the row plan of `x` does: the row gets its patch and nothing else of the table changes. */
  lemma RowPlanStep(job: Job, s: DbState, x: int)
    ensures RowStep(job, s, x, ApplyAll(s, RowPlan(job, s, x)), PatchOf(job, s, x))
  {
    StatementsStep(job, s, x, Patch(job, s, x));
  }

  lemma PlanStep(job: Job, plan: (DbState, int) -> seq<Statement>, s: DbState, x: int)
    requires Planned(job, plan)
    ensures RowStep(job, s, x, ApplyAll(s, plan(s, x)), PatchOf(job, s, x))
  {
    RowPlanStep(job, s, x);
  }

  // ---------------------------------------------------------------------
  // What a whole scan changes
  // ---------------------------------------------------------------------

  /** The patch of a row depends only on that row and on the fields table. */
  lemma PatchOfFrame(job: Job, s: DbState, t: DbState, x: int)
    requires RowOf(t, JobTable(job), x) == RowOf(s, JobTable(job), x)
    requires TableOf(t, Fields) == TableOf(s, Fields)
    ensures PatchOf(job, t, x) == PatchOf(job, s, x)
  {
  }

  lemma InSuffix(a: seq<int>, k: nat, y: int)
    requires k < |a| && Increasing(a) && y in a[k..]
    ensures y == a[k] || y in a[k + 1..]
    ensures y == a[k] ==> y !in a[k + 1..]
  {
    var i :| k <= i < |a| && a[i] == y;
    if i > k { assert a[k + 1..][i - k - 1] == y; }
  }

  lemma NotInSuffix(a: seq<int>, k: nat, y: int)
    requires k < |a| && y !in a[k..]
    ensures y != a[k] && y !in a[k + 1..]
  {
    assert a[k..][0] == a[k];
  }

  /** One step of a scan, with the next index named by the caller. */
  lemma ScanNext(plan: (DbState, int) -> seq<Statement>, a: seq<int>, i: nat, n: nat, s: DbState)
    requires i < |a| && n == i + 1
    ensures Scan(plan, a, i, s) == plan(s, a[i]) + Scan(plan, a, n, ApplyAll(s, plan(s, a[i])))
  {
  }

  lemma ScanUnfold(plan: (DbState, int) -> seq<Statement>, a: seq<int>, k: nat, s: DbState)
    requires k < |a|
    ensures ApplyAll(s, Scan(plan, a, k, s)) == ApplyAll(ApplyAll(s, plan(s, a[k])), Scan(plan, a, k + 1, ApplyAll(s, plan(s, a[k]))))
  {
    ApplyAllAppend(s, plan(s, a[k]), Scan(plan, a, k + 1, ApplyAll(s, plan(s, a[k]))));
  }

  /**
   * A scan over the rows `a[k..]` (ascending, all present): every one of
   * them gets its patch, computed from the row as it was before the scan;
   * no other row of the table changes; nothing outside the scanned table
   * (and, for metas, the products table) changes; and the shape of the
   * database stays.
   */
  lemma {:induction false} ScanEffect(job: Job, plan: (DbState, int) -> seq<Statement>, a: seq<int>, k: nat, s: DbState)
    requires Planned(job, plan) && Increasing(a) && k <= |a|
    requires forall i :: k <= i < |a| ==> a[i] in TableOf(s, JobTable(job)).rows
    decreases |a| - k
    ensures var t := ApplyAll(s, Scan(plan, a, k, s));
            && SameShape(s, t)
            && t.componentParams == s.componentParams
            && (forall n :: Untouched(job, n) ==> TableOf(t, n) == TableOf(s, n))
            && (forall y :: y !in a[k..] ==> RowOf(t, JobTable(job), y) == RowOf(s, JobTable(job), y))
            && (forall y :: y in a[k..] ==> RowOf(t, JobTable(job), y) == RowOf(s, JobTable(job), y) + PatchOf(job, s, y))
  {
    var table := JobTable(job);
    if k < |a| {
      var s1 := ApplyAll(s, plan(s, a[k]));
      PlanStep(job, plan, s, a[k]);
      forall i | k + 1 <= i < |a| ensures a[i] in TableOf(s1, table).rows {
        assert a[i] in TableOf(s, table).rows;
      }
      ScanEffect(job, plan, a, k + 1, s1);
      ScanUnfold(plan, a, k, s);
      var t := ApplyAll(s1, Scan(plan, a, k + 1, s1));
      SameShapeTrans(s, s1, t);
      assert Untouched(job, Fields);
      forall y | y !in a[k..] ensures RowOf(t, table, y) == RowOf(s, table, y) {
        NotInSuffix(a, k, y);
      }
      forall y | y in a[k..] ensures RowOf(t, table, y) == RowOf(s, table, y) + PatchOf(job, s, y) {
        InSuffix(a, k, y);
        if y != a[k] {
          PatchOfFrame(job, s, s1, y);
        }
      }
    } else {
      assert ApplyFirst(s, [], 0) == s;
    }
  }

  // ---------------------------------------------------------------------
  // The products a metas scan links
  // ---------------------------------------------------------------------

  /** Meta row `x` of `s` lists product `y` in its `products`. */
  predicate Lists(s: DbState, x: int, y: int)
  {
    y in ProductIds(Get(RowOf(s, Metas, x), "products"))
  }

  /**
   * The meta among `ids` whose link to product `y` survives a scan of them
   * in order: the last one that lists `y`, or `None` when none does.
   */
  function LastLink(s: DbState, ids: seq<int>, y: int): (r: Option<int>)
    ensures r.None? <==> forall i :: 0 <= i < |ids| ==> !Lists(s, ids[i], y)
    ensures r.Some? ==> exists i :: 0 <= i < |ids| && ids[i] == r.value && Lists(s, ids[i], y)
                          && forall j :: i < j < |ids| ==> !Lists(s, ids[j], y)
  {
    if ids == [] then None
    else
      var later := LastLink(s, ids[1..], y);
      assert forall i :: 1 <= i < |ids| ==> ids[i] == ids[1..][i - 1];
      if later.Some? then
        assert exists i :: 1 <= i < |ids| && ids[i] == later.value && Lists(s, ids[i], y)
                 && forall j :: i < j < |ids| ==> !Lists(s, ids[j], y) by {
          var i :| 0 <= i < |ids[1..]| && ids[1..][i] == later.value && Lists(s, ids[1..][i], y)
                   && forall j :: i < j < |ids[1..]| ==> !Lists(s, ids[1..][j], y);
          assert ids[i + 1] == ids[1..][i];
        }
        later
      else if Lists(s, ids[0], y) then Some(ids[0])
      else None
  }

  /** A product row once `link` is applied: the meta it now points at, or as it was. */
  function WithLink(product: Row, link: Option<int>): Row
  {
    match link
    case None => product
    case Some(x) => product["meta_variability" := Str(IntToStr(x))]
  }

  /** The link a meta makes depends only on that meta's row. */
  lemma {:induction false} LastLinkFrame(s: DbState, t: DbState, ids: seq<int>, y: int)
    requires forall z :: z in ids ==> RowOf(t, Metas, z) == RowOf(s, Metas, z)
    ensures LastLink(t, ids, y) == LastLink(s, ids, y)
  {
    if ids != [] {
      assert forall z :: z in ids[1..] ==> z in ids;
      LastLinkFrame(s, t, ids[1..], y);
      assert Lists(t, ids[0], y) == Lists(s, ids[0], y);
    }
  }

  /** The statements of meta `x` point every product it lists at it and leave the other products alone. */
  lemma MetaLinkStep(select: seq<string>, s: DbState, x: int, patch: Option<Row>)
    ensures var t := ApplyAll(s, RowStatements(MetaRows(select), s, x, patch));
            forall y :: y in TableOf(s, Products).rows ==>
              RowOf(t, Products, y) == WithLink(RowOf(s, Products, y), if Lists(s, x, y) then Some(x) else None)
  {
    var job := MetaRows(select);
    var row := RowOf(s, Metas, x);
    var p12 := UpdatePlan(Metas, x, patch) + (if Backfills(job) then OrderingPlan(s, ItemTypeOf(job), x, Get(row, "ordering")) else []);
    var s2 := ApplyAll(s, p12);
    MetaRowProducts(select, s, x, patch);
    LinkStep(s2, row, x);
    ApplyAllAppend(s, p12, LinkPlan(row, x));
    assert RowStatements(job, s, x, patch) == p12 + LinkPlan(row, x);
  }

  /** The UPDATE of a meta and its ordering INSERT leave the products table alone. */
  lemma MetaRowProducts(select: seq<string>, s: DbState, x: int, patch: Option<Row>)
    ensures var job := MetaRows(select);
            var row := RowOf(s, Metas, x);
            var p12 := UpdatePlan(Metas, x, patch) + (if Backfills(job) then OrderingPlan(s, ItemTypeOf(job), x, Get(row, "ordering")) else []);
            TableOf(ApplyAll(s, p12), Products) == TableOf(s, Products)
  {
    var job := MetaRows(select);
    var row := RowOf(s, Metas, x);
    var p1 := UpdatePlan(Metas, x, patch);
    var p2 := if Backfills(job) then OrderingPlan(s, ItemTypeOf(job), x, Get(row, "ordering")) else [];
    var s1 := ApplyAll(s, p1);
    if patch.Some? && patch.value != map[] {
      UpdateRowStep(s, Metas, x, patch.value);
    } else {
      assert s1 == s;
    }
    OrderingStep(s1, ItemTypeOf(job), x, Get(row, "ordering"));
    if !Backfills(job) { assert ApplyAll(s1, p2) == s1; }
    ApplyAllAppend(s, p1, p2);
  }

  /** One meta of a scan: the other metas keep their rows, and the products it lists point at it. */
  lemma MetaPlanStep(select: seq<string>, plan: (DbState, int) -> seq<Statement>, s: DbState, x: int)
    requires Planned(MetaRows(select), plan)
    ensures var t := ApplyAll(s, plan(s, x));
            && (forall z :: z != x ==> RowOf(t, Metas, z) == RowOf(s, Metas, z))
            && TableOf(t, Products).rows.Keys == TableOf(s, Products).rows.Keys
            && forall y :: y in TableOf(s, Products).rows ==>
                 RowOf(t, Products, y) == WithLink(RowOf(s, Products, y), if Lists(s, x, y) then Some(x) else None)
  {
    PlanStep(MetaRows(select), plan, s, x);
    assert plan(s, x) == RowPlan(MetaRows(select), s, x);
    MetaLinkStep(select, s, x, Patch(MetaRows(select), s, x));
  }

  /** The last meta of `a[k..]` listing `y`: the last of `a[k + 1..]`, or else `a[k]` when it lists `y`. */
  lemma LastLinkUnfold(s: DbState, a: seq<int>, k: nat, y: int)
    requires k < |a|
    ensures LastLink(s, a[k..], y)
         == var later := LastLink(s, a[k + 1..], y);
            if later.Some? then later else if Lists(s, a[k], y) then Some(a[k]) else None
  {
    assert a[k..][1..] == a[k + 1..] && a[k..][0] == a[k];
  }

  /** A later link overrides an earlier one. */
  lemma LinkThen(product: Row, x: int, listed: bool, later: Option<int>)
    ensures WithLink(WithLink(product, if listed then Some(x) else None), later)
         == WithLink(product, if later.Some? then later else if listed then Some(x) else None)
  {
  }

  /**
   * A metas scan over the rows `a[k..]` (ascending) leaves each product
   * pointing at the last of them that lists it, and every product no meta
   * among them lists as it was.
   */
  lemma {:induction false} ScanLinks(select: seq<string>, plan: (DbState, int) -> seq<Statement>, a: seq<int>, k: nat, s: DbState)
    requires Planned(MetaRows(select), plan) && Increasing(a) && k <= |a|
    decreases |a| - k
    ensures var t := ApplyAll(s, Scan(plan, a, k, s));
            forall y :: y in TableOf(s, Products).rows ==>
              RowOf(t, Products, y) == WithLink(RowOf(s, Products, y), LastLink(s, a[k..], y))
  {
    if k < |a| {
      var x := a[k];
      var s1 := ApplyAll(s, plan(s, x));
      MetaPlanStep(select, plan, s, x);
      ScanLinks(select, plan, a, k + 1, s1);
      ScanUnfold(plan, a, k, s);
      var t := ApplyAll(s1, Scan(plan, a, k + 1, s1));
      assert x !in a[k + 1..];
      forall y | y in TableOf(s, Products).rows
        ensures RowOf(t, Products, y) == WithLink(RowOf(s, Products, y), LastLink(s, a[k..], y))
      {
        LastLinkFrame(s, s1, a[k + 1..], y);
        LastLinkUnfold(s, a, k, y);
        LinkThen(RowOf(s, Products, y), x, Lists(s, x, y), LastLink(s, a[k + 1..], y));
      }
    } else {
      assert ApplyFirst(s, [], 0) == s;
    }
  }

  /**
   * The ordering backfill over the rows `a[k..]`: every one of them ends
   * with a root entry, no root entry is lost, and no item gets a second
   * one.
   */
  lemma {:induction false} ScanOrderings(job: Job, plan: (DbState, int) -> seq<Statement>, a: seq<int>, k: nat, s: DbState)
    requires Planned(job, plan) && k <= |a|
    decreases |a| - k
    ensures var t := ApplyAll(s, Scan(plan, a, k, s));
            && (!Backfills(job) ==> t.orderings == s.orderings)
            && (UniqueRoots(s.orderings) ==> UniqueRoots(t.orderings))
            && (forall u, other :: HasRootEntry(s.orderings, u, other) ==> HasRootEntry(t.orderings, u, other))
            && (Backfills(job) ==> forall i :: k <= i < |a| ==>
                  HasRootEntry(t.orderings, ItemTypeOf(job), OrderingItemId(ItemTypeOf(job), a[i])))
  {
    if k < |a| {
      var s1 := ApplyAll(s, plan(s, a[k]));
      RowOrderings(job, plan, s, a[k]);
      ScanOrderings(job, plan, a, k + 1, s1);
      ScanUnfold(plan, a, k, s);
    } else {
      assert ApplyFirst(s, [], 0) == s;
    }
  }

  /** The orderings after one row: its root entry added when the job backfills, nothing else changed. */
  lemma RowOrderings(job: Job, plan: (DbState, int) -> seq<Statement>, s: DbState, x: int)
    requires Planned(job, plan)
    ensures var t := ApplyAll(s, plan(s, x));
            && (!Backfills(job) ==> t.orderings == s.orderings)
            && (UniqueRoots(s.orderings) ==> UniqueRoots(t.orderings))
            && (forall u, other :: HasRootEntry(s.orderings, u, other) ==> HasRootEntry(t.orderings, u, other))
            && (Backfills(job) ==> HasRootEntry(t.orderings, ItemTypeOf(job), OrderingItemId(ItemTypeOf(job), x)))
  {
    var t := ApplyAll(s, plan(s, x));
    PlanStep(job, plan, s, x);
    if Backfills(job) {
      var ty := ItemTypeOf(job);
      var ordering := Get(RowOf(s, JobTable(job), x), "ordering");
      BackfillFacts(s.orderings, ty, OrderingItemId(ty, x), ordering);
      forall u, other | HasRootEntry(s.orderings, u, other) ensures HasRootEntry(t.orderings, u, other) {
        BackfillKeepsRoots(s.orderings, ty, OrderingItemId(ty, x), ordering, u, other);
      }
    }
  }

  /** Once row `x` is done, no id above `x` enters or leaves the set the scan query reads. */
  lemma PlanStable(job: Job, plan: (DbState, int) -> seq<Statement>, s: DbState, x: int)
    requires Planned(job, plan)
    ensures Above(ScanIds(job, ApplyAll(s, plan(s, x))), x) == Above(ScanIds(job, s), x)
  {
    var t := ApplyAll(s, plan(s, x));
    PlanStep(job, plan, s, x);
    var table := JobTable(job);
    assert TableOf(t, table).rows.Keys == TableOf(s, table).rows.Keys;
    if job.MenuRows? {
      forall y | y > x ensures y in ScanIds(job, t) <==> y in ScanIds(job, s) {
        assert RowOf(t, table, y) == RowOf(s, table, y);
      }
    }
  }

  /** `S` and `T` agree above `last`. */
  ghost predicate SameAbove(S: set<int>, T: set<int>, last: int)
  {
    forall y :: y > last ==> (y in S <==> y in T)
  }

  lemma SameAboveAbove(S: set<int>, T: set<int>, last: int)
    ensures SameAbove(S, T, last) <==> Above(S, last) == Above(T, last)
  {
    if Above(S, last) == Above(T, last) {
      forall y | y > last ensures y in S <==> y in T {
        assert y in S <==> y in Above(S, last);
        assert y in T <==> y in Above(T, last);
      }
    }
  }

  /** The stability of the ids above the cursor carries over one row. */
  lemma CursorStep(job: Job, plan: (DbState, int) -> seq<Statement>, ids: set<int>, s: DbState, last: int, x: int)
    requires Planned(job, plan) && last < x
    requires SameAbove(ScanIds(job, s), ids, last)
    ensures SameAbove(ScanIds(job, ApplyAll(s, plan(s, x))), ids, x)
  {
    SameAboveAbove(ScanIds(job, s), ids, last);
    PlanStable(job, plan, s, x);
    AboveShift(ScanIds(job, s), ids, last, x);
    SameAboveAbove(ScanIds(job, ApplyAll(s, plan(s, x))), ids, x);
  }

  lemma AboveShift(S: set<int>, T: set<int>, last: int, x: int)
    requires Above(S, last) == Above(T, last) && last <= x
    ensures Above(S, x) == Above(T, x)
  {
    assert forall y :: y in Above(S, x) ==> y in Above(S, last);
    assert forall y :: y in Above(T, x) ==> y in Above(T, last);
  }

  /** The page query sees only the ids above the cursor. */
  lemma NextPageAbove(S: set<int>, T: set<int>, last: int, limit: nat)
    requires Above(S, last) == Above(T, last)
    ensures NextPage(S, last, limit) == NextPage(T, last, limit)
  {
  }

  /**
   * While the ids above the cursor are those of the first read, the page
   * read on the current state is the next window of the first read's
   * order.
   */
  lemma PageAt(S: set<int>, ids: set<int>, a: seq<int>, k: nat, last: int, limit: nat)
    requires SameAbove(S, ids, last) && ScanOrder(a, ids) && k <= |a|
    requires last == if k == 0 then 0 else a[k - 1]
    ensures NextPage(S, last, limit) == a[k..k + MinNat(|a| - k, limit)]
  {
    SameAboveAbove(S, ids, last);
    NextPageAbove(S, ids, last, limit);
    WindowOf(ids, a, k, last, limit);
  }

  /** The scan order ascends through positive ids. */
  lemma ScanOrderFacts(ids: set<int>, a: seq<int>)
    requires ScanOrder(a, ids)
    ensures Increasing(a) && forall i :: 0 <= i < |a| ==> a[i] > 0
  {
    AscendingFacts(Above(ids, 0));
    forall i | 0 <= i < |a| ensures a[i] > 0 {
      assert a[i] in a;
    }
  }

  /** Page arithmetic: `p` full pages of 100 rows and a last page of `r` rows. */
  lemma PagesOf(p: nat, r: nat)
    requires r < 100
    ensures Pages(100 * p + r, 100) == p + (if r == 0 then 0 else 1)
  {
  }

  // ---------------------------------------------------------------------
  // The row code of the steps
  // ---------------------------------------------------------------------

  /** The products loop collecting the columns to update: the patch and whether the row is written. */
  method ProductUpdate(select: seq<string>, product: Row) returns (write: bool, update: Row)
    ensures write == ProductPatch(select, product).Some?
    ensures write ==> update == ProductPatch(select, product).value
  {
    write := false;
    update := map[];
    if "pathway" in select && !Empty(Get(product, "pathway")) {
      write := true;
      update := update["category_pathway" := Get(product, "pathway")];
    }
    if "categories" in select && !Empty(Get(product, "categories")) {
      write := true;
      var tokens := CategoryTokens(TextOf(Get(product, "categories")));
      var additional := KeepAdditional(tokens, IntOf(Get(product, "category")));
      update := update["categories_additional" := Str(Join(IntStrings(additional), ','))];
    }
  }

  /** The same for a meta, whose variability fields are looked up in `fieldRows`. */
  method MetaUpdate(select: seq<string>, meta: Row, fieldRows: map<int, Row>) returns (write: bool, update: Row)
    ensures write == MetaPatch(select, meta, fieldRows).Some?
    ensures write ==> update == MetaPatch(select, meta, fieldRows).value
  {
    var params := RegistryOf(Get(meta, "params"));
    write := false;
    update := map[];
    if "categories" in select && !Empty(Get(meta, "categories")) {
      write := true;
      var tokens := CategoryTokens(TextOf(Get(meta, "categories")));
      var additional := KeepAdditional(tokens, IntOf(Get(meta, "category")));
      update := update["categories_additional" := Str(Join(IntStrings(additional), ','))];
      assert update == map["categories_additional" := AdditionalOf(meta)];
    }
    ghost var split := update;
    if Empty(Get(meta, "created")) {
      write := true;
    }
    ghost var vp := VariabilityPatch(params, fieldRows);
    if "variability_fields" in params && params["variability_fields"].Obj? {
      var aliases := Aliases(params["variability_fields"].fields);
      if aliases != {} {
        var ids := FieldIds(fieldRows, aliases);
        if ids != {} {
          write := true;
          update := update["params" := Obj(params["variability_fields" := IdList(ids)])];
          assert vp == Some(params["variability_fields" := IdList(ids)]);
        } else {
          assert vp.None?;
        }
      } else {
        assert vp.None?;
      }
    } else {
      assert vp.None?;
    }
    MetaPatchParts(select, meta, fieldRows);
  }

  /** The same for a category: the totals registry. */
  method CategoryUpdate(select: seq<string>, category: Row) returns (write: bool, update: Row)
    ensures write == TotalsPatch(select, category).Some?
    ensures write ==> update == TotalsPatch(select, category).value
  {
    write := false;
    update := map[];
    if "total_products" in select || "total_metas" in select {
      write := true;
      var totals := RegistryOf(Get(category, "totals"));
      if "total_products" in select {
        totals := totals["products" := Get(category, "total_products")];
      }
      if "total_metas" in select {
        totals := totals["metas" := Get(category, "total_metas")];
      }
      update := update["totals" := Obj(totals)];
    }
  }

  /** The rewrite of a menu item's link and params. */
  method MenuUpdate(item: Row) returns (update: Row)
    ensures update == MenuPatch(item)
  {
    var vars := LinkVars(item);
    vars := vars["view" := Str("category")];
    var layout := if "layout" in vars then vars["layout"] else Str("categories");
    vars := vars["layout" := layout];
    var params := RegistryOf(Get(item, "params"));
    params := params["view_categories_layout" := layout];
    params := params["view_products_layout" := Str("_:default")];
    update := map["link" := Obj(vars), "params" := Obj(params)];
  }

  /**
   * `updateObject` of a row's collected columns, when the row was marked
   * for writing; with no column collected no query is sent.
   */
  method WriteRow(db: Database, table: string, x: int, write: bool, update: Row)
    modifies db
    ensures Issued(old(db.state), old(db.log), db.state, db.log,
                   UpdatePlan(table, x, if write then Some(update) else None))
    ensures db.state.orderings == old(db.state.orderings)
    ensures db.disconnects == old(db.disconnects) && db.cacheResets == old(db.cacheResets)
  {
    if write && update != map[] {
      UpdateRowStep(db.state, table, x, update);
      db.Execute(OnTable(table, UpdateRow(x, update)));
    } else {
      IssuedNothing(db.state, db.log);
    }
  }

  /** The existence probe on the ordering table and the INSERT of a root entry. */
  method BackfillOrdering(db: Database, t: ItemType, x: int, ordering: Value)
    modifies db
    ensures Issued(old(db.state), old(db.log), db.state, db.log, OrderingPlan(old(db.state), t, x, ordering))
    ensures db.disconnects == old(db.disconnects) && db.cacheResets == old(db.cacheResets)
  {
    var itemId := if t == MetaType then x * -1 else x;
    var exist := HasRootEntry(db.state.orderings, t, itemId);
    if !exist {
      db.Execute(InsertOrdering(OrderingEntry(itemId, t, 1, 0, ordering)));
    } else {
      IssuedNothing(db.state, db.log);
    }
  }

  /** The body of the products loop for one row. */
  method ProductRow(db: Database, select: seq<string>, x: int)
    modifies db
    ensures Issued(old(db.state), old(db.log), db.state, db.log,
                   RowStatements(ProductRows(select), old(db.state), x, ProductPatch(select, RowOf(old(db.state), Products, x))))
    ensures db.disconnects == old(db.disconnects) && db.cacheResets == old(db.cacheResets)
  {
    ghost var s0, l0 := db.state, db.log;
    var product := RowOf(db.state, Products, x);
    var write, update := ProductUpdate(select, product);
    ghost var p1 := UpdatePlan(Products, x, if write then Some(update) else None);
    WriteRow(db, Products, x, write, update);
    ghost var s1, l1 := db.state, db.log;
    ghost var p2 := if "ordering" in select then OrderingPlan(s0, ProductType, x, Get(product, "ordering")) else [];
    if "ordering" in select {
      assert OrderingPlan(s1, ProductType, x, Get(product, "ordering")) == p2;
      BackfillOrdering(db, ProductType, x, Get(product, "ordering"));
    } else {
      IssuedNothing(db.state, db.log);
    }
    IssuedTrans(s0, l0, s1, l1, db.state, db.log, p1, p2);
    assert RowStatements(ProductRows(select), s0, x, ProductPatch(select, product)) == p1 + p2 + [];
    assert p1 + p2 + [] == p1 + p2;
  }

  /** The body of the metas loop for one row. */
  method MetaRow(db: Database, select: seq<string>, x: int)
    modifies db
    ensures Issued(old(db.state), old(db.log), db.state, db.log,
                   RowStatements(MetaRows(select), old(db.state), x,
                                 MetaPatch(select, RowOf(old(db.state), Metas, x), TableOf(old(db.state), Fields).rows)))
    ensures db.disconnects == old(db.disconnects) && db.cacheResets == old(db.cacheResets)
  {
    ghost var s0, l0 := db.state, db.log;
    var meta := RowOf(db.state, Metas, x);
    var write, update := MetaUpdate(select, meta, TableOf(db.state, Fields).rows);
    ghost var p1 := UpdatePlan(Metas, x, if write then Some(update) else None);
    WriteRow(db, Metas, x, write, update);
    ghost var s1, l1 := db.state, db.log;
    ghost var p2 := if "ordering" in select then OrderingPlan(s0, MetaType, x, Get(meta, "ordering")) else [];
    if "ordering" in select {
      assert OrderingPlan(s1, MetaType, x, Get(meta, "ordering")) == p2;
      BackfillOrdering(db, MetaType, x, Get(meta, "ordering"));
    } else {
      IssuedNothing(db.state, db.log);
    }
    IssuedTrans(s0, l0, s1, l1, db.state, db.log, p1, p2);
    ghost var s2, l2 := db.state, db.log;
    var productIds := ProductIds(Get(meta, "products"));
    if productIds != {} {
      db.Execute(OnTable(Products, UpdateWhereIn(productIds, "meta_variability", Str(IntToStr(x)))));
    } else {
      IssuedNothing(db.state, db.log);
    }
    IssuedTrans(s0, l0, s2, l2, db.state, db.log, p1 + p2, LinkPlan(meta, x));
  }

  /** The body of the categories loop for one row. */
  method CategoryRow(db: Database, select: seq<string>, x: int)
    modifies db
    ensures Issued(old(db.state), old(db.log), db.state, db.log,
                   RowStatements(CategoryRows(select), old(db.state), x, TotalsPatch(select, RowOf(old(db.state), Categories, x))))
    ensures db.disconnects == old(db.disconnects) && db.cacheResets == old(db.cacheResets)
  {
    var category := RowOf(db.state, Categories, x);
    var write, update := CategoryUpdate(select, category);
    ghost var p1 := UpdatePlan(Categories, x, if write then Some(update) else None);
    assert RowStatements(CategoryRows(select), db.state, x, TotalsPatch(select, category)) == p1 + [] + [];
    assert p1 + [] + [] == p1;
    WriteRow(db, Categories, x, write, update);
  }

  /** The body of the menu loop for one item. */
  method MenuRow(db: Database, x: int)
    modifies db
    ensures Issued(old(db.state), old(db.log), db.state, db.log,
                   RowStatements(MenuRows, old(db.state), x, Some(MenuPatch(RowOf(old(db.state), Menu, x)))))
    ensures db.disconnects == old(db.disconnects) && db.cacheResets == old(db.cacheResets)
  {
    var item := RowOf(db.state, Menu, x);
    var update := MenuUpdate(item);
    ghost var p1 := [OnTable(Menu, UpdateRow(x, update))];
    assert "link" in update;
    assert RowStatements(MenuRows, db.state, x, Some(MenuPatch(item))) == p1 + [] + [];
    assert p1 + [] + [] == p1;
    db.Execute(OnTable(Menu, UpdateRow(x, update)));
  }

  /** One row of a scan, by job. */
  method ProcessRow(db: Database, job: Job, x: int, ghost plan: (DbState, int) -> seq<Statement>)
    requires Planned(job, plan)
    modifies db
    ensures Issued(old(db.state), old(db.log), db.state, db.log, plan(old(db.state), x))
    ensures db.disconnects == old(db.disconnects) && db.cacheResets == old(db.cacheResets)
  {
    ghost var s0 := db.state;
    assert plan(s0, x) == RowPlan(job, s0, x);
    match job
    case ProductRows(select) => ProductRow(db, select, x);
    case MetaRows(select) => MetaRow(db, select, x);
    case CategoryRows(select) => CategoryRow(db, select, x);
    case MenuRows => MenuRow(db, x);
  }

  // ---------------------------------------------------------------------
  // The scan loops
  // ---------------------------------------------------------------------

  /**
   * One page: the query for the next ids above the cursor, read on the
   * current state, then the inner `foreach` processing each row and moving
   * the cursor to it. Stated against the scan: `a` is the ascending order
   * of the ids the first query reads, of which the first `k` are done with
   * `done` issued, and `whole` is the whole scan.
   */
  /** The scan loop's progress on the first `k` rows of `a`. */
  ghost predicate Progress(job: Job, plan: (DbState, int) -> seq<Statement>, ids: set<int>, a: seq<int>, k: nat, last: int,
                           s0: DbState, l0: seq<Statement>, s: DbState, l: seq<Statement>,
                           done: seq<Statement>, whole: seq<Statement>)
  {
    && k <= |a|
    && last == (if k == 0 then 0 else a[k - 1])
    && SameAbove(ScanIds(job, s), ids, last)
    && Issued(s0, l0, s, l, done)
    && whole == done + Scan(plan, a, k, s)
  }

  /** The page query: the next `Limit(job)` ids above the cursor, which is the next window of the scan order. */
  method FetchPage(db: Database, job: Job, last: int, ghost plan: (DbState, int) -> seq<Statement>,
                   ghost ids: set<int>, ghost a: seq<int>, ghost k: nat,
                   ghost s0: DbState, ghost l0: seq<Statement>, ghost done: seq<Statement>, ghost whole: seq<Statement>)
    returns (page: seq<int>)
    requires ScanOrder(a, ids)
    requires Progress(job, plan, ids, a, k, last, s0, l0, db.state, db.log, done, whole)
    ensures |page| == MinNat(|a| - k, Limit(job)) && k + |page| <= |a| && page == a[k..k + |page|]
  {
    page := NextPage(ScanIds(job, db.state), last, Limit(job));
    PageProgress(job, plan, ids, a, k, last, s0, l0, db.state, db.log, done, whole);
  }

  /** The page the scan fetches at progress `k` is the next window of the scan order. */
  lemma PageProgress(job: Job, plan: (DbState, int) -> seq<Statement>, ids: set<int>, a: seq<int>, k: nat, last: int,
                     s0: DbState, l0: seq<Statement>, s: DbState, l: seq<Statement>, done: seq<Statement>, whole: seq<Statement>)
    requires ScanOrder(a, ids)
    requires Progress(job, plan, ids, a, k, last, s0, l0, s, l, done, whole)
    ensures var page := NextPage(ScanIds(job, s), last, Limit(job));
            && |page| == MinNat(|a| - k, Limit(job))
            && k + |page| <= |a|
            && page == a[k..k + |page|]
  {
    PageAt(ScanIds(job, s), ids, a, k, last, Limit(job));
  }

  /** The rows of a fetched page, `a[k..k + |page|]`, processed in order. */
  method ScanPageRows(db: Database, job: Job, page: seq<int>, last: int, ghost plan: (DbState, int) -> seq<Statement>,
                      ghost ids: set<int>, ghost a: seq<int>, ghost k: nat,
                      ghost s0: DbState, ghost l0: seq<Statement>, ghost done: seq<Statement>, ghost whole: seq<Statement>)
    returns (newLast: int, ghost newK: nat, ghost newDone: seq<Statement>)
    requires Planned(job, plan)
    requires Increasing(a) && (forall i :: 0 <= i < |a| ==> a[i] > 0)
    requires k + |page| <= |a| && page == a[k..k + |page|]
    requires Progress(job, plan, ids, a, k, last, s0, l0, db.state, db.log, done, whole)
    modifies db
    ensures newK == k + |page|
    ensures Progress(job, plan, ids, a, newK, newLast, s0, l0, db.state, db.log, newDone, whole)
    ensures db.disconnects == old(db.disconnects) && db.cacheResets == old(db.cacheResets)
  {
    newLast := last;
    newDone := done;
    newK := k;
    var j := 0;
    while j < |page|
      invariant 0 <= j <= |page| && newK == k + j
      invariant Progress(job, plan, ids, a, newK, newLast, s0, l0, db.state, db.log, newDone, whole)
      invariant db.disconnects == old(db.disconnects) && db.cacheResets == old(db.cacheResets)
    {
      assert page[j] == a[newK];
      newLast, newK, newDone := ScanRow(db, job, page[j], newLast, plan, ids, a, newK, s0, l0, newDone, whole);
      j := j + 1;
    }
  }

  /** One row of a page: processed, and the cursor moved to it. */
  method ScanRow(db: Database, job: Job, x: int, last: int, ghost plan: (DbState, int) -> seq<Statement>,
                 ghost ids: set<int>, ghost a: seq<int>, ghost i: nat,
                 ghost s0: DbState, ghost l0: seq<Statement>, ghost done: seq<Statement>, ghost whole: seq<Statement>)
    returns (newLast: int, ghost next: nat, ghost newDone: seq<Statement>)
    requires Planned(job, plan)
    requires Increasing(a) && (forall i :: 0 <= i < |a| ==> a[i] > 0) && i < |a| && x == a[i]
    requires Progress(job, plan, ids, a, i, last, s0, l0, db.state, db.log, done, whole)
    modifies db
    ensures next == i + 1
    ensures Progress(job, plan, ids, a, next, newLast, s0, l0, db.state, db.log, newDone, whole)
    ensures db.disconnects == old(db.disconnects) && db.cacheResets == old(db.cacheResets)
  {
    ghost var s1, l1 := db.state, db.log;
    ProcessRow(db, job, x, plan);
    next := i + 1;
    newDone := done + plan(s1, x);
    newLast := x;
    RowProgress(job, plan, ids, a, i, last, s0, l0, s1, l1, db.state, db.log, done, whole);
  }

  /** One row's statements, issued on top of a scan's progress, advance it by one row. */
  lemma RowProgress(job: Job, plan: (DbState, int) -> seq<Statement>, ids: set<int>, a: seq<int>, i: nat, last: int,
                    s0: DbState, l0: seq<Statement>, s1: DbState, l1: seq<Statement>, s2: DbState, l2: seq<Statement>,
                    done: seq<Statement>, whole: seq<Statement>)
    requires Planned(job, plan) && Increasing(a) && i < |a| && a[i] > 0
    requires Progress(job, plan, ids, a, i, last, s0, l0, s1, l1, done, whole)
    requires Issued(s1, l1, s2, l2, plan(s1, a[i]))
    ensures Progress(job, plan, ids, a, i + 1, a[i], s0, l0, s2, l2, done + plan(s1, a[i]), whole)
  {
    var p := plan(s1, a[i]);
    assert last < a[i] by {
      if i > 0 { assert a[i - 1] < a[i]; }
    }
    CursorStep(job, plan, ids, s1, last, a[i]);
    IssuedTrans(s0, l0, s1, l1, s2, l2, done, p);
    ScanNext(plan, a, i, i + 1, s1);
    assert done + p + Scan(plan, a, i + 1, s2) == done + (p + Scan(plan, a, i + 1, s2));
  }

  /**
   * A scan loop of the migration: pages of `Limit(job)` rows above the
   * cursor, read on the current state; after each page the application
   * caches are reset (`cleanRadicalMartRAM`), or for the menu the
   * connection is closed; an empty or short page ends the loop. The rows
   * are visited once each, in ascending id order.
   */
  method ScanRows(db: Database, job: Job, ghost plan: (DbState, int) -> seq<Statement>)
    requires Planned(job, plan)
    modifies db
    ensures var a := Ascending(Above(ScanIds(job, old(db.state)), 0));
            && Issued(old(db.state), old(db.log), db.state, db.log, Scan(plan, a, 0, old(db.state)))
            && (job.MenuRows? ==> db.disconnects == old(db.disconnects) + |a| && db.cacheResets == old(db.cacheResets))
            && (!job.MenuRows? ==> db.cacheResets == old(db.cacheResets) + Pages(|a|, 100) && db.disconnects == old(db.disconnects))
  {
    ghost var s0, l0 := db.state, db.log;
    ghost var ids := ScanIds(job, db.state);
    ghost var a := Ascending(Above(ids, 0));
    ghost var whole := Scan(plan, a, 0, s0);
    var limit := Limit(job);
    var last := 0;
    ghost var k: nat := 0;
    ghost var pagesDone: nat := 0;
    ghost var done: seq<Statement> := [];
    IssuedNothing(s0, l0);
    assert [] + whole == whole;
    ScanOrderFacts(ids, a);
    while true
      invariant k == if job.MenuRows? then pagesDone else 100 * pagesDone
      invariant Progress(job, plan, ids, a, k, last, s0, l0, db.state, db.log, done, whole)
      invariant job.MenuRows? ==> db.disconnects == old(db.disconnects) + pagesDone && db.cacheResets == old(db.cacheResets)
      invariant !job.MenuRows? ==> db.cacheResets == old(db.cacheResets) + pagesDone && db.disconnects == old(db.disconnects)
      decreases |a| - k
    {
      var page := FetchPage(db, job, last, plan, ids, a, k, s0, l0, done, whole);
      last, k, done := ScanPageRows(db, job, page, last, plan, ids, a, k, s0, l0, done, whole);
      if |page| == 0 {
        assert done + [] == done;
        PagesOf(pagesDone, 0);
        break;
      }
      pagesDone := pagesDone + 1;
      if job.MenuRows? {
        db.Disconnect();
      } else {
        db.ResetCaches();
      }
      if |page| < limit {
        assert k == |a|;
        assert done + [] == done;
        PagesOf(pagesDone - 1, |page|);
        break;
      }
    }
  }
}
