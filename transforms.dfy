/**
 * The per-row transforms of the 3.0.0 migration (`RadicalMart300`): the
 * split of the legacy category list, the product and meta patches, the
 * ordering backfill entry, the variability fields resolved by alias, the
 * consolidated totals and the menu link rewrite. Each is a function of the
 * row as read (and, where the source queries another table, of that table).
 */
module RowTransforms {
  import opened Wrappers
  import opened Text
  import opened Store

  /** PHP's `(int)` cast of a column value: a string is parsed, anything else is 0. */
  function IntOf(v: Value): int
  {
    if v.Str? then StrToInt(v.s) else 0
  }

  /** A text column as a string; NULL reads as "". */
  function TextOf(v: Value): string
  {
    if v.Str? then v.s else ""
  }

  /** The fields of a decoded `Registry`; anything that is not an object loads as an empty registry. */
  function RegistryOf(v: Value): (r: map<string, Value>)
    ensures v.Obj? ==> r == v.fields
    ensures !v.Obj? ==> r == map[]
  {
    if v.Obj? then v.fields else map[]
  }

  // ---------------------------------------------------------------------
  // categories => categories_additional
  // ---------------------------------------------------------------------

  /** `ArrayHelper::toInteger(explode(',', s))`. */
  function CategoryTokens(s: string): (r: seq<int>)
    ensures |r| == |Split(s, ',')| && forall i :: 0 <= i < |r| ==> r[i] == StrToInt(Split(s, ',')[i])
  {
    var parts := Split(s, ',');
    seq(|parts|, i requires 0 <= i < |parts| => StrToInt(parts[i]))
  }

  /** The additional categories: the list without the zeros and without the primary category, in order. */
  function KeepAdditional(xs: seq<int>, category: int): (r: seq<int>)
    ensures forall x :: x in r <==> x in xs && x != 0 && x != category
    ensures |r| <= |xs|
  {
    if xs == [] then []
    else (if xs[0] == 0 || xs[0] == category then [] else [xs[0]]) + KeepAdditional(xs[1..], category)
  }

  /** The filter works element by element, so it keeps the original order. */
  lemma {:induction false} KeepAdditionalAppend(a: seq<int>, b: seq<int>, category: int)
    ensures KeepAdditional(a + b, category) == KeepAdditional(a, category) + KeepAdditional(b, category)
  {
    if a != [] {
      var head := if a[0] == 0 || a[0] == category then [] else [a[0]];
      assert (a + b)[0] == a[0] && (a + b)[1..] == a[1..] + b;
      KeepAdditionalAppend(a[1..], b, category);
      assert KeepAdditional(a + b, category) == head + KeepAdditional(a[1..] + b, category);
      assert KeepAdditional(a, category) == head + KeepAdditional(a[1..], category);
      assert head + (KeepAdditional(a[1..], category) + KeepAdditional(b, category))
          == (head + KeepAdditional(a[1..], category)) + KeepAdditional(b, category);
    } else {
      assert a + b == b;
    }
  }

  /** A list that already has no zero and no primary category passes the filter unchanged. */
  lemma {:induction false} KeepAdditionalKept(xs: seq<int>, category: int)
    requires forall i :: 0 <= i < |xs| ==> xs[i] != 0 && xs[i] != category
    ensures KeepAdditional(xs, category) == xs
  {
    if xs != [] {
      KeepAdditionalKept(xs[1..], category);
    }
  }

  function IntStrings(xs: seq<int>): (r: seq<string>)
    ensures |r| == |xs| && forall i :: 0 <= i < |xs| ==> r[i] == IntToStr(xs[i])
  {
    seq(|xs|, i requires 0 <= i < |xs| => IntToStr(xs[i]))
  }

  /**
   * The `categories_additional` value written for a row whose `categories`
   * column holds `categories` and whose primary category is `category`.
   */
  function CategoriesAdditional(categories: string, category: int): (r: string)
    ensures r == "" <==> KeepAdditional(CategoryTokens(categories), category) == []
  {
    var kept := KeepAdditional(CategoryTokens(categories), category);
    Join(IntStrings(kept), ',')
  }

  lemma {:induction false} NatToStrNoComma(n: nat)
    ensures ',' !in NatToStr(n)
  {
    if n >= 10 {
      NatToStrNoComma(n / 10);
    }
  }

  lemma IntToStrNoComma(n: int)
    ensures ',' !in IntToStr(n)
  {
    if n < 0 {
      NatToStrNoComma(-n);
      assert IntToStr(n) == "-" + NatToStr(-n);
    } else {
      NatToStrNoComma(n);
    }
  }

  /**
   * Reading `categories_additional` back: splitting it at commas and
   * casting each piece gives the kept categories, in order; an empty list
   * is written as "", which reads back as the single token 0.
   */
  lemma CategoriesAdditionalReadBack(categories: string, category: int)
    ensures var kept := KeepAdditional(CategoryTokens(categories), category);
            CategoryTokens(CategoriesAdditional(categories, category)) == if kept == [] then [0] else kept
  {
    var kept := KeepAdditional(CategoryTokens(categories), category);
    var strs := IntStrings(kept);
    if kept == [] {
      assert CategoriesAdditional(categories, category) == "";
      assert StrToInt("") == 0;
    } else {
      forall i | 0 <= i < |strs| ensures ',' !in strs[i] {
        IntToStrNoComma(kept[i]);
      }
      SplitJoin(strs, ',');
      var r := CategoryTokens(CategoriesAdditional(categories, category));
      forall i | 0 <= i < |kept| ensures r[i] == kept[i] {
        StrToIntOfIntToStr(kept[i]);
      }
    }
  }

  /** Converting an already converted list again changes nothing. */
  lemma CategoriesAdditionalIdempotent(categories: string, category: int)
    ensures CategoriesAdditional(CategoriesAdditional(categories, category), category)
         == CategoriesAdditional(categories, category)
  {
    var kept := KeepAdditional(CategoryTokens(categories), category);
    CategoriesAdditionalReadBack(categories, category);
    if kept == [] {
      assert KeepAdditional([0], category) == [];
    } else {
      forall i | 0 <= i < |kept| ensures kept[i] != 0 && kept[i] != category {
        assert kept[i] in kept;
      }
      KeepAdditionalKept(kept, category);
    }
  }

  /**
   * A legacy list written with a space after a comma and a piece that is
   * not a number: the cast skips the space and reads the other piece as 0.
   */
  lemma CategoryTokensSpaced(a: nat, b: nat)
    ensures CategoryTokens(NatToStr(a) + ", " + NatToStr(b) + ",x") == [a, b, 0]
  {
    var da, db := NatToStr(a), NatToStr(b);
    NatToStrNoComma(a);
    NatToStrNoComma(b);
    assert da + ", " + db + ",x" == da + [','] + ((" " + db) + [','] + "x");
    TokensCons(da, (" " + db) + [','] + "x");
    TokensCons(" " + db, "x");
    TokensSingle("x");
    assert StrToInt(da) == a by {
      DigitsValueOfNatToStr(a);
      StrToIntOfDigits(da);
    }
    assert StrToInt(" " + db) == b by {
      DigitsValueOfNatToStr(b);
      StrToIntSpaced(db);
    }
    assert StrToInt("x") == 0 by {
      assert "x"[0] == 'x';
    }
  }

  /** One space before a string of digits is skipped. */
  lemma StrToIntSpaced(d: string)
    requires AllDigits(d)
    ensures StrToInt(" " + d) == DigitsValue(d)
  {
    assert (" " + d)[1..] == d;
    StrToIntOfDigits(d);
  }

  /** The first piece of a list casts on its own, ahead of the rest. */
  lemma TokensCons(a: string, rest: string)
    requires ',' !in a
    ensures CategoryTokens(a + [','] + rest) == [StrToInt(a)] + CategoryTokens(rest)
  {
    SplitAfterPiece(a, ',', rest);
  }

  /** A list without a comma is one piece. */
  lemma TokensSingle(a: string)
    requires ',' !in a
    ensures CategoryTokens(a) == [StrToInt(a)]
  {
    SplitNoSep(a, ',');
  }

  // ---------------------------------------------------------------------
  // Product rows
  // ---------------------------------------------------------------------

  /** The legacy `pathway` is selected and not empty. */
  predicate CopiesPathway(select: seq<string>, row: Row)
  {
    "pathway" in select && !Empty(Get(row, "pathway"))
  }

  /** The legacy `categories` is selected and not empty. */
  predicate SplitsCategories(select: seq<string>, row: Row)
  {
    "categories" in select && !Empty(Get(row, "categories"))
  }

  function AdditionalOf(row: Row): Value
  {
    Str(CategoriesAdditional(TextOf(Get(row, "categories")), IntOf(Get(row, "category"))))
  }

  /**
   * The columns a product row is updated with, or `None` when the row is
   * not written: `category_pathway` takes the legacy `pathway` verbatim and
   * `categories_additional` the converted list.
   */
  function ProductPatch(select: seq<string>, row: Row): (r: Option<Row>)
    ensures r.Some? <==> CopiesPathway(select, row) || SplitsCategories(select, row)
    ensures r.Some? ==> forall c :: c in r.value ==> c == "category_pathway" || c == "categories_additional"
    ensures r.Some? ==> ("category_pathway" in r.value <==> CopiesPathway(select, row))
    ensures r.Some? && CopiesPathway(select, row) ==> r.value["category_pathway"] == Get(row, "pathway")
    ensures r.Some? ==> ("categories_additional" in r.value <==> SplitsCategories(select, row))
    ensures r.Some? && SplitsCategories(select, row) ==> r.value["categories_additional"] == AdditionalOf(row)
  {
    if !CopiesPathway(select, row) && !SplitsCategories(select, row) then None
    else Some((if CopiesPathway(select, row) then map["category_pathway" := Get(row, "pathway")] else map[])
              + (if SplitsCategories(select, row) then map["categories_additional" := AdditionalOf(row)] else map[]))
  }

  // ---------------------------------------------------------------------
  // Ordering backfill (`#__radicalmart_categories_items`)
  // ---------------------------------------------------------------------

  /** The `item_id` of an item's ordering entries: metas use the negated id. */
  function OrderingItemId(t: ItemType, id: int): (r: int)
    ensures t == ProductType ==> r == id
    ensures t == MetaType ==> r == -id
  {
    if t == MetaType then -id else id
  }

  /** An entry of the root category (id 1) for the item. */
  predicate IsRoot(e: OrderingEntry, t: ItemType, itemId: int)
  {
    e.categoryId == 1 && e.itemType == t && e.itemId == itemId
  }

  predicate HasRootEntry(orderings: seq<OrderingEntry>, t: ItemType, itemId: int)
  {
    exists i :: 0 <= i < |orderings| && IsRoot(orderings[i], t, itemId)
  }

  /** No item has two root entries. */
  predicate UniqueRoots(orderings: seq<OrderingEntry>)
  {
    forall i, j :: 0 <= i < j < |orderings| && orderings[i].categoryId == 1 ==>
      !IsRoot(orderings[j], orderings[i].itemType, orderings[i].itemId)
  }

  /** The root entry inserted for an item, or `None` when the probe finds one already. */
  function BackfillEntry(orderings: seq<OrderingEntry>, t: ItemType, itemId: int, ordering: Value): (r: Option<OrderingEntry>)
    ensures r.None? <==> HasRootEntry(orderings, t, itemId)
    ensures r.Some? ==> r.value == OrderingEntry(itemId, t, 1, 0, ordering)
  {
    if HasRootEntry(orderings, t, itemId) then None else Some(OrderingEntry(itemId, t, 1, 0, ordering))
  }

  /** The orderings after the backfill of one item. */
  function AfterBackfill(orderings: seq<OrderingEntry>, t: ItemType, itemId: int, ordering: Value): seq<OrderingEntry>
  {
    match BackfillEntry(orderings, t, itemId, ordering)
    case None => orderings
    case Some(e) => orderings + [e]
  }

  /**
   * After the backfill the item has a root entry, earlier entries are kept,
   * no item gets a second root entry, and backfilling again adds nothing.
   */
  lemma BackfillFacts(orderings: seq<OrderingEntry>, t: ItemType, itemId: int, ordering: Value)
    ensures var r := AfterBackfill(orderings, t, itemId, ordering);
            && HasRootEntry(r, t, itemId)
            && r[..|orderings|] == orderings
            && (UniqueRoots(orderings) ==> UniqueRoots(r))
            && BackfillEntry(r, t, itemId, ordering).None?
  {
    var r := AfterBackfill(orderings, t, itemId, ordering);
    if !HasRootEntry(orderings, t, itemId) {
      assert IsRoot(r[|orderings|], t, itemId);
      if UniqueRoots(orderings) {
        forall i, j | 0 <= i < j < |r| && r[i].categoryId == 1 ensures !IsRoot(r[j], r[i].itemType, r[i].itemId) {
          if j == |orderings| {
            assert r[i] == orderings[i];
            if IsRoot(r[j], r[i].itemType, r[i].itemId) {
              assert IsRoot(orderings[i], t, itemId);
              assert false;
            }
          }
        }
      }
    }
  }

  /** Backfilling an item keeps every root entry already there, for any item. */
  lemma BackfillKeepsRoots(orderings: seq<OrderingEntry>, t: ItemType, itemId: int, ordering: Value, u: ItemType, other: int)
    requires HasRootEntry(orderings, u, other)
    ensures HasRootEntry(AfterBackfill(orderings, t, itemId, ordering), u, other)
  {
    var i :| 0 <= i < |orderings| && IsRoot(orderings[i], u, other);
    assert AfterBackfill(orderings, t, itemId, ordering)[i] == orderings[i];
  }

  // ---------------------------------------------------------------------
  // Meta rows
  // ---------------------------------------------------------------------

  /** The values of a decoded object, or the items of a decoded list. */
  function Elements(v: Value): set<Value>
  {
    match v
    case Obj(fields) => fields.Values
    case List(items) => set x | x in items
    case _ => {}
  }

  /** The `alias` of every element of `variability_fields` that is an object with an alias set. */
  function Aliases(fields: map<string, Value>): (r: set<Value>)
    ensures forall a :: a in r <==> exists f :: f in fields.Values && f.Obj? && "alias" in f.fields && f.fields["alias"] != Null && f.fields["alias"] == a
  {
    set f | f in fields.Values && f.Obj? && "alias" in f.fields && f.fields["alias"] != Null :: f.fields["alias"]
  }

  /**
   * The ids of the rows of `#__radicalmart_fields` whose alias is one of
   * `aliases`, compared exactly (not under a case-insensitive collation).
   */
  function FieldIds(fieldRows: map<int, Row>, aliases: set<Value>): (r: set<int>)
    ensures forall id :: id in r <==> id in fieldRows && Get(fieldRows[id], "alias") in aliases
  {
    set id | id in fieldRows && Get(fieldRows[id], "alias") in aliases
  }

  /**
   * A list of ids as `loadColumn` returns it: strings. The query has no
   * ORDER BY; the order is assumed ascending.
   */
  function IdList(ids: set<int>): (r: Value)
    ensures r.List? && forall v :: v in r.items <==> exists id :: id in ids && v == Str(IntToStr(id))
  {
    var a := Ascending(ids);
    AscendingFacts(ids);
    var r := List(seq(|a|, i requires 0 <= i < |a| => Str(IntToStr(a[i]))));
    assert forall v :: v in r.items ==> exists id :: id in ids && v == Str(IntToStr(id)) by {
      forall v | v in r.items ensures exists id :: id in ids && v == Str(IntToStr(id)) {
        var i :| 0 <= i < |a| && r.items[i] == v;
        assert a[i] in a;
      }
    }
    assert forall id :: id in ids ==> Str(IntToStr(id)) in r.items by {
      forall id | id in ids ensures Str(IntToStr(id)) in r.items {
        var i :| 0 <= i < |a| && a[i] == id;
        assert r.items[i] == Str(IntToStr(id));
      }
    }
    r
  }

  /**
   * The meta's params with `variability_fields` replaced by the ids of the
   * fields its elements name by alias; `None` when the setting is not an
   * object, names no alias, or no alias resolves. (`Registry::get` gives
   * its default for an absent or null key.)
   */
  function VariabilityPatch(params: map<string, Value>, fieldRows: map<int, Row>): (r: Option<map<string, Value>>)
    ensures r.Some? <==> "variability_fields" in params && params["variability_fields"].Obj?
                         && Aliases(params["variability_fields"].fields) != {}
                         && FieldIds(fieldRows, Aliases(params["variability_fields"].fields)) != {}
    ensures r.Some? ==> r.value == params["variability_fields" := IdList(FieldIds(fieldRows, Aliases(params["variability_fields"].fields)))]
  {
    if "variability_fields" in params && params["variability_fields"].Obj? then
      var aliases := Aliases(params["variability_fields"].fields);
      if aliases == {} then None
      else
        var ids := FieldIds(fieldRows, aliases);
        if ids == {} then None else Some(params["variability_fields" := IdList(ids)])
    else None
  }

  /**
   * The columns a meta row is updated with, or `None` when it is not
   * written. An empty `created` marks the row for writing, but the new
   * timestamp is assigned to the row read, not to the update, so it adds
   * no column.
   */
  function MetaPatch(select: seq<string>, row: Row, fieldRows: map<int, Row>): (r: Option<Row>)
    ensures var vp := VariabilityPatch(RegistryOf(Get(row, "params")), fieldRows);
            r.Some? <==> SplitsCategories(select, row) || Empty(Get(row, "created")) || vp.Some?
    ensures r.Some? ==> forall c :: c in r.value ==> c == "categories_additional" || c == "params"
    ensures r.Some? ==> ("categories_additional" in r.value <==> SplitsCategories(select, row))
    ensures r.Some? && SplitsCategories(select, row) ==>
              "categories_additional" in r.value && r.value["categories_additional"] == AdditionalOf(row)
    ensures var vp := VariabilityPatch(RegistryOf(Get(row, "params")), fieldRows);
            r.Some? ==> ("params" in r.value <==> vp.Some?) && (vp.Some? ==> "params" in r.value && r.value["params"] == Obj(vp.value))
  {
    var vp := VariabilityPatch(RegistryOf(Get(row, "params")), fieldRows);
    if !SplitsCategories(select, row) && !Empty(Get(row, "created")) && vp.None? then None
    else
      var additional: Row := if SplitsCategories(select, row) then map["categories_additional" := AdditionalOf(row)] else map[];
      Some(if vp.Some? then additional["params" := Obj(vp.value)] else additional)
  }

  /** The two parts of a meta's patch: the split categories and the rewritten params. */
  lemma MetaPatchParts(select: seq<string>, row: Row, fieldRows: map<int, Row>)
    ensures var vp := VariabilityPatch(RegistryOf(Get(row, "params")), fieldRows);
            var additional: Row := if SplitsCategories(select, row) then map["categories_additional" := AdditionalOf(row)] else map[];
            MetaPatch(select, row, fieldRows)
              == if !SplitsCategories(select, row) && !Empty(Get(row, "created")) && vp.None? then None
                 else Some(if vp.Some? then additional["params" := Obj(vp.value)] else additional)
  {
  }

  /** A meta whose `created` is empty is marked for writing, yet its `created` is not among the columns written. */
  lemma CreatedNeverWritten(select: seq<string>, row: Row, fieldRows: map<int, Row>)
    requires Empty(Get(row, "created"))
    ensures MetaPatch(select, row, fieldRows).Some? && "created" !in MetaPatch(select, row, fieldRows).value
  {
  }

  /** `ArrayHelper::toInteger(ArrayHelper::getColumn($products, 'id'))`: the `id` set on each listed product. */
  function ProductIds(products: Value): (r: set<int>)
    ensures forall id :: id in r <==> exists e :: e in Elements(products) && e.Obj? && "id" in e.fields && e.fields["id"] != Null && IntOf(e.fields["id"]) == id
  {
    set e | e in Elements(products) && e.Obj? && "id" in e.fields && e.fields["id"] != Null :: IntOf(e.fields["id"])
  }

  // ---------------------------------------------------------------------
  // Category rows
  // ---------------------------------------------------------------------

  /**
   * The `totals` a category row is updated with, or `None` when neither
   * legacy total is selected: the existing totals with `products` and
   * `metas` set from the legacy columns that are selected.
   */
  function TotalsPatch(select: seq<string>, row: Row): (r: Option<Row>)
    ensures r.Some? <==> "total_products" in select || "total_metas" in select
    ensures r.Some? ==> r.value.Keys == {"totals"} && r.value["totals"].Obj?
    ensures r.Some? ==> var t := r.value["totals"].fields;
            && ("products" in t <==> "total_products" in select || "products" in RegistryOf(Get(row, "totals")))
            && ("metas" in t <==> "total_metas" in select || "metas" in RegistryOf(Get(row, "totals")))
            && ("total_products" in select ==> t["products"] == Get(row, "total_products"))
            && ("total_metas" in select ==> t["metas"] == Get(row, "total_metas"))
            && (forall k :: k != "products" && k != "metas" ==>
                  (k in t <==> k in RegistryOf(Get(row, "totals"))) && (k in t ==> t[k] == RegistryOf(Get(row, "totals"))[k]))
  {
    if "total_products" !in select && "total_metas" !in select then None
    else
      var t := RegistryOf(Get(row, "totals"));
      var t1 := if "total_products" in select then t["products" := Get(row, "total_products")] else t;
      var t2 := if "total_metas" in select then t1["metas" := Get(row, "total_metas")] else t1;
      Some(map["totals" := Obj(t2)])
  }

  // ---------------------------------------------------------------------
  // Menu items
  // ---------------------------------------------------------------------

  /** The query variables of a menu link. */
  function LinkVars(row: Row): map<string, Value>
  {
    RegistryOf(Get(row, "link"))
  }

  /** A menu item the scan selects: a component link to the categories view of the component. */
  predicate MenuMatches(row: Row): (b: bool)
    ensures b ==> Get(row, "type") == Str("component")
    ensures b ==> "option" in LinkVars(row) && "view" in LinkVars(row)
  {
    && Get(row, "type") == Str("component")
    && Get(LinkVars(row), "option") == Str("com_radicalmart")
    && Get(LinkVars(row), "view") == Str("categories")
  }

  /** The layout the link keeps: its own, or `categories` when it has none. */
  function MenuLayout(vars: map<string, Value>): (r: Value)
    ensures "layout" in vars ==> r == vars["layout"]
    ensures "layout" !in vars ==> r == Str("categories")
  {
    if "layout" in vars then vars["layout"] else Str("categories")
  }

  /**
   * The `link` and `params` a menu item is updated with: the link now
   * points at the `category` view and names its layout; the params take
   * that layout for the categories list and `_:default` for the products.
   */
  function MenuPatch(row: Row): (r: Row)
    ensures r.Keys == {"link", "params"} && r["link"].Obj? && r["params"].Obj?
    ensures var vars := LinkVars(row); var link := r["link"].fields;
            && "view" in link && link["view"] == Str("category")
            && "layout" in link && link["layout"] == MenuLayout(vars)
            && (forall k :: k != "view" && k != "layout" ==> (k in link <==> k in vars) && (k in link ==> link[k] == vars[k]))
    ensures var p := r["params"].fields;
            && "view_categories_layout" in p && p["view_categories_layout"] == MenuLayout(LinkVars(row))
            && "view_products_layout" in p && p["view_products_layout"] == Str("_:default")
            && (forall k :: k != "view_categories_layout" && k != "view_products_layout" ==>
                  (k in p <==> k in RegistryOf(Get(row, "params"))) && (k in p ==> p[k] == RegistryOf(Get(row, "params"))[k]))
  {
    var vars := LinkVars(row);
    var layout := MenuLayout(vars);
    map["link" := Obj(vars["view" := Str("category")]["layout" := layout]),
        "params" := Obj(RegistryOf(Get(row, "params"))["view_categories_layout" := layout]["view_products_layout" := Str("_:default")])]
  }

  /** A rewritten item is no longer selected, and rewriting it again changes nothing. */
  lemma MenuPatchSettles(row: Row)
    ensures !MenuMatches(row + MenuPatch(row))
    ensures MenuPatch(row + MenuPatch(row)) == MenuPatch(row)
  {
    var r := row + MenuPatch(row);
    var link := MenuPatch(row)["link"].fields;
    var params := MenuPatch(row)["params"].fields;
    assert LinkVars(r) == link;
    assert Get(LinkVars(r), "view") == Str("category");
    var layout := MenuLayout(LinkVars(row));
    assert MenuLayout(link) == layout;
    assert link["view" := Str("category")]["layout" := layout] == link;
    assert RegistryOf(Get(r, "params")) == params;
    assert params["view_categories_layout" := layout]["view_products_layout" := Str("_:default")] == params;
  }
}
