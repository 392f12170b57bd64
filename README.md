# RadicalMart-Updater: the 2.0.0 to 3.0.0 migration, modelled in Dafny

RadicalMart-Updater is a Joomla console command that migrates a RadicalMart
shop database from version 2.0.0 to 3.0.0. The command runs a fixed list of
steps, in order:

1. the alpha indexes of the category items;
2. the component parameter renames;
3. the signed user columns;
4. the products structure;
5. the metas structure;
6. the categories structure;
7. the fields structure;
8. the menu items;
9. a resave of every product and meta through the component's admin model.

This project models that migration engine over an abstract database and
proves what each step achieves.

The modules:

- `Store` is the database. Each table has a column map, an index map and
  rows keyed by integer id. The ordering table `#__radicalmart_categories_items`
  is held as a list of entries. The component parameters are a key-value map.
  - Every write is a `Statement` with its effect on that state. A column
    definition carries the value MySQL gives existing rows when the column
    is added: its `DEFAULT`, or NULL for a nullable column without one.
  - The class `Store.Database` is the connection. It executes statements,
    logs them, and counts disconnects and cache resets.
  - `Store.NextPage` is the keyset page query,
    `WHERE id > :last ORDER BY id ASC LIMIT :limit`.
- `SchemaEditor` is the idempotent schema editor of `UpdaterDatabaseTrait`.
  It adds the missing columns and indexes, drops those present, drops the
  tables whose key probe succeeds, and detects the legacy ("rudimental")
  columns.
- `ParamsMove` is the ordered key move of `UpdaterParamsTrait`.
- `Text` holds the PHP string helpers the migration uses: the `(int)`
  cast, integer-to-string conversion, `explode`, `implode` and
  `str_contains`.
- `RowTransforms` holds the per-row transforms as functions of the row read:
  - the split of the legacy category list;
  - the product and meta patches;
  - the root ordering entry;
  - the variability fields resolved by alias;
  - the consolidated totals;
  - the menu link rewrite.
- `Backfill` holds the keyset-paginated scan loops of the products, metas,
  categories and menu steps. Each loop is an imperative method proved
  against `Backfill.Scan`, the specification of a whole scan: each row's
  statements in turn.
- `Resave` is `resaveItems`. Its loop is proved against `Resave.ResaveAll`,
  with the admin model's `getItem` and `save` passed in as functions.
- `Migration300` holds the steps of `RadicalMart300`. Each step is a method
  on the connection and a function, its *run*: the outcome, the statements
  issued, the disconnects and the cache resets, all computed from the
  starting state. Each method is proved to perform exactly its run.
- `MigrationProperties` proves what the runs achieve, and where it holds,
  that running a step a second time issues nothing.

## Model

| member | source | states |
|---|---|---|
| `Store.StripColumn` | src/Traits/UpdaterDatabaseTrait.php:88-89 | dropping a column removes exactly its parts from an index and keeps the other parts |
| `Store.Database.Execute` | src/Traits/UpdaterDatabaseTrait.php:45-48 | executing a statement applies its effect to the state and appends it to the log; the counters are unchanged |
| `Store.Database.Disconnect` | src/Console/RadicalMart300.php:172 | `$db->disconnect()` leaves state and log alone and counts one disconnect |
| `Store.Database.ResetCaches` | src/Traits/UpdaterResaveTrait.php:105-109 | the helper cache resets leave state and log alone and count one reset |
| `Store.AscendingFacts` | src/Console/RadicalMart300.php:233 | the `ORDER BY id ASC` order lists every id exactly once, strictly ascending |
| `Store.NextPage` | src/Console/RadicalMart300.php:228-234 | a page holds the `limit` smallest ids above the cursor, ascending; none above the cursor and at most the page's last is skipped; a short page means no id above the cursor is left |
| `Store.WindowOf` | src/Console/RadicalMart300.php:224-244 | with the cursor on the k-th id of the ascending order, the next page is the next window of that order |
| `Store.NextPrimaryKeys` | src/Traits/UpdaterResaveTrait.php:62 | `getNextPrimaryKeys` returns the next window of the ascending key order after the cursor |
| `Text.LeadingSpaces` | src/Console/RadicalMart300.php:259 | the white space the cast skips: every character before the count is white space and the next one is not |
| `Text.StrToInt` | src/Console/RadicalMart300.php:259 | the cast that `ArrayHelper::toInteger` applies: a string of digits reads as its decimal value; a string that starts with anything but white space, a digit or a sign reads as 0 |
| `Text.StrToIntReads` | src/Console/RadicalMart300.php:259 | what the cast reads of any string: after the leading white space, a `-` gives the following digits negated, a `+` gives them as they are, and otherwise the leading digits are read |
| `Text.Split` | src/Console/RadicalMart300.php:259 | `explode` gives at least one piece, and no piece holds the separator |
| `Text.JoinSplit` | src/Console/RadicalMart300.php:259-270 | `implode` puts the pieces of `explode` back together into the original string |
| `Text.Join` | src/Console/RadicalMart300.php:270 | `implode` starts with the first piece, followed by the separator when there are more pieces |
| `Text.Contains` | src/Console/RadicalMart300.php:148 | `str_contains` holds exactly when the needle occurs at some position of the string |
| `Text.StrToIntOfIntToStr` | src/Console/RadicalMart300.php:259-270 | the `(int)` cast reads back any integer that `implode` wrote |
| `Text.SplitJoin` | src/Console/RadicalMart300.php:259-270 | `explode` undoes `implode` when no piece holds the separator |
| `Store.Empty` | src/Console/RadicalMart300.php:250-256 | PHP's `empty()`: a string is empty exactly when it is "" or "0", a list exactly when it has no item, and an object never |
| `SchemaEditor.CreateColumns` | src/Traits/UpdaterDatabaseTrait.php:32-66 | a missing table fails before anything is issued; otherwise exactly the ADD COLUMN and ADD INDEX statements of the plan are issued, in argument order |
| `SchemaEditor.AddColumnsPlanIssues` | src/Traits/UpdaterDatabaseTrait.php:37-52 | an ADD COLUMN is issued for a requested entry exactly when its name is missing from the column list read before the loop |
| `SchemaEditor.AddIndexesPlanIssues` | src/Traits/UpdaterDatabaseTrait.php:53-63 | an ADD INDEX is issued for a requested entry exactly when its name is missing from the `Key_name` list read before the loop |
| `SchemaEditor.NewEntriesFacts` | src/Traits/UpdaterDatabaseTrait.php:41-63 | the entries added are exactly the requested names not yet present, each with its requested definition |
| `Store.SetWhereIn` | src/Console/RadicalMart300.php:500-505 | `UPDATE … SET column = value WHERE id IN (ids)` sets that column in exactly the listed rows that exist, and keeps every row |
| `SchemaEditor.AddColumnStep` | src/Traits/UpdaterDatabaseTrait.php:48-50 | one more ADD COLUMN adds its definition to the column map and gives every existing row the column's initial value |
| `SchemaEditor.AddColumnsApply` | src/Traits/UpdaterDatabaseTrait.php:41-52 | the ADD COLUMN statements extend the column map by the new entries, give every existing row the new columns' initial values (`DEFAULT`, or NULL) and change nothing else |
| `SchemaEditor.AddIndexesApply` | src/Traits/UpdaterDatabaseTrait.php:53-63 | the ADD INDEX statements extend the index map by the new entries and change nothing else |
| `SchemaEditor.AddColumnsPlanNone` | src/Traits/UpdaterDatabaseTrait.php:43 | when every requested column exists, no ADD COLUMN is issued |
| `SchemaEditor.AddIndexesPlanNone` | src/Traits/UpdaterDatabaseTrait.php:55 | when every requested index exists, no ADD INDEX is issued |
| `SchemaEditor.CreatePlanApply` | src/Traits/UpdaterDatabaseTrait.php:41-63 | the whole plan adds the new columns and indexes, and the rows take the new columns' initial values |
| `SchemaEditor.InitialsRows` | src/Traits/UpdaterDatabaseTrait.php:41-52 | after the added columns every row is still there, holds each newly added column at its initial value, and keeps every other field; with no column added the rows are unchanged |
| `SchemaEditor.CreateColumnsOutcome` | src/Traits/UpdaterDatabaseTrait.php:32-66 | afterwards every requested column and index exists; existing ones keep their definition even where it differs; no row appears or disappears; each row holds every newly added column at its initial value (`DEFAULT`, or NULL) and keeps every other field; with every column already there the rows are unchanged; no other column or index changes; a second call issues nothing |
| `SchemaEditor.DropColumns` | src/Traits/UpdaterDatabaseTrait.php:77-107 | a missing table fails before anything is issued; otherwise the column drops are checked against the first column list and the index drops against the index list read again after them |
| `SchemaEditor.DropColumnStep` | src/Traits/UpdaterDatabaseTrait.php:88-89 | one more DROP COLUMN removes that column from the column list, from every index (dropping an emptied index) and from every row |
| `SchemaEditor.DropColumnsApply` | src/Traits/UpdaterDatabaseTrait.php:84-93 | the column drops amount to removing exactly the listed columns that exist |
| `SchemaEditor.DropIndexesApply` | src/Traits/UpdaterDatabaseTrait.php:95-104 | the index drops remove the listed indexes that exist and nothing else |
| `SchemaEditor.DropColumnsPlanNone` | src/Traits/UpdaterDatabaseTrait.php:86 | when no listed column exists, no DROP COLUMN is issued |
| `SchemaEditor.DropIndexesPlanNone` | src/Traits/UpdaterDatabaseTrait.php:98 | when no listed index exists, no DROP INDEX is issued |
| `SchemaEditor.DropColumnsOutcome` | src/Traits/UpdaterDatabaseTrait.php:77-107 | afterwards no listed column or index exists; the table is the old one without them; a second call issues nothing |
| `SchemaEditor.DropTablesEffect` | src/Traits/UpdaterDatabaseTrait.php:126-142 | exactly the listed tables that exist and return a non-empty key list are dropped; a failed probe counts as absent; nothing else changes |
| `SchemaEditor.DropTablesPlanNone` | src/Traits/UpdaterDatabaseTrait.php:137-140 | when every listed table is gone or keyless, nothing is dropped |
| `SchemaEditor.DropTablesIdempotent` | src/Traits/UpdaterDatabaseTrait.php:121-145 | a second call drops nothing |
| `SchemaEditor.DropTables` | src/Traits/UpdaterDatabaseTrait.php:121-145 | never fails, and issues exactly the plan's DROP TABLE statements |
| `SchemaEditor.Present` | src/Traits/UpdaterDatabaseTrait.php:163-169 | the legacy names kept are exactly those that are columns of the table, in argument order |
| `SchemaEditor.RudimentalSelect` | src/Traits/UpdaterDatabaseTrait.php:158-177 | the result is `false` exactly when no legacy column exists; otherwise it is `base` followed by the legacy columns present |
| `ParamsMove.Exists` | src/Traits/UpdaterParamsTrait.php:46 | `Registry::exists` never finds an empty path, "" or PHP's key 0; a key it finds holds a value other than null |
| `ParamsMove.Read` | src/Traits/UpdaterParamsTrait.php:53 | `Registry::get` never returns the empty string: a stored value other than "" is returned, and a missing key reads as the default null |
| `ParamsMove.MoveOne` | src/Traits/UpdaterParamsTrait.php:53-54 | after a move the destination holds the source's old value, or null when that value was the empty string; the source is gone; every other key is unchanged |
| `ParamsMove.NothingFires` | src/Traits/UpdaterParamsTrait.php:44-63 | when no entry fires, nothing moves and nothing is saved |
| `ParamsMove.MoveAllDisjoint` | src/Traits/UpdaterParamsTrait.php:44-57 | for a mapping that uses each name once, an entry moves its value (as `get` reads it) exactly when its source exists and its destination does not; no other key changes; the parameters are saved exactly when some entry fired |
| `ParamsMove.MoveAllIdempotent` | src/Traits/UpdaterParamsTrait.php:43-63 | for such a mapping a second run moves nothing and does not save |
| `ParamsMove.MoveAllAppend` | src/Traits/UpdaterParamsTrait.php:44-57 | the entries apply in order to the same map: the moves of `m1 + m2` are those of `m1` followed by those of `m2` on the result, and something is saved when either part fired |
| `ParamsMove.MoveParams` | src/Traits/UpdaterParamsTrait.php:28-72 | the loop computes the ordered move; when something moved, the parameters are saved, the cache is reset and the connection closed; otherwise nothing is issued; a missing extension record fails |
| `RowTransforms.CategoryTokens` | src/Console/RadicalMart300.php:259 | each comma-separated piece of the legacy list is cast to an integer, in order |
| `RowTransforms.KeepAdditional` | src/Console/RadicalMart300.php:261-268 | the kept categories are exactly the listed ones other than 0 and the row's primary category |
| `RowTransforms.KeepAdditionalAppend` | src/Console/RadicalMart300.php:261-268 | the filter works element by element, so the original order is kept |
| `RowTransforms.KeepAdditionalKept` | src/Console/RadicalMart300.php:261-268 | a list with no 0 and no primary category passes unchanged |
| `RowTransforms.CategoriesAdditional` | src/Console/RadicalMart300.php:256-270 | the written list is the empty string exactly when no category is kept |
| `RowTransforms.CategoriesAdditionalReadBack` | src/Console/RadicalMart300.php:259-270 | splitting the written `categories_additional` at commas and casting gives back the kept categories, in order |
| `RowTransforms.CategoriesAdditionalIdempotent` | src/Console/RadicalMart300.php:418-429 | converting an already converted list again changes nothing |
| `RowTransforms.RegistryOf` | src/Console/RadicalMart300.php:407-408 | a decoded object loads as its fields; anything else loads as an empty registry |
| `RowTransforms.TokensCons` | src/Console/RadicalMart300.php:259 | the first comma-separated piece of a list casts on its own, ahead of the tokens of the rest |
| `RowTransforms.CategoryTokensSpaced` | src/Console/RadicalMart300.php:259 | for any `a` and `b`, the legacy list `a, b,x`, with a space after a comma and a piece that is not a number, casts to `a`, `b` and 0 |
| `RowTransforms.ProductPatch` | src/Console/RadicalMart300.php:246-276 | a product is written exactly when a selected `pathway` or `categories` is non-empty; the patch holds only `category_pathway` (the verbatim `pathway`) and `categories_additional` (the converted list), each exactly when its source applies |
| `RowTransforms.OrderingItemId` | src/Console/RadicalMart300.php:476 | a product's ordering entries use its id; a meta's use the negated id |
| `RowTransforms.BackfillEntry` | src/Console/RadicalMart300.php:280-298 | an entry is inserted exactly when no root entry (category 1, same type and item id) exists; it has category 1, state 0 and the legacy ordering |
| `RowTransforms.BackfillFacts` | src/Console/RadicalMart300.php:278-299 | after the backfill the item has a root entry, earlier entries are kept, no item gets a second root entry, and a second backfill adds nothing |
| `RowTransforms.BackfillKeepsRoots` | src/Console/RadicalMart300.php:288-298 | backfilling one item keeps every root entry already there |
| `RowTransforms.Aliases` | src/Console/RadicalMart300.php:439-448 | the aliases are exactly the set `alias` values of the object elements of `variability_fields` |
| `RowTransforms.FieldIds` | src/Console/RadicalMart300.php:452-456 | the ids are exactly those field rows whose alias is among the aliases |
| `RowTransforms.IdList` | src/Console/RadicalMart300.php:456 | `loadColumn` lists exactly the ids, as strings |
| `RowTransforms.VariabilityPatch` | src/Console/RadicalMart300.php:438-466 | the params are rewritten exactly when `variability_fields` is an object with at least one alias and at least one alias resolves; the rewrite replaces that setting with the resolved ids |
| `RowTransforms.MetaPatch` | src/Console/RadicalMart300.php:411-472 | a meta is written when a selected `categories` is non-empty, `created` is empty, or the variability rewrite applies; the patch holds only `categories_additional` and `params`, each exactly when its source applies |
| `RowTransforms.CreatedNeverWritten` | src/Console/RadicalMart300.php:432-436 | an empty `created` marks the meta for writing, yet no `created` column is written |
| `RowTransforms.ProductIds` | src/Console/RadicalMart300.php:498 | the products linked are exactly the `id`s, cast to integers, of the object entries of `products` |
| `RowTransforms.TotalsPatch` | src/Console/RadicalMart300.php:622-638 | a category is written exactly when a legacy total is selected; `totals` keeps its old keys and takes `products` and `metas` from the selected legacy columns |
| `RowTransforms.MenuMatches` | src/Console/RadicalMart300.php:754-758 | a selected item is a component link with both an `option` and a `view` variable |
| `RowTransforms.MenuLayout` | src/Console/RadicalMart300.php:796 | the layout is the link's own, or `categories` when it has none |
| `RowTransforms.MenuPatch` | src/Console/RadicalMart300.php:794-803 | the link keeps its variables, with `view` set to `category` and `layout` set; the params take that layout for `view_categories_layout` and `_:default` for `view_products_layout` |
| `RowTransforms.MenuPatchSettles` | src/Console/RadicalMart300.php:775-805 | a rewritten item is no longer selected by the scan, and rewriting it again changes nothing |
| `Backfill.ProductUpdate` | src/Console/RadicalMart300.php:246-271 | the collected update object and the write flag are the product patch |
| `Backfill.MetaUpdate` | src/Console/RadicalMart300.php:411-466 | the collected update object and the write flag are the meta patch |
| `Backfill.CategoryUpdate` | src/Console/RadicalMart300.php:617-638 | the collected update object and the write flag are the totals patch |
| `Backfill.MenuUpdate` | src/Console/RadicalMart300.php:794-803 | the rewritten link and params are the menu patch |
| `Backfill.WriteRow` | src/Console/RadicalMart300.php:273-276 | the row's UPDATE is issued exactly when it was marked for writing and has a column to write, as `updateObject` sends nothing otherwise |
| `Backfill.CreatedOnlyNotUpdated` | src/Console/RadicalMart300.php:432-470 | a meta marked for writing only by its empty `created` has an empty patch and issues no UPDATE |
| `Backfill.BackfillOrdering` | src/Console/RadicalMart300.php:278-299 | the probe and the INSERT of the root ordering entry, when none exists |
| `Backfill.ProductRow` | src/Console/RadicalMart300.php:240-299 | one product row issues its update and then its ordering entry |
| `Backfill.MetaRow` | src/Console/RadicalMart300.php:403-506 | one meta row issues its update, its ordering entry under the negated id, and then the link of its products |
| `Backfill.CategoryRow` | src/Console/RadicalMart300.php:615-643 | one category row issues its totals update |
| `Backfill.MenuRow` | src/Console/RadicalMart300.php:790-805 | one menu item issues its link and params update |
| `Backfill.UpdateRowStep` | src/Console/RadicalMart300.php:273-276 | the UPDATE changes that one row, and only by the patch columns |
| `Backfill.WhereInStep` | src/Console/RadicalMart300.php:500-505 | an `UPDATE … WHERE id IN` changes only its table, and there only the listed rows, by the one column |
| `Backfill.LinkStep` | src/Console/RadicalMart300.php:498-506 | every listed product that exists gets `meta_variability` set to the meta's id; only the products table changes |
| `Backfill.LastLink` | src/Console/RadicalMart300.php:498-506 | the last meta of a scan order that lists a product, or none exactly when no meta lists it |
| `Backfill.LastLinkFrame` | src/Console/RadicalMart300.php:498-506 | the last linking meta depends only on the `products` of the metas in the order |
| `Backfill.MetaLinkStep` | src/Console/RadicalMart300.php:474-506 | one meta row's statements set `meta_variability` to the meta's id on exactly the existing products it lists, and keep every other product |
| `Backfill.MetaPlanStep` | src/Console/RadicalMart300.php:403-506 | one meta row of the scan keeps every other meta, keeps the set of products and links exactly the products it lists |
| `Backfill.ScanLinks` | src/Console/RadicalMart300.php:389-516 | over an ascending scan of metas each product ends with `meta_variability` from the last scanned meta that lists it, and is unchanged when none does |
| `Backfill.OrderingStep` | src/Console/RadicalMart300.php:280-298 | the ordering INSERT changes only the ordering table |
| `Backfill.StatementsStep` | src/Console/RadicalMart300.php:240-301 | a row's statements give that row its patch and change no other row of the table and no untouched table |
| `Backfill.PatchOfFrame` | src/Console/RadicalMart300.php:403-410 | a row's patch depends only on that row and on the fields table |
| `Backfill.ScanEffect` | src/Console/RadicalMart300.php:226-311 | every scanned row gets its patch, computed from the row as read before the scan; no other row and no untouched table changes; the database keeps its shape |
| `Backfill.ScanOrderings` | src/Console/RadicalMart300.php:278-299 | every scanned row ends with a root entry, none is lost, and no item gets a second one |
| `Backfill.PlanStable` | src/Console/RadicalMart300.php:231 | once a row is done, no id above it enters or leaves the set the page query reads |
| `Backfill.CursorStep` | src/Console/RadicalMart300.php:244 | moving the cursor to the processed id keeps the ids above the cursor those of the first read |
| `Backfill.PageAt` | src/Console/RadicalMart300.php:228-234 | a page read on the current state is the next window of the first read's ascending order |
| `Backfill.PagesOf` | src/Console/RadicalMart300.php:305-310 | a scan of 100·p + r rows processes p full pages plus one when r > 0 |
| `Backfill.ProcessRow` | src/Console/RadicalMart300.php:240-301 | one row of a scan issues exactly that row's plan |
| `Backfill.FetchPage` | src/Console/RadicalMart300.php:228-234 | the page read after k rows is the window of the ascending order that follows them |
| `Backfill.PageProgress` | src/Console/RadicalMart300.php:228-237 | the page the scan fetches at progress k is the next window of the scan order |
| `Backfill.ScanPageRows` | src/Console/RadicalMart300.php:240-302 | the rows of a page are processed in order and the scan advances by the page |
| `Backfill.ScanRow` | src/Console/RadicalMart300.php:240-244 | one row is processed and the cursor moves to its id |
| `Backfill.RowProgress` | src/Console/RadicalMart300.php:240-301 | one row's statements advance the scan by one row |
| `Backfill.ScanRows` | src/Console/RadicalMart300.php:224-311 | every id the first read finds above 0 is visited once, in ascending order, and the statements issued are the whole scan; the caches are reset once per non-empty page (100 rows), or for the menu the connection closed once per item |
| `Resave.CombinedMessage` | src/Traits/UpdaterResaveTrait.php:86-93 | the intended message of a failed save is the single error's text, and in general starts with the first error's text |
| `Resave.AsWrittenFailureMessage` | src/Traits/UpdaterResaveTrait.php:88 | as written, the failure message does not depend on the errors the model reported |
| `Resave.ErrorTexts` | src/Traits/UpdaterResaveTrait.php:88-91 | each error contributes its exception message or its text, in order |
| `Resave.CombinedMessageLines` | src/Traits/UpdaterResaveTrait.php:87-93 | the exception message lists the model's errors one per line, so they can be read back |
| `Resave.AsWrittenLosesErrors` | src/Traits/UpdaterResaveTrait.php:88 | as written, the failure message is not the model's errors |
| `Resave.Skipped` | src/Traits/UpdaterResaveTrait.php:78 | an item with an object id is never skipped; one with a string id is skipped exactly when the id is "" or "0" |
| `Resave.StepOf` | src/Traits/UpdaterResaveTrait.php:77-94 | a key is skipped exactly when its item is skipped, saved exactly when it is not skipped and the save succeeds, and otherwise aborts with the combined message of the save's errors |
| `Resave.Steps` | src/Traits/UpdaterResaveTrait.php:77-94 | for each key, the step skips an item that does not load or has no id, saves the others, and aborts on a failed save |
| `Resave.RangeEnd` | src/Traits/UpdaterResaveTrait.php:85-94 | a pass visits every key; a failure stops on a key whose save failed, with that save's message |
| `Resave.RangePrefix` | src/Traits/UpdaterResaveTrait.php:68-101 | no key before the end of the run aborted it |
| `Resave.RangeSaved` | src/Traits/UpdaterResaveTrait.php:77-101 | the keys saved are exactly the visited keys whose step is a save, in order |
| `Resave.RangeOrder` | src/Traits/UpdaterResaveTrait.php:62-70 | over an ascending order the saved keys ascend too |
| `Resave.ResaveAllFacts` | src/Traits/UpdaterResaveTrait.php:68-101 | keys are visited in order; skipped items are not saved; every other visited key is saved once, in order; a pass visits every key; a failure stops at the first failed save and reports its errors |
| `Resave.ResaveRangeSplit` | src/Traits/UpdaterResaveTrait.php:60-115 | a run over two consecutive pages is the first page's run, continued over the second when the first passed |
| `Resave.PageCount` | src/Traits/UpdaterResaveTrait.php:111-114 | a scan of 100·p + r keys has p full pages plus one when r > 0 |
| `Resave.SavePage` | src/Traits/UpdaterResaveTrait.php:68-101 | the inner loop over one page performs the run of that page |
| `Resave.SaveWindow` | src/Traits/UpdaterResaveTrait.php:68-101 | a page that is a window of the scan order runs as that window of the scan |
| `Resave.ScanPage` | src/Traits/UpdaterResaveTrait.php:62-101 | one round of the outer loop fetches the next window of keys and runs it; a failure ends the whole run, a pass continues it |
| `Resave.ScanItems` | src/Traits/UpdaterResaveTrait.php:58-115 | the loop performs the run over the whole scan order; the connection is closed and the caches reset after each complete page |
| `Resave.ResaveItems` | src/Traits/UpdaterResaveTrait.php:43-119 | a missing table fails before any item is loaded; otherwise the saved keys and the outcome are those of the run over the ascending positive keys of the table, with one disconnect and one cache reset per page completed; nothing is written to the database |
| `Migration300.PresentEmpty` | src/Traits/UpdaterDatabaseTrait.php:171-174 | the detector finds nothing exactly when no legacy column is present |
| `Migration300.RunScan` | src/Console/RadicalMart300.php:224-311 | a scan step performs the scan's run |
| `Migration300.UpdateAlphaStructures` | src/Console/RadicalMart300.php:87-100 | the alpha step performs its run: the two ordering indexes added when missing |
| `Migration300.UpdateComponentParams` | src/Console/RadicalMart300.php:109-122 | the parameter rename step is the ordered move over the seven entries of the source, saved only when something moved |
| `Migration300.UsersTableColumns` | src/Console/RadicalMart300.php:143-168 | one table of the users step issues the MODIFY of each unsigned user column, then renames `idx_createdby` when present |
| `Migration300.UsersColumns` | src/Console/RadicalMart300.php:140-170 | the loop over the tables performs their runs in turn; a missing table stops the step |
| `Migration300.UsersTablesStop` | src/Console/RadicalMart300.php:140-143 | once a table is missing, the tables after it are not looked at |
| `Migration300.UpdateUsersColumns` | src/Console/RadicalMart300.php:129-173 | the users step performs its run: the tables in turn, then one disconnect |
| `Migration300.UpdateStructure` | src/Console/RadicalMart300.php:183-331 | the products or metas step performs its run: the new columns, then, unless the detector finds nothing, the backfill scan, the legacy drops and the mapping table drop |
| `Migration300.BackfillRows` | src/Console/RadicalMart300.php:219-330 | the part after the detector performs the scan and the drops |
| `Migration300.UpdateProductsStructure` | src/Console/RadicalMart300.php:183-331 | the products step with its columns, indexes, legacy columns and mapping table |
| `Migration300.UpdateMetasStructure` | src/Console/RadicalMart300.php:340-535 | the metas step with its columns, indexes, legacy columns and mapping table |
| `Migration300.UpdateCategoriesStructure` | src/Console/RadicalMart300.php:544-675 | the categories step performs its run: `fields` made text, then `totals` added, then the totals backfill and the legacy drops when the table has rows and a legacy total |
| `Migration300.AddTotals` | src/Console/RadicalMart300.php:577-594 | the `totals` column, then the backfill when the table has rows and a legacy total column |
| `Migration300.UpdateTotals` | src/Console/RadicalMart300.php:594-669 | the totals scan and then the legacy columns and indexes dropped |
| `Migration300.UpdateFieldsStructure` | src/Console/RadicalMart300.php:684-725 | the fields step performs its run: nothing when `fieldset` is gone, otherwise the new columns, the copy, the drop and one disconnect |
| `Migration300.UpdateMenuItems` | src/Console/RadicalMart300.php:746-817 | the menu step performs the menu scan |
| `MigrationProperties.ScanOrderOfFacts` | src/Console/RadicalMart300.php:226-237 | the scan order holds each id the query reads above 0 once, ascending, and those are rows of the table |
| `MigrationProperties.ScanStepRows` | src/Console/RadicalMart300.php:226-311 | after a whole scan each row read gets its patch from the row as read; every other row and every untouched table is as before; no table, column, index or row appears or disappears |
| `MigrationProperties.ScanStepRow` | src/Console/RadicalMart300.php:240-301 | one row has its patch after the scan when the scan reads it, and is as before otherwise |
| `MigrationProperties.ScanStepLinks` | src/Console/RadicalMart300.php:389-516 | after the whole metas scan the products table has the same rows, and each product is its old row with `meta_variability` from the last meta in the scan order whose `products` list it; a product no meta lists is unchanged |
| `MigrationProperties.ScanStepOrderings` | src/Console/RadicalMart300.php:278-299 | no entry is added unless the job backfills; no item gets a second root entry; none is lost; every row a backfilling job visits has one |
| `MigrationProperties.MenuSettles` | src/Console/RadicalMart300.php:746-817 | after the menu step no legacy categories link is left, and a second run visits nothing and issues nothing |
| `MigrationProperties.MenuRowSettled` | src/Console/RadicalMart300.php:794-805 | every menu item after the scan is no legacy categories link |
| `MigrationProperties.MenuQuiet` | src/Console/RadicalMart300.php:784-789 | with no legacy link left the menu scan reads an empty first page and issues nothing |
| `MigrationProperties.ComponentMappingDisjoint` | src/Console/RadicalMart300.php:113-121 | the seven renames use every name once, as source or destination |
| `MigrationProperties.EntryNamesUnique` | src/Console/RadicalMart300.php:113-121 | no later entry has the source or the destination of entry i |
| `MigrationProperties.SourceNotDestination` | src/Console/RadicalMart300.php:113-121 | the source of entry i is no entry's destination |
| `MigrationProperties.ComponentParamsIdempotent` | src/Console/RadicalMart300.php:109-122 | a second run of the parameter renames moves nothing and saves nothing |
| `MigrationProperties.TimeoutNotMoved` | src/Console/RadicalMart300.php:115 | the entry without a key has PHP's key 0, which `Registry::exists` never finds, so neither its key nor its destination changes; `user_login_timeout` is never moved and `login_code_timeout` never written |
| `MigrationProperties.AlphaIdempotent` | src/Console/RadicalMart300.php:92-99 | after the alpha step both ordering indexes exist, and a second run issues nothing |
| `MigrationProperties.ResignEffect` | src/Console/RadicalMart300.php:146-156 | the MODIFY of one user column makes it signed and changes nothing else |
| `MigrationProperties.RenameEffect` | src/Console/RadicalMart300.php:159-167 | the rename removes `idx_createdby`, adds `idx_created_by` on `created_by` unless an index of that name exists, and keeps the columns and the other indexes |
| `MigrationProperties.ResignBoth` | src/Console/RadicalMart300.php:146-156 | the two MODIFYs of a table make both user columns signed and keep the indexes |
| `MigrationProperties.UsersTableSettles` | src/Console/RadicalMart300.php:143-168 | one table of the users step has nothing left to do afterwards, and no other table changes |
| `MigrationProperties.UsersTableParts` | src/Console/RadicalMart300.php:143-168 | one table's statements are the MODIFYs, then the rename when the old index is there |
| `MigrationProperties.FixSigned` | src/Console/RadicalMart300.php:146-156 | the MODIFYs of one table sign both of its user columns and touch no other table |
| `MigrationProperties.RenameSettles` | src/Console/RadicalMart300.php:160-167 | after the rename `idx_created_by` exists, `idx_createdby` is gone, the columns are as before and no other table changes |
| `MigrationProperties.UsersTableQuiet` | src/Console/RadicalMart300.php:146-167 | the users step issues nothing on a settled table |
| `MigrationProperties.UsersTablesEffect` | src/Console/RadicalMart300.php:140-170 | the tables of the users step are settled once it passes; the other tables are untouched |
| `MigrationProperties.UsersTablesQuiet` | src/Console/RadicalMart300.php:140-170 | with every table settled, the users loop issues nothing |
| `MigrationProperties.UsersIdempotent` | src/Console/RadicalMart300.php:129-173 | after the users step no user column of the three tables is unsigned and `idx_createdby` is gone; a second run modifies nothing and only closes the connection |
| `MigrationProperties.ProductsStructureValid` | src/Console/RadicalMart300.php:188-330 | the products constants meet what the step needs: distinct names, no new column or index dropped again, every legacy column dropped, the mapping table another table |
| `MigrationProperties.MetasStructureValid` | src/Console/RadicalMart300.php:344-534 | the same for the metas constants |
| `MigrationProperties.CreatedTable` | src/Console/RadicalMart300.php:188-200 | after the new columns and indexes the table has them all, no empty index, and every requested index keeps a column once the legacy columns are dropped; the rows only take the new columns' initial values |
| `MigrationProperties.DroppedTable` | src/Console/RadicalMart300.php:315-327 | dropping the legacy columns and indexes from the created table leaves a table the step finds migrated |
| `MigrationProperties.BackfilledTable` | src/Console/RadicalMart300.php:219-330 | after the scan and the drops, the step's table is the scanned one without the legacy parts, and the mapping table is dropped |
| `MigrationProperties.StructureNoLegacy` | src/Console/RadicalMart300.php:211-217 | when the detector finds no legacy column, the step only adds columns and indexes to its table, whose rows take the new columns' initial values; it passes, and writes, drops and resets nothing |
| `MigrationProperties.StructureIdempotent` | src/Console/RadicalMart300.php:183-331 | running the products or metas step a second time issues nothing |
| `MigrationProperties.StructureQuiet` | src/Console/RadicalMart300.php:211-217 | on a migrated table the step issues nothing |
| `MigrationProperties.StructureOrderings` | src/Console/RadicalMart300.php:474-496 | while the legacy `ordering` column is there, every row with a positive id ends with one root ordering entry (a meta under its negated id); no entry is lost |
| `MigrationProperties.CategoriesQuiet` | src/Console/RadicalMart300.php:557-594 | on a settled categories table the step issues nothing and closes no connection |
| `MigrationProperties.FieldsTextEffect` | src/Console/RadicalMart300.php:557-575 | making `fields` text changes nothing else of the table |
| `MigrationProperties.CategoriesColumnsSettle` | src/Console/RadicalMart300.php:577-669 | the totals part settles a table whose `fields` is text |
| `MigrationProperties.TotalsSettle` | src/Console/RadicalMart300.php:599-668 | the totals scan and the drop leave no legacy total column and keep `fields` and `totals` |
| `MigrationProperties.CategoriesIdempotent` | src/Console/RadicalMart300.php:544-675 | afterwards `fields` is text, `totals` exists and, on a table with rows, no legacy total is left; a second run issues nothing |
| `MigrationProperties.FieldsetRow` | src/Console/RadicalMart300.php:715-722 | a field row after the copy and the drop holds the old `fieldset` in both new columns and agrees elsewhere |
| `MigrationProperties.FieldsCreated` | src/Console/RadicalMart300.php:702-711 | the created fields table has both new columns and no empty index; it has the same row ids, and every field other than the two new columns keeps its value |
| `MigrationProperties.FieldsCopied` | src/Console/RadicalMart300.php:684-725 | every field row gets `fieldset` in `fieldset_site` and `fieldset_administrator`; `fieldset` and its index are gone; other columns keep their values; a second run issues nothing |
| `MigrationProperties.FieldsDropped` | src/Console/RadicalMart300.php:713-722 | the copy and the drop on the created table give each row the copied values without `fieldset` |
| `MigrationProperties.FieldsRowAfter` | src/Console/RadicalMart300.php:715-722 | one field row through the copy and the drop |
| `MigrationProperties.FieldsetDrop` | src/Console/RadicalMart300.php:722 | dropping `fieldset` and its index removes that column from the table and from every row |

## Left out

- SQL text and the driver are not modelled: query building, quoting, `setQuery` and `loadObjectList`. Each write is a `Statement` with its abstract effect. A failed statement is modelled only where the source relies on it: a metadata probe of a missing table, and the MODIFY of a missing categories `fields` column.
- Console output is not modelled: titles, notes, text and progress bars only report progress.
- `Joomla\Registry` and `Uri` are reduced to flat string-keyed maps. Nested keys, dot paths, and JSON and URL serialisation are not modelled. A JSON column is held already decoded. `Registry::exists` and `Registry::get` are modelled for keys without the path separator, which is all the parameter mapping uses: an empty path is never found (`ParamsMove.Exists`), and `get` reads the empty string as its default null (`ParamsMove.Read`).
- `RowTransforms.RegistryOf`: a value that is not an object, such as a top-level JSON list, loads as an empty registry. `Registry` would key a list's items by position; the migration's columns hold objects.
- `Date`/`time()` are not modelled. The timestamp at src/Console/RadicalMart300.php:435 is never written anyway.
- `Text.StrToInt`: this is a total stand-in for PHP's `(int)` cast as `ArrayHelper::toInteger` applies it. It skips leading white space, reads an optional sign and the leading digits, and gives 0 otherwise. Float notation is not modelled: PHP reads `"1e3"` as 1000, and the model reads it as 1. PHP's integer width and overflow are not modelled either.
- `CommandsHelper::getTotalItems`: its body is not part of this model. The count changes control flow in one place. At src/Console/RadicalMart300.php:585-594 a categories count of 0 skips the legacy select, and with it the totals backfill and the drop of `total_products` and `total_metas`. The model reads that count as the number of category rows (`Migration300.AddTotals`). Elsewhere the count only sizes the progress bars, and its `=== 0` notes do not change control flow. The count query of `resaveItems` does change control flow: it fails on a missing table, and `Resave.ResaveItems` models that failure.
- `RowTransforms.IdList`: the `loadColumn` query at src/Console/RadicalMart300.php:452-456 has no ORDER BY. The model assumes the ids come back in ascending order, so the order of the rewritten `variability_fields` is an assumption.
- `RowTransforms.FieldIds`: aliases are compared exactly. MySQL's usual default collations compare them case-insensitively, so a field whose alias differs only in case matches in MySQL but not in the model.
- `cleanRadicalMartRAM`: its body is not part of this model. The model assumes it only clears in-memory caches and counts each call as one cache reset (`Store.Database.ResetCaches`), with the database state and the log unchanged.
- `CommandsHelper::getNextPrimaryKeys` is `Store.NextPrimaryKeys`: the ascending keys above the cursor, at most `limit`.
- The menu scan query at src/Console/RadicalMart300.php:775-782 has no ORDER BY. The model assumes the database returns ascending ids.
- `RowTransforms.MenuMatches`: the menu query's `LIKE '%option=com_radicalmart%'` and `LIKE '%view=categories%'` are modelled as a test that the link's `option` variable is exactly `com_radicalmart` and its `view` exactly `categories`. The `LIKE` patterns are substring matches under a case-insensitive collation, so MySQL also selects links such as `option=com_radicalmart_xyz`, links where the text stands anywhere (another variable's value, say) and links that differ only in case; the model does not.
- The menu step's early exit at src/Console/RadicalMart300.php:762 compares the count query's result strictly with the integer 0. Whether it fires depends on the driver's `loadResult` type, which is not modelled. Either way nothing is issued: the model lets the scan run, and with no legacy item it reads one empty page and issues nothing (`MigrationProperties.MenuQuiet`).
- `Migration300.UsersColumns`: in the model a MODIFY changes the column's definition only and keeps every row's value as it is. MySQL would also convert values to the new type, such as an unsigned value above the signed `int` range.
- The admin model's `getItem` and `save` are the function parameters `load` and `save` of `Resave`. Their own effects on the database, `loadSuperUserIdentity` and the MVC factory are not modelled.
- `databaseModifyTableColumns` (src/Traits/UpdaterDatabaseTrait.php:109-112) has an empty body and no caller in these files, so it is not modelled.
- The step runner that executes `$methods` (src/Console/RadicalMart300.php:67-78) is in the framework's `AbstractCommand`, which is not part of this model. The list is `Migration300.Methods`, and each step is proved on its own.
- The plugin glue is not part of this model: src/Extension/Updater.php and services/provider.php.
- The wording of error messages is not modelled; a failure carries a short description.
- The quirks are preserved as written, not fixed:
  - The component mapping entry without a key at src/Console/RadicalMart300.php:115: PHP gives it the key `0`, an empty path to `Registry::exists`, so the entry never fires.
  - The spelling `privancy_client` at src/Console/RadicalMart300.php:119.
  - The timestamp assigned to the row read instead of the update at src/Console/RadicalMart300.php:435.
- `Migration300.UpdateComponentParams`: a missing `com_radicalmart` extension record is a failure with nothing issued. In the source it is a null dereference.
- `resaveProducts` and `resaveMetas` (src/Console/RadicalMart300.php:734-739 and 826-831) have no member of their own. They are `Resave.ResaveItems` on the products and metas tables, with the admin models `Product` and `Meta` as `load` and `save`.

## Findings

| source | as written | input that shows it | evidently intended | confidence | as-written member | corrected member |
|---|---|---|---|---|---|---|
| src/Traits/UpdaterResaveTrait.php:88 | the failure branch reads the errors of `$model`, which is never assigned before the first failure (and is null after an earlier item), so PHP raises its own error and the model's errors are lost | one item whose save fails with the error "Alias already exists" | read `$adminModel->getErrors()`, so the exception lists the model's errors one per line | not executed | `Resave.AsWrittenLosesErrors` | `Resave.CombinedMessageLines` |
