/**
 * Re-saving every item of a table through the component's admin model
 * (`UpdaterResaveTrait`), so that the model's own save logic rebuilds its
 * derived data. Keys are visited in ascending order, 100 per page; items
 * that do not load are skipped; the first failed save aborts the run.
 */
module Resave {
  import opened Wrappers
  import opened Text
  import opened Store

  /** What `getItem` returns when it finds something: its `id` and its data. */
  datatype Item = Item(id: Value, data: Row)

  /** An entry of the model's error list: an exception or a plain message. */
  datatype ErrorItem = ExceptionError(message: string) | TextError(text: string)

  datatype SaveResult = Saved | Failed(errors: seq<ErrorItem>)

  /**
   * The run over a list of keys: the keys saved, in order; how it ended;
   * and how many keys were visited before the failing one (all of them
   * when it passed).
   */
  datatype Run = Run(saved: seq<int>, outcome: Outcome<string>, visited: nat)

  const PageSize: nat := 100

  function ErrorText(e: ErrorItem): string
  {
    match e
    case ExceptionError(m) => m
    case TextError(t) => t
  }

  function ErrorTexts(errors: seq<ErrorItem>): (r: seq<string>)
    ensures |r| == |errors| && forall i :: 0 <= i < |errors| ==> r[i] == ErrorText(errors[i])
  {
    if errors == [] then [] else [ErrorText(errors[0])] + ErrorTexts(errors[1..])
  }

  /** The message of the exception a failed save raises: the error texts, one per line. */
  function CombinedMessage(errors: seq<ErrorItem>): (r: string)
    ensures |errors| == 1 ==> r == ErrorText(errors[0])
    ensures |errors| >= 1 ==> |ErrorText(errors[0])| <= |r| && r[..|ErrorText(errors[0])|] == ErrorText(errors[0])
  {
    Join(ErrorTexts(errors), '\n')
  }

  /** The message lists the model's errors one per line, so they can be read back. */
  lemma CombinedMessageLines(errors: seq<ErrorItem>)
    requires |errors| >= 1
    requires forall i :: 0 <= i < |errors| ==> '\n' !in ErrorText(errors[i])
    ensures Split(CombinedMessage(errors), '\n') == ErrorTexts(errors)
  {
    SplitJoin(ErrorTexts(errors), '\n');
  }

  /**
   * The failure message as the source computes it: the loop reads the
   * errors of `$model`, which is unset (or null after an earlier item),
   * so PHP raises an error of its own and the model's errors are lost.
   */
  function AsWrittenFailureMessage(errors: seq<ErrorItem>): (r: string)
    ensures errors != [] ==> r == AsWrittenFailureMessage([])
    decreases |errors|
  {
    "Call to a member function getErrors() on null"
  }

  /** As written, the failure message is the same whatever the model reported. */
  lemma AsWrittenLosesErrors()
    ensures AsWrittenFailureMessage([TextError("Alias already exists")]) != CombinedMessage([TextError("Alias already exists")])
    ensures CombinedMessage([TextError("Alias already exists")]) == "Alias already exists"
  {
  }

  /** `empty($item) || empty($item->id)`. */
  predicate Skipped(item: Option<Item>): (b: bool)
    ensures item.Some? && item.value.id.Obj? ==> !b
    ensures item.Some? && item.value.id.Str? ==> (b <==> item.value.id.s == "" || item.value.id.s == "0")
  {
    item.None? || Empty(item.value.id)
  }

  /** What happens to one key: its item is skipped, saved, or its save fails with a message. */
  datatype Step = Skip | Save | Abort(message: string)

  function StepOf(key: int, load: int -> Option<Item>, save: Item -> SaveResult): (r: Step)
    ensures r.Skip? <==> Skipped(load(key))
    ensures r.Save? <==> !Skipped(load(key)) && save(load(key).value).Saved?
    ensures r.Abort? ==> r.message == CombinedMessage(save(load(key).value).errors)
  {
    var item := load(key);
    if Skipped(item) then Skip
    else match save(item.value)
      case Saved => Save
      case Failed(errors) => Abort(CombinedMessage(errors))
  }

  /** `step` gives, for every key, what the inner loop does with it. */
  ghost predicate Agrees(step: int -> Step, load: int -> Option<Item>, save: Item -> SaveResult)
  {
    forall key {:trigger StepOf(key, load, save)} :: step(key) == StepOf(key, load, save)
  }

  /** The steps of `load` and `save`. */
  function Steps(load: int -> Option<Item>, save: Item -> SaveResult): (step: int -> Step)
    ensures Agrees(step, load, save)
  {
    key => StepOf(key, load, save)
  }

  /** The run continued after `visited` more keys, `saved` of them saved. */
  function Continued(saved: seq<int>, visited: nat, rest: Run): Run
  {
    Run(saved + rest.saved, rest.outcome, visited + rest.visited)
  }

  /** The run over the keys `a[i..j]` in order, as the inner loop of `resaveItems` performs it. */
  function ResaveRange(a: seq<int>, i: nat, j: nat, step: int -> Step): Run
    requires i <= j <= |a|
    decreases j - i
  {
    if i == j then Run([], Pass, 0)
    else
      match step(a[i])
      case Skip => Continued([], 1, ResaveRange(a, i + 1, j, step))
      case Save => Continued([a[i]], 1, ResaveRange(a, i + 1, j, step))
      case Abort(m) => Run([], Fail(m), 0)
  }

  /** The run over the keys `a[k..]`. */
  function Rest(a: seq<int>, k: nat, step: int -> Step): Run
    requires k <= |a|
  {
    ResaveRange(a, k, |a|, step)
  }

  /** The run over all of `pks` with the items `load` finds and the results `save` gives. */
  function ResaveAll(pks: seq<int>, load: int -> Option<Item>, save: Item -> SaveResult): Run
  {
    ResaveRange(pks, 0, |pks|, Steps(load, save))
  }

  /** Where a run ends: a pass visits every key; a failure stops on a key whose save failed, with its message. */
  lemma {:induction false} RangeEnd(a: seq<int>, i: nat, j: nat, step: int -> Step)
    requires i <= j <= |a|
    decreases j - i
    ensures var r := ResaveRange(a, i, j, step);
            && i + r.visited <= j
            && (r.outcome.Pass? ==> i + r.visited == j)
            && (r.outcome.Fail? ==> i + r.visited < j && step(a[i + r.visited]) == Abort(r.outcome.error))
  {
    if i < j {
      RangeEnd(a, i + 1, j, step);
    }
  }

  /** No key before the end of a run aborted it. */
  lemma {:induction false} RangePrefix(a: seq<int>, i: nat, j: nat, step: int -> Step)
    requires i <= j <= |a|
    decreases j - i
    ensures var r := ResaveRange(a, i, j, step);
            i + r.visited <= j && forall p :: i <= p < i + r.visited ==> !step(a[p]).Abort?
  {
    if i < j {
      RangePrefix(a, i + 1, j, step);
    }
  }

  /** The keys a run saves are exactly the visited keys whose step is a save. */
  lemma {:induction false} RangeSaved(a: seq<int>, i: nat, j: nat, step: int -> Step)
    requires i <= j <= |a|
    decreases j - i
    ensures var r := ResaveRange(a, i, j, step);
            i + r.visited <= j && forall x :: x in r.saved <==> x in a[i..i + r.visited] && step(x).Save?
  {
    if i < j {
      RangeSaved(a, i + 1, j, step);
      var r := ResaveRange(a, i, j, step);
      var t := ResaveRange(a, i + 1, j, step);
      if !step(a[i]).Abort? {
        assert a[i..i + r.visited] == [a[i]] + a[i + 1..i + 1 + t.visited];
      }
    }
  }

  lemma IncreasingCons(x: int, xs: seq<int>)
    requires Increasing(xs)
    requires forall k :: k in xs ==> x < k
    ensures Increasing([x] + xs)
  {
    forall i, j | 0 <= i < j < |[x] + xs| ensures ([x] + xs)[i] < ([x] + xs)[j] {
      assert ([x] + xs)[j] == xs[j - 1];
      if i == 0 {
        assert xs[j - 1] in xs;
      } else {
        assert ([x] + xs)[i] == xs[i - 1];
      }
    }
  }

  /** Over an increasing order, the saved keys are increasing too, and none is below the first key. */
  lemma {:induction false} RangeOrder(a: seq<int>, i: nat, j: nat, step: int -> Step)
    requires i <= j <= |a| && Increasing(a)
    decreases j - i
    ensures var r := ResaveRange(a, i, j, step);
            Increasing(r.saved) && forall x :: x in r.saved ==> i < |a| && a[i] <= x
  {
    if i < j {
      RangeOrder(a, i + 1, j, step);
      var t := ResaveRange(a, i + 1, j, step);
      forall x | x in t.saved ensures a[i] < x {
        assert a[i] < a[i + 1];
      }
      if step(a[i]).Save? {
        IncreasingCons(a[i], t.saved);
      }
    }
  }

  /**
   * What a run over `pks` does: it visits the keys in order; an item that
   * does not load, or loads without an id, is skipped; every other visited
   * key was saved, and the saved keys are exactly those, in order; a pass
   * visits every key; a failure stops at the first key whose save failed
   * and reports that save's errors, one per line.
   */
  lemma ResaveAllFacts(pks: seq<int>, load: int -> Option<Item>, save: Item -> SaveResult)
    ensures var r := ResaveAll(pks, load, save);
            && r.visited <= |pks|
            && (forall x :: x in r.saved <==> x in pks[..r.visited] && !Skipped(load(x)) && save(load(x).value).Saved?)
            && (forall i :: 0 <= i < r.visited && !Skipped(load(pks[i])) ==> save(load(pks[i]).value).Saved?)
            && (Increasing(pks) ==> Increasing(r.saved))
            && (r.outcome.Pass? ==> r.visited == |pks|)
            && (r.outcome.Fail? ==>
                  && r.visited < |pks|
                  && !Skipped(load(pks[r.visited]))
                  && save(load(pks[r.visited]).value).Failed?
                  && r.outcome.error == CombinedMessage(save(load(pks[r.visited]).value).errors))
  {
    var step := Steps(load, save);
    var r := ResaveAll(pks, load, save);
    RangeEnd(pks, 0, |pks|, step);
    RangePrefix(pks, 0, |pks|, step);
    RangeSaved(pks, 0, |pks|, step);
    assert pks[0..r.visited] == pks[..r.visited];
    if Increasing(pks) {
      RangeOrder(pks, 0, |pks|, step);
    }
  }

  /** A run over `a[i..j]` is the run over `a[i..m]`, continued over `a[m..j]` when the first part passed. */
  lemma {:induction false} ResaveRangeSplit(a: seq<int>, i: nat, m: nat, j: nat, step: int -> Step)
    requires i <= m <= j <= |a|
    decreases m - i
    ensures var p := ResaveRange(a, i, m, step);
            ResaveRange(a, i, j, step)
              == if p.outcome.Pass? then Continued(p.saved, m - i, ResaveRange(a, m, j, step)) else p
  {
    if i < m {
      ResaveRangeSplit(a, i + 1, m, j, step);
      var q := ResaveRange(a, i + 1, m, step);
      var rest := ResaveRange(a, m, j, step);
      if !step(a[i]).Abort? && q.outcome.Pass? {
        var pre := if step(a[i]).Skip? then [] else [a[i]];
        assert pre + (q.saved + rest.saved) == (pre + q.saved) + rest.saved;
      }
    } else {
      assert [] + ResaveRange(a, m, j, step).saved == ResaveRange(a, m, j, step).saved;
    }
  }

  /** Runs over equal windows of two sequences are equal. */
  lemma {:induction false} ResaveRangeShift(a: seq<int>, k: nat, pks: seq<int>, i: nat, step: int -> Step)
    requires k + |pks| <= |a| && pks == a[k..k + |pks|] && i <= |pks|
    decreases |pks| - i
    ensures ResaveRange(a, k + i, k + |pks|, step) == ResaveRange(pks, i, |pks|, step)
  {
    if i < |pks| {
      assert pks[i] == a[k + i];
      ResaveRangeShift(a, k, pks, i + 1, step);
    }
  }

  /** Page arithmetic: `p` full pages and a last page of `r` keys. */
  lemma PageCount(p: nat, r: nat)
    requires r < PageSize
    ensures Pages(100 * p + r, PageSize) == p + (if r == 0 then 0 else 1)
    ensures (100 * p + r) / PageSize == p
  {
  }

  /** One key of a run that passes it: skipped, or saved and remembered. */
  lemma StepPassed(a: seq<int>, i: nat, j: nat, saved: seq<int>, visited: nat, step: int -> Step)
    requires i < j <= |a|
    requires !step(a[i]).Abort?
    ensures Continued(saved, visited, ResaveRange(a, i, j, step))
         == Continued(if step(a[i]).Skip? then saved else saved + [a[i]], visited + 1, ResaveRange(a, i + 1, j, step))
  {
    var t := ResaveRange(a, i + 1, j, step);
    if step(a[i]).Save? {
      assert saved + ([a[i]] + t.saved) == (saved + [a[i]]) + t.saved;
    } else {
      assert saved + ([] + t.saved) == saved + t.saved;
    }
  }

  /** The inner loop of `resaveItems`: one page of keys, up to the first failed save. */
  method SavePage(pks: seq<int>, load: int -> Option<Item>, save: Item -> SaveResult, ghost step: int -> Step)
    returns (saved: seq<int>, outcome: Outcome<string>)
    requires Agrees(step, load, save)
    ensures var r := ResaveRange(pks, 0, |pks|, step);
            saved == r.saved && outcome == r.outcome
  {
    ghost var whole := ResaveRange(pks, 0, |pks|, step);
    saved := [];
    var j := 0;
    assert [] + whole.saved == whole.saved;
    while j < |pks|
      invariant 0 <= j <= |pks|
      invariant whole == Continued(saved, j, ResaveRange(pks, j, |pks|, step))
    {
      var item := load(pks[j]);
      assert step(pks[j]) == StepOf(pks[j], load, save);
      if item.None? || Empty(item.value.id) {
        StepPassed(pks, j, |pks|, saved, j, step);
        j := j + 1;
      } else {
        var result := save(item.value);
        if result.Failed? {
          return saved, Fail(CombinedMessage(result.errors));
        }
        StepPassed(pks, j, |pks|, saved, j, step);
        saved := saved + [pks[j]];
        j := j + 1;
      }
    }
    outcome := Pass;
  }

  /** A page that is the window `a[k..k + |pks|]` of the scan order runs as that window of the scan. */
  method SaveWindow(pks: seq<int>, ghost a: seq<int>, ghost k: nat, load: int -> Option<Item>, save: Item -> SaveResult, ghost step: int -> Step)
    returns (saved: seq<int>, outcome: Outcome<string>)
    requires Agrees(step, load, save)
    requires k + |pks| <= |a| && pks == a[k..k + |pks|]
    ensures var r := ResaveRange(a, k, k + |pks|, step);
            saved == r.saved && outcome == r.outcome
  {
    saved, outcome := SavePage(pks, load, save, step);
    ResaveRangeShift(a, k, pks, 0, step);
  }

  /** A page that passed: the scan goes on after it. */
  lemma PagePassed(a: seq<int>, k: nat, m: nat, saved: seq<int>, whole: Run, step: int -> Step)
    requires k <= m <= |a|
    requires whole == Continued(saved, k, ResaveRange(a, k, |a|, step))
    requires ResaveRange(a, k, m, step).outcome.Pass?
    ensures whole == Continued(saved + ResaveRange(a, k, m, step).saved, m, ResaveRange(a, m, |a|, step))
  {
    ResaveRangeSplit(a, k, m, |a|, step);
    var p := ResaveRange(a, k, m, step);
    var t := ResaveRange(a, m, |a|, step);
    assert saved + (p.saved + t.saved) == (saved + p.saved) + t.saved;
  }

  /** A page that failed ends the scan. */
  lemma PageFailed(a: seq<int>, k: nat, m: nat, saved: seq<int>, whole: Run, step: int -> Step)
    requires k <= m <= |a|
    requires whole == Continued(saved, k, ResaveRange(a, k, |a|, step))
    requires ResaveRange(a, k, m, step).outcome.Fail?
    ensures var p := ResaveRange(a, k, m, step);
            whole == Run(saved + p.saved, p.outcome, k + p.visited) && p.visited < m - k
  {
    ResaveRangeSplit(a, k, m, |a|, step);
    RangeEnd(a, k, m, step);
  }

  /** The scan reached the end of `a`. */
  lemma ScanDone(a: seq<int>, saved: seq<int>, whole: Run, step: int -> Step)
    requires whole == Continued(saved, |a|, Rest(a, |a|, step))
    ensures whole == Run(saved, Pass, |a|)
  {
    assert saved + [] == saved;
  }

  /**
   * One round of the outer loop of `resaveItems` before the cleanup: the
   * next page of keys after the cursor, and the inner loop over it. Stated
   * against the scan so far: `whole` is the run over all of `a`, of which
   * the first `k` keys are done with `saved` saved.
   */
  method ScanPage(ids: set<int>, last: int, ghost a: seq<int>, ghost k: nat, ghost saved: seq<int>, ghost whole: Run,
                  load: int -> Option<Item>, save: Item -> SaveResult, ghost step: int -> Step)
    returns (pks: seq<int>, pageSaved: seq<int>, pageOutcome: Outcome<string>)
    requires Agrees(step, load, save)
    requires ScanOrder(a, ids) && k <= |a|
    requires last == if k == 0 then 0 else a[k - 1]
    requires whole == Continued(saved, k, Rest(a, k, step))
    ensures |pks| == MinNat(|a| - k, PageSize) && (pks != [] ==> pks[|pks| - 1] == a[k + |pks| - 1])
    ensures pks == [] ==> whole == Run(saved, Pass, k)
    ensures pageOutcome.Fail? ==>
              whole.saved == saved + pageSaved && whole.outcome == pageOutcome && k <= whole.visited < k + |pks|
    ensures pageOutcome.Pass? ==> whole == Continued(saved + pageSaved, k + |pks|, Rest(a, k + |pks|, step))
  {
    pks := NextPrimaryKeys(ids, last, PageSize, a, k);
    ghost var m := k + |pks|;
    if |pks| == 0 {
      ScanDone(a, saved, whole, step);
    }
    pageSaved, pageOutcome := SaveWindow(pks, a, k, load, save, step);
    if pageOutcome.Fail? {
      PageFailed(a, k, m, saved, whole, step);
    } else {
      PagePassed(a, k, m, saved, whole, step);
    }
  }

  /**
   * `resaveItems` over the keys of `table`. The scan starts at key 0 and
   * asks for 100 keys above the last one visited; after each complete page
   * the connection is closed and the helper caches are reset; a page
   * shorter than 100 ends the scan. `load` and `save` stand for the admin
   * model's `getItem` and `save`, whose own effects are not part of this
   * model. On a missing table the count query throws before any item is
   * loaded.
   */
  method ResaveItems(db: Database, table: string, load: int -> Option<Item>, save: Item -> SaveResult)
    returns (saved: seq<int>, outcome: Outcome<string>)
    modifies db
    ensures table !in old(db.state.tables) ==>
              saved == [] && outcome.Fail? && db.disconnects == old(db.disconnects) && db.cacheResets == old(db.cacheResets)
    ensures table in old(db.state.tables) ==>
            var keys := Ascending(Above(old(db.state.tables[table].rows.Keys), 0));
            var r := ResaveAll(keys, load, save);
            && saved == r.saved && outcome == r.outcome
            && db.disconnects == old(db.disconnects) + (if r.outcome.Pass? then Pages(|keys|, PageSize) else r.visited / PageSize)
            && db.cacheResets == old(db.cacheResets) + (if r.outcome.Pass? then Pages(|keys|, PageSize) else r.visited / PageSize)
    ensures db.state == old(db.state) && db.log == old(db.log)
  {
    if table !in db.state.tables {
      return [], Fail("table " + table + " not found");
    }
    var ids := db.state.tables[table].rows.Keys;
    saved, outcome := ScanItems(db, ids, Ascending(Above(ids, 0)), load, save, Steps(load, save));
  }

  /** The loop of `resaveItems` over the scan order `a` of `ids`. */
  method ScanItems(db: Database, ids: set<int>, ghost a: seq<int>, load: int -> Option<Item>, save: Item -> SaveResult, ghost step: int -> Step)
    returns (saved: seq<int>, outcome: Outcome<string>)
    requires Agrees(step, load, save)
    requires ScanOrder(a, ids)
    modifies db
    ensures var r := Rest(a, 0, step);
            && saved == r.saved && outcome == r.outcome
            && db.disconnects == old(db.disconnects) + (if r.outcome.Pass? then Pages(|a|, PageSize) else r.visited / PageSize)
            && db.cacheResets == old(db.cacheResets) + (if r.outcome.Pass? then Pages(|a|, PageSize) else r.visited / PageSize)
    ensures db.state == old(db.state) && db.log == old(db.log)
  {
    ghost var whole := Rest(a, 0, step);
    var last := 0;
    ghost var k: nat := 0;
    ghost var pagesDone: nat := 0;
    saved := [];
    assert [] + whole.saved == whole.saved;
    while true
      invariant k <= |a| && k == 100 * pagesDone
      invariant last == if k == 0 then 0 else a[k - 1]
      invariant whole == Continued(saved, k, Rest(a, k, step))
      invariant db.disconnects == old(db.disconnects) + pagesDone && db.cacheResets == old(db.cacheResets) + pagesDone
      invariant db.state == old(db.state) && db.log == old(db.log)
      decreases |a| - k
    {
      var pks, pageSaved, pageOutcome := ScanPage(ids, last, a, k, saved, whole, load, save, step);
      if |pks| == 0 {
        PageCount(pagesDone, 0);
        break;
      }
      if pageOutcome.Fail? {
        PageCount(pagesDone, whole.visited - k);
        return saved + pageSaved, pageOutcome;
      }
      saved := saved + pageSaved;
      last := pks[|pks| - 1];
      k := k + |pks|;
      pagesDone := pagesDone + 1;
      db.Disconnect();
      db.ResetCaches();
      if |pks| < PageSize {
        ScanDone(a, saved, whole, step);
        PageCount(pagesDone - 1, |pks|);
        break;
      }
    }
    outcome := Pass;
  }
}
