/**
 * Moving component parameters to new keys (`UpdaterParamsTrait`): for each
 * `source => destination` entry, in order, a value present under the
 * source and absent under the destination moves there; the parameters are
 * saved only when something moved.
 */
module ParamsMove {
  import opened Wrappers
  import opened Store

  type Params = map<string, Value>
  type Mapping = seq<(string, string)>

  /**
   * `Registry::exists` for a key without the path separator: an empty path
   * (the string "" or PHP's key 0, both `empty()`) is never found; any
   * other key is found when it holds a value other than null.
   */
  predicate Exists(p: Params, key: string): (b: bool)
    ensures key == "" || key == "0" ==> !b
    ensures b ==> key in p && p[key] != Null
  {
    !EmptyPath(key) && key in p && p[key] != Null
  }

  /** `empty($path)` on a mapping key: "" and "0" (PHP's integer key 0). */
  predicate EmptyPath(key: string)
  {
    key == "" || key == "0"
  }

  /**
   * `Registry::get(key)` for a key without the path separator: the value
   * stored, or the default null when the key is missing, holds null or
   * holds the empty string.
   */
  function Read(p: Params, key: string): (v: Value)
    ensures v != Str("")
    ensures key in p && p[key] != Str("") ==> v == p[key]
    ensures key !in p ==> v == Null
  {
    if key in p && p[key] != Str("") then p[key] else Null
  }

  /** The entry `source => dest` moves something in `p`. */
  predicate Fires(p: Params, source: string, dest: string)
  {
    Exists(p, source) && !Exists(p, dest)
  }

  /**
   * `set(dest, get(source))` followed by `remove(source)`: the destination
   * takes the source's value, except that an empty string arrives as null.
   */
  function MoveOne(p: Params, source: string, dest: string): (r: Params)
    requires Fires(p, source, dest)
    ensures dest in r && r[dest] == (if p[source] == Str("") then Null else p[source]) && source !in r
    ensures forall k :: k != source && k != dest ==> (k in r <==> k in p) && (k in p ==> r[k] == p[k])
  {
    p[dest := Read(p, source)] - {source}
  }

  /** The parameters after the entries of `m`, each seeing the moves before it, and whether any moved. */
  function MoveAll(p: Params, m: Mapping): (Params, bool)
  {
    MoveFirst(p, m, |m|)
  }

  /** The same for the first `n` entries only. */
  function MoveFirst(p: Params, m: Mapping, n: nat): (Params, bool)
    requires n <= |m|
  {
    if n == 0 then (p, false)
    else
      var prev := MoveFirst(p, m, n - 1);
      var e := m[n - 1];
      if Fires(prev.0, e.0, e.1) then (MoveOne(prev.0, e.0, e.1), true) else prev
  }

  /** Every name used by the mapping, as source or destination. */
  function Names(m: Mapping): set<string>
  {
    (set i | 0 <= i < |m| :: m[i].0) + (set i | 0 <= i < |m| :: m[i].1)
  }

  /** No name is used twice by the mapping, as source or destination. */
  predicate Disjoint(m: Mapping)
  {
    && (forall i, j :: 0 <= i < |m| && 0 <= j < |m| ==> m[i].0 != m[j].1)
    && (forall i, j :: 0 <= i < j < |m| ==> m[i].0 != m[j].0 && m[i].1 != m[j].1)
  }

  /** `k` holds the same (or no) value in both. */
  predicate SameAt(p: Params, q: Params, k: string)
  {
    (k in p <==> k in q) && (k in p ==> p[k] == q[k])
  }

  /** No entry fires on its turn: nothing moves and nothing is saved. */
  lemma NothingFires(p: Params, m: Mapping)
    requires forall i :: 0 <= i < |m| ==> !Fires(p, m[i].0, m[i].1)
    ensures MoveAll(p, m) == (p, false)
  {
    NothingFiresFirst(p, m, |m|);
  }

  lemma {:induction false} NothingFiresFirst(p: Params, m: Mapping, n: nat)
    requires n <= |m| && forall i :: 0 <= i < n ==> !Fires(p, m[i].0, m[i].1)
    ensures MoveFirst(p, m, n) == (p, false)
  {
    if n > 0 {
      NothingFiresFirst(p, m, n - 1);
    }
  }

  /**
   * For a mapping that uses each name once, the moves do not interact:
   * each entry moves its source to its destination exactly when it fires
   * on the parameters read, an entry that does not fire leaves both its
   * names alone, no other key changes, and the parameters are saved
   * exactly when some entry fires.
   */
  lemma MoveAllDisjoint(p: Params, m: Mapping)
    requires Disjoint(m)
    ensures var r := MoveAll(p, m).0;
            && (forall k :: k !in Names(m) ==> SameAt(p, r, k))
            && (forall i :: 0 <= i < |m| && Fires(p, m[i].0, m[i].1) ==>
                  m[i].0 !in r && m[i].1 in r && r[m[i].1] == Read(p, m[i].0))
            && (forall i :: 0 <= i < |m| && !Fires(p, m[i].0, m[i].1) ==>
                  SameAt(p, r, m[i].0) && SameAt(p, r, m[i].1))
    ensures MoveAll(p, m).1 <==> exists i :: 0 <= i < |m| && Fires(p, m[i].0, m[i].1)
  {
    var r := MoveAll(p, m).0;
    forall k | k !in Names(m) ensures SameAt(p, r, k) {
      forall i | 0 <= i < |m| ensures m[i].0 != k && m[i].1 != k {
        assert m[i].0 in Names(m) && m[i].1 in Names(m);
      }
      MoveFirstUnused(p, m, |m|, k);
    }
    forall i | 0 <= i < |m| ensures
      if Fires(p, m[i].0, m[i].1) then m[i].0 !in r && m[i].1 in r && r[m[i].1] == Read(p, m[i].0)
      else SameAt(p, r, m[i].0) && SameAt(p, r, m[i].1)
    {
      MoveFirstEntry(p, m, |m|, i);
    }
    MoveFirstSaved(p, m, |m|);
  }

  /** `k` is not used by the first `n` entries. */
  predicate Unused(m: Mapping, n: nat, k: string)
    requires n <= |m|
  {
    forall i :: 0 <= i < n ==> m[i].0 != k && m[i].1 != k
  }

  /** A key no entry among the first `n` uses keeps its value. */
  lemma {:induction false} MoveFirstUnused(p: Params, m: Mapping, n: nat, k: string)
    requires n <= |m| && Unused(m, n, k)
    ensures SameAt(p, MoveFirst(p, m, n).0, k)
  {
    if n > 0 {
      assert Unused(m, n - 1, k);
      MoveFirstUnused(p, m, n - 1, k);
    }
  }

  /** Entry `i` moved its value exactly when it fired on the parameters read, and left its names alone otherwise. */
  lemma {:induction false} MoveFirstEntry(p: Params, m: Mapping, n: nat, i: nat)
    requires Disjoint(m) && i < n <= |m|
    ensures var r := MoveFirst(p, m, n).0;
            if Fires(p, m[i].0, m[i].1) then m[i].0 !in r && m[i].1 in r && r[m[i].1] == Read(p, m[i].0)
            else SameAt(p, r, m[i].0) && SameAt(p, r, m[i].1)
  {
    var e := m[n - 1];
    if i == n - 1 {
      assert Unused(m, n - 1, e.0) && Unused(m, n - 1, e.1);
      MoveFirstUnused(p, m, n - 1, e.0);
      MoveFirstUnused(p, m, n - 1, e.1);
    } else {
      MoveFirstEntry(p, m, n - 1, i);
      assert m[i].0 != e.0 && m[i].1 != e.0 && m[i].0 != e.1 && m[i].1 != e.1;
    }
  }

  /** The parameters are saved exactly when some entry fired on the parameters read. */
  lemma {:induction false} MoveFirstSaved(p: Params, m: Mapping, n: nat)
    requires Disjoint(m) && n <= |m|
    ensures MoveFirst(p, m, n).1 <==> exists i :: 0 <= i < n && Fires(p, m[i].0, m[i].1)
  {
    if n > 0 {
      MoveFirstSaved(p, m, n - 1);
      var e := m[n - 1];
      assert Unused(m, n - 1, e.0) && Unused(m, n - 1, e.1);
      MoveFirstUnused(p, m, n - 1, e.0);
      MoveFirstUnused(p, m, n - 1, e.1);
      if !MoveFirst(p, m, n).1 {
        forall i | 0 <= i < n ensures !Fires(p, m[i].0, m[i].1) {
        }
      }
    }
  }

  /**
   * Running the move twice: for a mapping that uses each name once, the
   * second run moves nothing and does not save.
   */
  lemma MoveAllIdempotent(p: Params, m: Mapping)
    requires Disjoint(m)
    ensures MoveAll(MoveAll(p, m).0, m) == (MoveAll(p, m).0, false)
  {
    var r := MoveAll(p, m).0;
    MoveAllDisjoint(p, m);
    forall i | 0 <= i < |m| ensures !Fires(r, m[i].0, m[i].1) {
      if !Fires(p, m[i].0, m[i].1) {
        assert SameAt(p, r, m[i].0) && SameAt(p, r, m[i].1);
      }
    }
    NothingFires(r, m);
  }

  /**
   * The entries are applied in order, each to the parameters the earlier
   * ones left: moving by `m1 + m2` is moving by `m1` and then by `m2`, and
   * the parameters are saved when either part moved something.
   */
  lemma MoveAllAppend(p: Params, m1: Mapping, m2: Mapping)
    ensures var first := MoveAll(p, m1);
            var second := MoveAll(first.0, m2);
            MoveAll(p, m1 + m2) == (second.0, first.1 || second.1)
  {
    MoveFirstAppend(p, m1, m2, |m2|);
  }

  lemma {:induction false} MoveFirstAppend(p: Params, m1: Mapping, m2: Mapping, n: nat)
    requires n <= |m2|
    ensures var first := MoveAll(p, m1);
            var second := MoveFirst(first.0, m2, n);
            MoveFirst(p, m1 + m2, |m1| + n) == (second.0, first.1 || second.1)
  {
    if n == 0 {
      MoveFirstPrefix(p, m1 + m2, m1, |m1|);
    } else {
      MoveFirstAppend(p, m1, m2, n - 1);
      assert (m1 + m2)[|m1| + n - 1] == m2[n - 1];
    }
  }

  /** Only the first `n` entries matter to `MoveFirst(p, m, n)`. */
  lemma {:induction false} MoveFirstPrefix(p: Params, m: Mapping, m': Mapping, n: nat)
    requires n <= |m| && n <= |m'| && forall i :: 0 <= i < n ==> m[i] == m'[i]
    ensures MoveFirst(p, m, n) == MoveFirst(p, m', n)
  {
    if n > 0 {
      MoveFirstPrefix(p, m, m', n - 1);
    }
  }

  /**
   * `paramsMoveParams`. The component's extension record is read first;
   * without one the source dereferences null, which the model reports as
   * a failure with nothing issued. When something moved, the parameters
   * are saved, the parameter cache is reset and the connection is closed.
   */
  method MoveParams(db: Database, m: Mapping) returns (outcome: Outcome<string>)
    modifies db
    ensures old(db.state.componentParams).None? ==>
              outcome.Fail? && db.state == old(db.state) && db.log == old(db.log)
              && db.disconnects == old(db.disconnects) && db.cacheResets == old(db.cacheResets)
    ensures old(db.state.componentParams).Some? ==>
              var moved := MoveAll(old(db.state.componentParams).value, m);
              && outcome == Pass
              && Issued(old(db.state), old(db.log), db.state, db.log,
                        if moved.1 then [SaveComponentParams(moved.0)] else [])
              && db.disconnects == old(db.disconnects) + (if moved.1 then 1 else 0)
              && db.cacheResets == old(db.cacheResets) + (if moved.1 then 1 else 0)
  {
    if db.state.componentParams.None? {
      return Fail("component extension record not found");
    }
    var params := db.state.componentParams.value;
    var update := false;
    var i := 0;
    while i < |m|
      invariant 0 <= i <= |m|
      invariant (params, update) == MoveFirst(db.state.componentParams.value, m, i)
    {
      var source, dest := m[i].0, m[i].1;
      if Exists(params, source) && !Exists(params, dest) {
        update := true;
        params := params[dest := Read(params, source)] - {source};
      }
      i := i + 1;
    }
    if !update {
      IssuedNothing(db.state, db.log);
      return Pass;
    }
    db.Execute(SaveComponentParams(params));
    db.ResetCaches();
    db.Disconnect();
    return Pass;
  }
}
