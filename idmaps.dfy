/**
 * The store's JavaScript maps: number keys issued by a counter, never deleted. A JavaScript
 * `Map` enumerates its values in the order their keys were first set; since every key is the
 * counter's value at the time and the counter only grows, that order is ascending key order,
 * which is how `ValuesBelow` enumerates.
 */
module IdMaps {
  import opened Options
  import JsArray

  /** `map.get(k)`. */
  function Get<T>(m: map<int, T>, k: int): (r: Option<T>)
    ensures r.Some? <==> k in m
    ensures r.Some? ==> r.value == m[k]
  {
    if k in m then Some(m[k]) else None
  }

  /** Every key was issued by a counter that now stands at `next` (counters start at 1). */
  ghost predicate IdsBelow<T>(m: map<int, T>, next: int) {
    1 <= next && forall k :: k in m ==> 1 <= k < next
  }

  /** Each record is stored under its own id. */
  ghost predicate KeyedById<T>(m: map<int, T>, idOf: T -> int) {
    forall k :: k in m ==> idOf(m[k]) == k
  }

  /** `Array.from(map.values())` restricted to keys below `next`, in ascending key order. */
  function ValuesBelow<T>(m: map<int, T>, next: int): seq<T>
    decreases next
  {
    if next <= 1 then []
    else ValuesBelow(m, next - 1) + (if next - 1 in m then [m[next - 1]] else [])
  }

  /** The enumeration below `n` depends only on the entries below `n`. */
  lemma {:induction false} ValuesBelowFrame<T>(m: map<int, T>, m': map<int, T>, n: int)
    requires forall k :: 1 <= k < n ==> (k in m <==> k in m')
    requires forall k :: 1 <= k < n && k in m ==> m[k] == m'[k]
    ensures ValuesBelow(m, n) == ValuesBelow(m', n)
    decreases n
  {
    if n > 1 {
      ValuesBelowFrame(m, m', n - 1);
    }
  }

  /** Storing under the counter's value appends to the enumeration and keeps the keys issued. */
  lemma ValuesBelowInsert<T>(m: map<int, T>, next: int, v: T)
    requires IdsBelow(m, next)
    ensures next !in m
    ensures IdsBelow(m[next := v], next + 1)
    ensures ValuesBelow(m[next := v], next + 1) == ValuesBelow(m, next) + [v]
  {
    ValuesBelowFrame(m, m[next := v], next);
  }

  /** Filtering the enumeration after an insert under the counter keeps the new value last, if it passes. */
  lemma FilterValuesBelowInsert<T>(m: map<int, T>, next: int, v: T, p: T -> bool)
    requires IdsBelow(m, next)
    ensures JsArray.Filter(ValuesBelow(m[next := v], next + 1), p)
      == JsArray.Filter(ValuesBelow(m, next), p) + (if p(v) then [v] else [])
  {
    ValuesBelowInsert(m, next, v);
    JsArray.FilterAppend(ValuesBelow(m, next), [v], p);
  }

  /** Every enumerated value is stored under some key below `n`. */
  lemma {:induction false} ValuesBelowStored<T>(m: map<int, T>, n: int, i: nat)
    requires i < |ValuesBelow(m, n)|
    ensures exists k :: 1 <= k < n && k in m && m[k] == ValuesBelow(m, n)[i]
    decreases n
  {
    if n > 1 {
      var init := ValuesBelow(m, n - 1);
      if i < |init| {
        ValuesBelowStored(m, n - 1, i);
      } else {
        assert n - 1 in m && ValuesBelow(m, n)[i] == m[n - 1];
      }
    }
  }

  /** Every value stored under a key below `n` is enumerated. */
  lemma {:induction false} ValuesBelowListed<T>(m: map<int, T>, n: int, k: int)
    requires k in m && 1 <= k < n
    ensures m[k] in ValuesBelow(m, n)
    decreases n
  {
    if k < n - 1 {
      ValuesBelowListed(m, n - 1, k);
    }
  }

  /** The keys of `m` below `next`. */
  ghost function KeysBelow<T>(m: map<int, T>, next: int): set<int> {
    set k | k in m && 1 <= k < next
  }

  /** Each key below `n` contributes exactly one value to the enumeration. */
  lemma {:induction false} ValuesBelowLength<T>(m: map<int, T>, n: int)
    ensures |ValuesBelow(m, n)| == |KeysBelow(m, n)|
    decreases n
  {
    if n > 1 {
      ValuesBelowLength(m, n - 1);
      if n - 1 in m {
        assert KeysBelow(m, n) == KeysBelow(m, n - 1) + {n - 1};
      } else {
        assert KeysBelow(m, n) == KeysBelow(m, n - 1);
      }
    }
  }

  /** When every key was issued below `n`, the enumeration lists each entry of the map once. */
  lemma ValuesBelowCount<T>(m: map<int, T>, n: int)
    requires IdsBelow(m, n)
    ensures |ValuesBelow(m, n)| == |m|
  {
    ValuesBelowLength(m, n);
    assert KeysBelow(m, n) == m.Keys;
  }

  /**
   * With each record stored under its own id, the enumeration lists records by strictly
   * increasing id, so insertion order holds and no record appears twice.
   */
  lemma {:induction false} ValuesBelowIncreasing<T>(m: map<int, T>, n: int, idOf: T -> int)
    requires KeyedById(m, idOf)
    ensures forall i :: 0 <= i < |ValuesBelow(m, n)| ==> idOf(ValuesBelow(m, n)[i]) < n
    ensures JsArray.PairwiseIncreasing(ValuesBelow(m, n), idOf)
    decreases n
  {
    if n > 1 {
      ValuesBelowIncreasing(m, n - 1, idOf);
      var init := ValuesBelow(m, n - 1);
      var last := if n - 1 in m then [m[n - 1]] else [];
      var s := init + last;
      forall i | 0 <= i < |s| ensures idOf(s[i]) < n && (i < |init| ==> s[i] == init[i]) {
        if i < |init| { assert s[i] == init[i]; }
      }
    }
  }

  /** The keys of `m` below `next`, ascending: the order in which the counter issued them. */
  ghost function KeysInOrder<T>(m: map<int, T>, next: int): seq<int>
    decreases next
  {
    if next <= 1 then []
    else KeysInOrder(m, next - 1) + (if next - 1 in m then [next - 1] else [])
  }

  /**
   * The enumeration is the map read along its keys in ascending order: position `i` holds
   * the value under the `i`-th key, the keys strictly increase, and they are exactly the
   * keys below `n`. This fixes order and multiplicity whatever the values are.
   */
  lemma {:induction false} ValuesBelowByKey<T>(m: map<int, T>, n: int)
    ensures var ks := KeysInOrder(m, n);
      && |ValuesBelow(m, n)| == |ks|
      && (forall i :: 0 <= i < |ks| ==> ks[i] in m && ValuesBelow(m, n)[i] == m[ks[i]])
      && (forall i, j :: 0 <= i < j < |ks| ==> ks[i] < ks[j])
      && (forall k :: k in ks <==> k in KeysBelow(m, n))
    decreases n
  {
    if n > 1 {
      ValuesBelowByKey(m, n - 1);
      var ks0 := KeysInOrder(m, n - 1);
      var vs0 := ValuesBelow(m, n - 1);
      var ks := KeysInOrder(m, n);
      var vs := ValuesBelow(m, n);
      assert forall k :: k in ks0 ==> k < n - 1;
      forall i | 0 <= i < |ks0| ensures ks[i] == ks0[i] && vs[i] == vs0[i] && ks[i] < n - 1 {
        assert ks0[i] in ks0;
      }
    }
  }

  /** `k` is the smallest key below `n` whose value satisfies `p`. */
  ghost predicate FirstMatch<T>(m: map<int, T>, k: int, n: int, p: T -> bool) {
    && 1 <= k < n && k in m && p(m[k])
    && forall k' :: 1 <= k' < k && k' in m ==> !p(m[k'])
  }

  /**
   * `find` over the enumeration yields the value under the smallest key whose value
   * satisfies `p`, and nothing when no value below `n` does.
   */
  lemma {:induction false} FindValuesBelow<T>(m: map<int, T>, n: int, p: T -> bool)
    ensures var r := JsArray.Find(ValuesBelow(m, n), p);
      && (r.None? <==> forall k :: 1 <= k < n && k in m ==> !p(m[k]))
      && (r.Some? ==> exists k :: FirstMatch(m, k, n, p) && m[k] == r.value)
    decreases n
  {
    if n > 1 {
      var init := ValuesBelow(m, n - 1);
      var last := if n - 1 in m then [m[n - 1]] else [];
      FindValuesBelow(m, n - 1, p);
      JsArray.FindAppend(init, last, p);
    }
  }
}
