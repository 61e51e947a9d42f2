/** The JavaScript array methods the store and the cart are built from. */
module JsArray {
  import opened Options

  /** `s.findIndex(p)`: the first position whose element satisfies `p`, or -1. */
  function FindIndex<T>(s: seq<T>, p: T -> bool): (r: int)
    ensures -1 <= r < |s|
    ensures r >= 0 ==> p(s[r]) && forall j :: 0 <= j < r ==> !p(s[j])
    ensures r == -1 <==> forall j :: 0 <= j < |s| ==> !p(s[j])
  {
    if s == [] then -1
    else if p(s[0]) then 0
    else
      var r := FindIndex(s[1..], p);
      assert forall j :: 1 <= j < |s| ==> s[j] == s[1..][j - 1];
      if r < 0 then -1 else r + 1
  }

  /** `s.find(p)`: the first element satisfying `p`, or undefined. */
  function Find<T>(s: seq<T>, p: T -> bool): (r: Option<T>)
    ensures r.None? <==> forall j :: 0 <= j < |s| ==> !p(s[j])
    ensures r.Some? ==> exists i :: 0 <= i < |s| && s[i] == r.value && p(s[i]) && forall j :: 0 <= j < i ==> !p(s[j])
  {
    var i := FindIndex(s, p);
    if i < 0 then None else Some(s[i])
  }

  /** `s.filter(p)`: the elements satisfying `p`, in their original order. */
  function Filter<T>(s: seq<T>, p: T -> bool): (r: seq<T>)
    ensures |r| <= |s|
    ensures forall i :: 0 <= i < |r| ==> r[i] in s && p(r[i])
    ensures forall j :: 0 <= j < |s| && p(s[j]) ==> s[j] in r
  {
    if s == [] then []
    else
      var init := s[..|s| - 1];
      assert forall j :: 0 <= j < |s| - 1 ==> s[j] == init[j];
      Filter(init, p) + (if p(s[|s| - 1]) then [s[|s| - 1]] else [])
  }

  /** `s.map(f)`. */
  function Map<T, U>(s: seq<T>, f: T -> U): (r: seq<U>)
    ensures |r| == |s| && forall i :: 0 <= i < |s| ==> r[i] == f(s[i])
  {
    seq(|s|, i requires 0 <= i < |s| => f(s[i]))
  }

  /** `find` over a concatenation looks in the second part only when the first has no match. */
  lemma FindAppend<T>(a: seq<T>, b: seq<T>, p: T -> bool)
    ensures Find(a + b, p) == if Find(a, p).Some? then Find(a, p) else Find(b, p)
  {
    var s := a + b;
    var i := FindIndex(a, p);
    if i >= 0 {
      assert s[i] == a[i];
      assert FindIndex(s, p) == i;
    } else {
      var j := FindIndex(b, p);
      if j >= 0 {
        assert s[|a| + j] == b[j];
        assert forall k :: 0 <= k < |a| + j ==> !p(s[k]) by {
          forall k | 0 <= k < |a| + j ensures !p(s[k]) {
            if k >= |a| { assert s[k] == b[k - |a|]; }
          }
        }
        assert FindIndex(s, p) == |a| + j;
      } else {
        assert forall k :: 0 <= k < |s| ==> !p(s[k]) by {
          forall k | 0 <= k < |s| ensures !p(s[k]) {
            if k >= |a| { assert s[k] == b[k - |a|]; }
          }
        }
      }
    }
  }

  /** Filtering distributes over concatenation: the kept elements stay in order. */
  lemma {:induction false} FilterAppend<T>(a: seq<T>, b: seq<T>, p: T -> bool)
    ensures Filter(a + b, p) == Filter(a, p) + Filter(b, p)
  {
    if b == [] {
      assert a + b == a;
    } else {
      var b' := b[..|b| - 1];
      assert (a + b)[..|a + b| - 1] == a + b';
      FilterAppend(a, b', p);
    }
  }

  /** Each id along `s` is below every later one. */
  ghost predicate PairwiseIncreasing<T>(s: seq<T>, idOf: T -> int) {
    forall i, j :: 0 <= i < j < |s| ==> idOf(s[i]) < idOf(s[j])
  }

  /** Filtering keeps strictly increasing ids strictly increasing. */
  lemma {:induction false} FilterIncreasing<T>(s: seq<T>, p: T -> bool, idOf: T -> int)
    requires PairwiseIncreasing(s, idOf)
    ensures PairwiseIncreasing(Filter(s, p), idOf)
  {
    if s != [] {
      var init := s[..|s| - 1];
      IncreasingFront(s, idOf);
      FilterIncreasing(init, p, idOf);
      var kept := Filter(init, p);
      forall i | 0 <= i < |kept| ensures idOf(kept[i]) < idOf(s[|s| - 1]) {
        assert kept[i] in init;
      }
    }
  }

  /** The front of an increasing sequence is increasing and stays below its last id. */
  lemma IncreasingFront<T>(s: seq<T>, idOf: T -> int)
    requires s != [] && PairwiseIncreasing(s, idOf)
    ensures PairwiseIncreasing(s[..|s| - 1], idOf)
    ensures forall x :: x in s[..|s| - 1] ==> idOf(x) < idOf(s[|s| - 1])
  {
    var init := s[..|s| - 1];
    forall x | x in init ensures idOf(x) < idOf(s[|s| - 1]) {
      var j :| 0 <= j < |init| && init[j] == x;
      assert s[j] == x;
    }
  }

  /** Filtering keeps a sequence whose every element passes. */
  lemma {:induction false} FilterAll<T>(s: seq<T>, p: T -> bool)
    requires forall j :: 0 <= j < |s| ==> p(s[j])
    ensures Filter(s, p) == s
  {
    if s != [] {
      FilterAll(s[..|s| - 1], p);
    }
  }

  /** Filtering drops a sequence whose every element fails. */
  lemma {:induction false} FilterNone<T>(s: seq<T>, p: T -> bool)
    requires forall j :: 0 <= j < |s| ==> !p(s[j])
    ensures Filter(s, p) == []
  {
    if s != [] {
      FilterNone(s[..|s| - 1], p);
    }
  }
}
