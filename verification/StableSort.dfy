/** Stable sorting by a numeric key, as the plan streams are sorted before the merge pass. */
module StableSort {

  /** The items with key `k`, in order. */
  function Select<A>(s: seq<A>, key: A -> nat, k: nat): seq<A> {
    if s == [] then []
    else if key(s[|s| - 1]) == k then Select(s[..|s| - 1], key, k) + [s[|s| - 1]]
    else Select(s[..|s| - 1], key, k)
  }

  /** The items with key `lo`, then those with key `lo + 1`, and so on below `hi`. */
  function SelectRange<A>(s: seq<A>, key: A -> nat, lo: nat, hi: nat): seq<A>
    decreases hi - lo
  {
    if lo >= hi then [] else Select(s, key, lo) + SelectRange(s, key, lo + 1, hi)
  }

  ghost predicate Sorted<A>(s: seq<A>, key: A -> nat) {
    forall i, j :: 0 <= i < j < |s| ==> key(s[i]) <= key(s[j])
  }

  ghost predicate DistinctKeys<A>(s: seq<A>, key: A -> nat) {
    forall i, j :: 0 <= i < j < |s| ==> key(s[i]) != key(s[j])
  }

  /** Puts `x` behind every item whose key is not larger. */
  function Place<A>(s: seq<A>, key: A -> nat, x: A): seq<A> {
    if s == [] || key(s[|s| - 1]) <= key(x) then s + [x]
    else Place(s[..|s| - 1], key, x) + [s[|s| - 1]]
  }

  function SortBy<A>(s: seq<A>, key: A -> nat): seq<A> {
    if s == [] then [] else Place(SortBy(s[..|s| - 1], key), key, s[|s| - 1])
  }

  lemma {:induction false} SelectPush<A>(s: seq<A>, key: A -> nat, k: nat, x: A)
    ensures Select(s + [x], key, k) == if key(x) == k then Select(s, key, k) + [x] else Select(s, key, k)
  {
    assert (s + [x])[..|s|] == s;
  }

  lemma {:induction false} SelectAppend<A>(a: seq<A>, b: seq<A>, key: A -> nat, k: nat)
    ensures Select(a + b, key, k) == Select(a, key, k) + Select(b, key, k)
    decreases |b|
  {
    if b == [] {
      assert a + b == a;
    } else {
      var n := |b| - 1;
      SelectAppend(a, b[..n], key, k);
      assert a + b == a + b[..n] + [b[n]];
      SelectOneMore(Select(a, key, k), Select(b[..n], key, k), a + b[..n], a + b, b, key, k);
    }
  }

  lemma {:induction false} SelectOneMore<A>(x: seq<A>, y: seq<A>, init: seq<A>, all: seq<A>, b: seq<A>, key: A -> nat, k: nat)
    requires b != [] && all == init + [b[|b| - 1]] && Select(init, key, k) == x + y && Select(b[..|b| - 1], key, k) == y
    ensures Select(all, key, k) == x + Select(b, key, k)
  {
    SelectPush(init, key, k, b[|b| - 1]);
  }

  lemma {:induction false} SelectNone<A>(s: seq<A>, key: A -> nat, k: nat)
    requires forall i :: 0 <= i < |s| ==> key(s[i]) != k
    ensures Select(s, key, k) == []
  {
    if s != [] {
      SelectNone(s[..|s| - 1], key, k);
    }
  }

  lemma {:induction false} SelectIn<A>(s: seq<A>, key: A -> nat, k: nat, x: A)
    ensures x in Select(s, key, k) <==> x in s && key(x) == k
  {
    if s != [] {
      SelectIn(s[..|s| - 1], key, k, x);
      assert s == s[..|s| - 1] + [s[|s| - 1]];
    }
  }

  /** A run of equal keys is all there is of its key. */
  lemma {:induction false} SelectRun<A>(s: seq<A>, key: A -> nat, i: nat, j: nat, k: nat)
    requires i <= j <= |s|
    requires forall x :: 0 <= x < |s| ==> (key(s[x]) == k <==> i <= x < j)
    ensures Select(s, key, k) == s[i..j]
  {
    if s != [] {
      var n := |s| - 1;
      if i < j == |s| {
        SelectRun(s[..n], key, i, n, k);
        assert s[..n][i..n] + [s[n]] == s[i..j];
      } else if j < |s| {
        SelectRun(s[..n], key, i, j, k);
        assert s[..n][i..j] == s[i..j];
      } else {
        SelectNone(s, key, k);
      }
    }
  }

  // ----- sorting -----

  lemma {:induction false} PlaceIsStable<A>(s: seq<A>, key: A -> nat, x: A, k: nat)
    ensures Select(Place(s, key, x), key, k) == if key(x) == k then Select(s, key, k) + [x] else Select(s, key, k)
  {
    SelectPush(s, key, k, x);
    if s != [] && key(s[|s| - 1]) > key(x) {
      var init, last := s[..|s| - 1], s[|s| - 1];
      PlaceIsStable(init, key, x, k);
      SelectPush(Place(init, key, x), key, k, last);
    }
  }

  lemma {:induction false} PlaceIsSorted<A>(s: seq<A>, key: A -> nat, x: A)
    requires Sorted(s, key)
    ensures Sorted(Place(s, key, x), key) && |Place(s, key, x)| == |s| + 1
    ensures forall y :: y in Place(s, key, x) ==> y == x || y in s
  {
    if s != [] && key(s[|s| - 1]) > key(x) {
      PlaceIsSorted(s[..|s| - 1], key, x);
      var p := Place(s[..|s| - 1], key, x);
      forall i | 0 <= i < |p| ensures key(p[i]) <= key(s[|s| - 1]) {
        assert p[i] in p;
      }
    }
  }

  /** Sorting orders the keys and keeps the order of items with the same key. */
  lemma {:induction false} SortByIsStable<A>(s: seq<A>, key: A -> nat)
    ensures Sorted(SortBy(s, key), key) && |SortBy(s, key)| == |s|
    ensures forall k :: Select(SortBy(s, key), key, k) == Select(s, key, k)
  {
    if s != [] {
      var init, last := s[..|s| - 1], s[|s| - 1];
      SortByIsStable(init, key);
      PlaceIsSorted(SortBy(init, key), key, last);
      forall k: nat ensures Select(SortBy(s, key), key, k) == Select(s, key, k) {
        PlaceIsStable(SortBy(init, key), key, last, k);
      }
    }
  }

  lemma {:induction false} SortByKeepsItems<A>(s: seq<A>, key: A -> nat, x: A)
    ensures x in SortBy(s, key) <==> x in s
  {
    SortByIsStable(s, key);
    SelectIn(SortBy(s, key), key, key(x), x);
    SelectIn(s, key, key(x), x);
  }

  lemma {:induction false} DistinctSelect<A>(s: seq<A>, key: A -> nat, k: nat)
    requires DistinctKeys(s, key)
    ensures |Select(s, key, k)| <= 1
  {
    if s != [] {
      var init, last := s[..|s| - 1], s[|s| - 1];
      DistinctSelect(init, key, k);
      if key(last) == k {
        SelectNone(init, key, k);
      }
    }
  }

  lemma {:induction false} TwoSelected<A>(s: seq<A>, key: A -> nat, i: nat, j: nat)
    requires i < j < |s| && key(s[i]) == key(s[j])
    ensures |Select(s, key, key(s[i]))| >= 2
  {
    var k := key(s[i]);
    SelectAppend(s[..j], s[j..], key, k);
    assert s == s[..j] + s[j..];
    SelectIn(s[..j], key, k, s[i]);
    assert s[i] in s[..j] by { assert s[..j][i] == s[i]; }
    SelectIn(s[j..], key, k, s[j]);
    assert s[j] in s[j..] by { assert s[j..][0] == s[j]; }
  }

  /** Sorting distinct keys gives strictly increasing ones. */
  lemma {:induction false} SortByKeepsDistinct<A>(s: seq<A>, key: A -> nat)
    requires DistinctKeys(s, key)
    ensures DistinctKeys(SortBy(s, key), key)
  {
    SortByIsStable(s, key);
    var r := SortBy(s, key);
    forall i, j | 0 <= i < j < |r| ensures key(r[i]) != key(r[j]) {
      if key(r[i]) == key(r[j]) {
        TwoSelected(r, key, i, j);
        DistinctSelect(s, key, key(r[i]));
      }
    }
  }

  // ----- reading a sorted stream -----

  /** What is left of a sorted stream is the selection of the keys not yet reached. */
  lemma {:induction false} SortedIsSelectRange<A>(s: seq<A>, key: A -> nat, i: nat, lo: nat, hi: nat)
    requires Sorted(s, key) && i <= |s| && lo <= hi
    requires forall x :: 0 <= x < |s| ==> (lo <= key(s[x]) <==> i <= x)
    requires forall x :: 0 <= x < |s| ==> key(s[x]) < hi
    ensures SelectRange(s, key, lo, hi) == s[i..]
    decreases hi - lo
  {
    if lo < hi {
      var j := RunEnd(s, key, i, lo);
      SelectRun(s, key, i, j, lo);
      SortedIsSelectRange(s, key, j, lo + 1, hi);
      assert s[i..] == s[i..j] + s[j..];
    }
  }

  /** The end of the run of key `k` that starts at `i`. */
  lemma RunEnd<A>(s: seq<A>, key: A -> nat, i: nat, k: nat) returns (j: nat)
    requires Sorted(s, key) && i <= |s|
    requires forall x :: 0 <= x < |s| ==> (k <= key(s[x]) <==> i <= x)
    ensures i <= j <= |s|
    ensures forall x :: 0 <= x < |s| ==> (key(s[x]) == k <==> i <= x < j)
    ensures forall x :: 0 <= x < |s| ==> (k + 1 <= key(s[x]) <==> j <= x)
  {
    j := i;
    while j < |s| && key(s[j]) == k
      invariant i <= j <= |s|
      invariant forall x :: i <= x < j ==> key(s[x]) == k
    {
      j := j + 1;
    }
  }

  /** Laying the keys out in order gives a sorted sequence back. */
  lemma {:induction false} SortedIsItsSelection<A>(s: seq<A>, key: A -> nat, hi: nat)
    requires Sorted(s, key) && forall x :: 0 <= x < |s| ==> key(s[x]) < hi
    ensures SelectRange(s, key, 0, hi) == s
  {
    SortedIsSelectRange(s, key, 0, 0, hi);
  }

  lemma {:induction false} SelectRangeOfSame<A>(s: seq<A>, t: seq<A>, key: A -> nat, lo: nat, hi: nat)
    requires forall k :: Select(s, key, k) == Select(t, key, k)
    ensures SelectRange(s, key, lo, hi) == SelectRange(t, key, lo, hi)
    decreases hi - lo
  {
    if lo < hi {
      SelectRangeOfSame(s, t, key, lo + 1, hi);
    }
  }

  lemma {:induction false} SelectRangeSplit<A>(s: seq<A>, key: A -> nat, lo: nat, mid: nat, hi: nat)
    requires lo <= mid <= hi
    ensures SelectRange(s, key, lo, hi) == SelectRange(s, key, lo, mid) + SelectRange(s, key, mid, hi)
    decreases mid - lo
  {
    if lo < mid {
      SelectRangeSplit(s, key, lo + 1, mid, hi);
    }
  }

  /** One more than every key. */
  function Bound<A>(s: seq<A>, key: A -> nat): (b: nat)
    ensures forall i :: 0 <= i < |s| ==> key(s[i]) < b
  {
    if s == [] then 0
    else
      var b := Bound(s[..|s| - 1], key);
      if key(s[|s| - 1]) < b then b else key(s[|s| - 1]) + 1
  }
}
