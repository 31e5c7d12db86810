/**
 * Python's `sorted(xs, key=k, reverse=True)`: a stable sort into non-increasing key
 * order. Stability means that elements with equal keys keep their input order.
 */
module Sorting {
  ghost predicate NonIncreasing<T>(s: seq<T>, key: T -> int) {
    forall i, j :: 0 <= i < j < |s| ==> key(s[i]) >= key(s[j])
  }

  /** The elements of `s` whose key is `k`, in their order in `s`. */
  function WithKey<T>(s: seq<T>, key: T -> int, k: int): seq<T> {
    if s == [] then [] else (if key(s[0]) == k then [s[0]] else []) + WithKey(s[1..], key, k)
  }

  /** Inserts `x` before the first element whose key is not larger than its own. */
  function Insert<T>(x: T, s: seq<T>, key: T -> int): (r: seq<T>)
    ensures multiset(r) == multiset(s) + multiset{x}
    ensures |r| == |s| + 1
  {
    if s == [] || key(s[0]) <= key(x) then
      [x] + s
    else
      assert s == [s[0]] + s[1..];
      [s[0]] + Insert(x, s[1..], key)
  }

  lemma {:induction false} InsertSorted<T>(x: T, s: seq<T>, key: T -> int)
    requires NonIncreasing(s, key)
    ensures NonIncreasing(Insert(x, s, key), key)
  {
    var r := Insert(x, s, key);
    if s != [] && key(s[0]) > key(x) {
      InsertSorted(x, s[1..], key);
      assert r[1..] == Insert(x, s[1..], key);
      forall j | 0 < j < |r| ensures key(r[0]) >= key(r[j]) {
        assert r[j] in multiset(r[1..]);
        assert r[j] in multiset(s[1..]) + multiset{x};
        if r[j] != x {
          var i :| 0 <= i < |s[1..]| && s[1..][i] == r[j];
          assert s[i + 1] == r[j];
        }
      }
    }
  }

  lemma {:induction false} InsertWithKey<T>(x: T, s: seq<T>, key: T -> int, k: int)
    ensures WithKey(Insert(x, s, key), key, k) == (if key(x) == k then [x] else []) + WithKey(s, key, k)
  {
    var r := Insert(x, s, key);
    var hx := if key(x) == k then [x] else [];
    if s == [] || key(s[0]) <= key(x) {
      assert r[0] == x && r[1..] == s;
      assert WithKey(r, key, k) == hx + WithKey(r[1..], key, k);
    } else {
      var h0 := if key(s[0]) == k then [s[0]] else [];
      assert r[0] == s[0] && r[1..] == Insert(x, s[1..], key);
      InsertWithKey(x, s[1..], key, k);
      assert h0 == [] || hx == [];
      calc {
        WithKey(r, key, k);
        h0 + WithKey(r[1..], key, k);
        h0 + (hx + WithKey(s[1..], key, k));
        hx + (h0 + WithKey(s[1..], key, k));
        hx + WithKey(s, key, k);
      }
    }
  }

  /** `sorted(s, key=key, reverse=True)`, by insertion from the back. */
  function SortDesc<T>(s: seq<T>, key: T -> int): (r: seq<T>)
    ensures multiset(r) == multiset(s)
    ensures |r| == |s|
    ensures NonIncreasing(r, key)
  {
    if s == [] then []
    else
      assert s == [s[0]] + s[1..];
      InsertSorted(s[0], SortDesc(s[1..], key), key);
      Insert(s[0], SortDesc(s[1..], key), key)
  }

  /** Stability: for every key, the elements carrying it come out in input order. */
  lemma {:induction false} SortDescStable<T>(s: seq<T>, key: T -> int, k: int)
    ensures WithKey(SortDesc(s, key), key, k) == WithKey(s, key, k)
  {
    if s != [] {
      SortDescStable(s[1..], key, k);
      InsertWithKey(s[0], SortDesc(s[1..], key), key, k);
    }
  }

  /** The head of a non-empty sorted sequence carries the largest key. */
  lemma SortDescHeadIsMax<T>(s: seq<T>, key: T -> int)
    requires |s| > 0
    ensures SortDesc(s, key)[0] in s
    ensures forall x :: x in s ==> key(x) <= key(SortDesc(s, key)[0])
  {
    var r := SortDesc(s, key);
    assert r[0] in multiset(s);
    forall x | x in s ensures key(x) <= key(r[0]) {
      assert x in multiset(r);
      var j :| 0 <= j < |r| && r[j] == x;
    }
  }

  lemma {:induction false} NoneWithKey<T>(s: seq<T>, key: T -> int, k: int)
    requires forall i :: 0 <= i < |s| ==> key(s[i]) != k
    ensures WithKey(s, key, k) == []
  {
    if s != [] {
      NoneWithKey(s[1..], key, k);
    }
  }

  /** The elements whose key is at least `lo`, in order (a comprehension's filter). */
  function KeyAtLeast<T>(s: seq<T>, key: T -> int, lo: int): seq<T> {
    if s == [] then [] else (if key(s[0]) >= lo then [s[0]] else []) + KeyAtLeast(s[1..], key, lo)
  }

  /** The elements whose key is below `lo`, in order. */
  function KeyBelow<T>(s: seq<T>, key: T -> int, lo: int): seq<T> {
    if s == [] then [] else (if key(s[0]) < lo then [s[0]] else []) + KeyBelow(s[1..], key, lo)
  }

  /** The two filters split `s`: every element lands in exactly one of them. */
  lemma {:induction false} FiltersPartition<T>(s: seq<T>, key: T -> int, lo: int)
    ensures multiset(KeyAtLeast(s, key, lo)) + multiset(KeyBelow(s, key, lo)) == multiset(s)
    ensures forall x :: x in KeyAtLeast(s, key, lo) <==> x in s && key(x) >= lo
    ensures forall x :: x in KeyBelow(s, key, lo) <==> x in s && key(x) < lo
  {
    if s != [] {
      FiltersPartition(s[1..], key, lo);
      assert s == [s[0]] + s[1..];
    }
  }

  /** Filtering on a key threshold keeps whole key classes or drops them. */
  lemma {:induction false} WithKeyOfFilters<T>(s: seq<T>, key: T -> int, lo: int, k: int)
    ensures WithKey(KeyAtLeast(s, key, lo), key, k) == (if k >= lo then WithKey(s, key, k) else [])
    ensures WithKey(KeyBelow(s, key, lo), key, k) == (if k < lo then WithKey(s, key, k) else [])
  {
    if s != [] {
      WithKeyOfFilters(s[1..], key, lo, k);
      var x := s[0];
      var a := if key(x) >= lo then [x] else [];
      var b := if key(x) < lo then [x] else [];
      WithKeyAppend(a, KeyAtLeast(s[1..], key, lo), key, k);
      WithKeyAppend(b, KeyBelow(s[1..], key, lo), key, k);
    }
  }

  lemma WithKeyAppend<T>(a: seq<T>, b: seq<T>, key: T -> int, k: int)
    requires |a| <= 1
    ensures WithKey(a + b, key, k) == WithKey(a, key, k) + WithKey(b, key, k)
  {
    if |a| == 1 {
      assert (a + b)[1..] == b;
    } else {
      assert a + b == b;
    }
  }

  /**
   * The key classes hi, hi-1, ..., lo of `s`, top first, each in its order in `s`:
   * an independent description of a stable descending sort.
   */
  function Bucketed<T>(s: seq<T>, key: T -> int, hi: int, lo: int): seq<T>
    decreases hi - lo
  {
    if hi < lo then [] else WithKey(s, key, hi) + Bucketed(s, key, hi - 1, lo)
  }

  lemma {:induction false} BucketedCongruent<T>(a: seq<T>, b: seq<T>, key: T -> int, hi: int, lo: int)
    requires forall k :: lo <= k <= hi ==> WithKey(a, key, k) == WithKey(b, key, k)
    ensures Bucketed(a, key, hi, lo) == Bucketed(b, key, hi, lo)
    decreases hi - lo
  {
    if hi >= lo {
      BucketedCongruent(a, b, key, hi - 1, lo);
    }
  }

  lemma {:induction false} BucketedSkip<T>(x: T, s: seq<T>, key: T -> int, hi: int, lo: int)
    requires key(x) > hi
    ensures Bucketed([x] + s, key, hi, lo) == Bucketed(s, key, hi, lo)
    decreases hi - lo
  {
    if hi >= lo {
      assert ([x] + s)[1..] == s;
      BucketedSkip(x, s, key, hi - 1, lo);
    }
  }

  lemma {:induction false} BucketedEmptyTop<T>(s: seq<T>, key: T -> int, hi: int, k: int, lo: int)
    requires k <= hi
    requires forall i :: 0 <= i < |s| ==> key(s[i]) <= k
    ensures Bucketed(s, key, hi, lo) == Bucketed(s, key, k, lo)
    decreases hi - k
  {
    if hi > k {
      if hi >= lo {
        NoneWithKey(s, key, hi);
      }
      BucketedEmptyTop(s, key, hi - 1, k, lo);
    }
  }

  lemma {:induction false} BucketedOfEmpty<T>(key: T -> int, hi: int, lo: int)
    ensures Bucketed([], key, hi, lo) == []
    decreases hi - lo
  {
    if hi >= lo {
      BucketedOfEmpty(key, hi - 1, lo);
    }
  }

  /** The tail of a non-increasing sequence is non-increasing, below its head's key. */
  lemma SortedTail<T>(s: seq<T>, key: T -> int, hi: int, lo: int)
    requires |s| > 0 && NonIncreasing(s, key)
    requires forall i :: 0 <= i < |s| ==> lo <= key(s[i]) <= hi
    ensures forall i :: 0 <= i < |s| ==> key(s[i]) <= key(s[0])
    ensures NonIncreasing(s[1..], key)
    ensures forall i :: 0 <= i < |s[1..]| ==> lo <= key(s[1..][i]) <= key(s[0])
  {
    forall i | 0 <= i < |s[1..]| ensures lo <= key(s[1..][i]) <= key(s[0]) {
      assert s[1..][i] == s[i + 1];
    }
  }

  /** A non-increasing sequence whose keys lie in [lo, hi] is its key classes, top first. */
  lemma {:induction false} SortedIsBucketed<T>(s: seq<T>, key: T -> int, hi: int, lo: int)
    requires NonIncreasing(s, key)
    requires forall i :: 0 <= i < |s| ==> lo <= key(s[i]) <= hi
    ensures s == Bucketed(s, key, hi, lo)
  {
    if s == [] {
      BucketedOfEmpty(key, hi, lo);
    } else {
      var x, rest, k := s[0], s[1..], key(s[0]);
      assert s == [x] + rest;
      SortedTail(s, key, hi, lo);
      SortedIsBucketed(rest, key, k, lo);
      BucketedEmptyTop(s, key, hi, k, lo);
      BucketedCons(x, rest, key, lo);
    }
  }

  /** Bucketing from the head's own key down puts the head in front of the tail's buckets. */
  lemma {:induction false} BucketedCons<T>(x: T, rest: seq<T>, key: T -> int, lo: int)
    requires lo <= key(x)
    ensures Bucketed([x] + rest, key, key(x), lo) == [x] + Bucketed(rest, key, key(x), lo)
  {
    BucketedSkip(x, rest, key, key(x) - 1, lo);
    WithKeyCons(x, rest, key);
    ConcatAssoc([x], WithKey(rest, key, key(x)), Bucketed(rest, key, key(x) - 1, lo));
  }

  lemma {:induction false} WithKeyCons<T>(x: T, rest: seq<T>, key: T -> int)
    ensures WithKey([x] + rest, key, key(x)) == [x] + WithKey(rest, key, key(x))
  {
    assert ([x] + rest)[1..] == rest;
  }

  lemma ConcatAssoc<T>(a: seq<T>, b: seq<T>, c: seq<T>)
    ensures (a + b) + c == a + (b + c)
  {
  }

  /**
   * A stable descending sort of keys in [lo, hi] outputs the key classes from hi down
   * to lo, each in input order.
   */
  lemma SortDescIsBucketed<T>(s: seq<T>, key: T -> int, hi: int, lo: int)
    requires forall i :: 0 <= i < |s| ==> lo <= key(s[i]) <= hi
    ensures SortDesc(s, key) == Bucketed(s, key, hi, lo)
  {
    var r := SortDesc(s, key);
    forall i | 0 <= i < |r| ensures lo <= key(r[i]) <= hi {
      assert r[i] in multiset(s);
    }
    SortedIsBucketed(r, key, hi, lo);
    forall k | lo <= k <= hi ensures WithKey(r, key, k) == WithKey(s, key, k) {
      SortDescStable(s, key, k);
    }
    BucketedCongruent(r, s, key, hi, lo);
  }
}
