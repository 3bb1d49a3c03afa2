/**
 Sequence operations behind the query sets of the backend: keeping the
 rows that pass a filter, and ordering rows by a descending key
 (`order_by('-date')`). The database leaves the order of rows with equal
 keys open; this model fixes it to the order of the input (a stable sort).
 */
module Seqs {

  /** The elements of `s` that satisfy `p`, in their original order. */
  function Filter<T>(s: seq<T>, p: T -> bool): (r: seq<T>)
    ensures |r| <= |s|
  {
    if s == [] then [] else (if p(s[0]) then [s[0]] else []) + Filter(s[1..], p)
  }

  /** The filter keeps exactly the elements that pass. */
  lemma {:induction false} FilterMembers<T>(s: seq<T>, p: T -> bool)
    ensures forall x :: x in Filter(s, p) ==> x in s && p(x)
    ensures forall x :: x in s && p(x) ==> x in Filter(s, p)
  {
    if s != [] {
      FilterMembers(s[1..], p);
      assert s == [s[0]] + s[1..];
    }
  }

  lemma {:induction false} FilterAppend<T>(a: seq<T>, b: seq<T>, p: T -> bool)
    ensures Filter(a + b, p) == Filter(a, p) + Filter(b, p)
  {
    if a == [] {
      assert a + b == b;
    } else {
      var h := if p(a[0]) then [a[0]] else [];
      assert (a + b)[0] == a[0];
      assert (a + b)[1..] == a[1..] + b;
      FilterAppend(a[1..], b, p);
      calc {
        Filter(a + b, p);
        h + Filter(a[1..] + b, p);
        h + (Filter(a[1..], p) + Filter(b, p));
        (h + Filter(a[1..], p)) + Filter(b, p);
        Filter(a, p) + Filter(b, p);
      }
    }
  }

  /** A filter that every element passes keeps the sequence whole. */
  lemma {:induction false} FilterAll<T>(s: seq<T>, p: T -> bool)
    requires forall x :: x in s ==> p(x)
    ensures Filter(s, p) == s
  {
    if s != [] {
      FilterAll(s[1..], p);
    }
  }

  /** Keys do not increase along the sequence. */
  ghost predicate SortedDesc<T>(s: seq<T>, key: T -> int)
  {
    forall i, j :: 0 <= i < j < |s| ==> key(s[i]) >= key(s[j])
  }

  /** Inserts `x` before the first element whose key is not greater than its own. */
  function Insert<T>(x: T, s: seq<T>, key: T -> int): (r: seq<T>)
    ensures multiset(r) == multiset(s) + multiset{x}
  {
    if s == [] || key(s[0]) <= key(x) then [x] + s
    else
      assert s == [s[0]] + s[1..];
      [s[0]] + Insert(x, s[1..], key)
  }

  /** A head whose key bounds every key of a descending tail gives a descending sequence. */
  lemma PrependSorted<T>(h: T, t: seq<T>, key: T -> int)
    requires SortedDesc(t, key)
    requires forall y :: y in t ==> key(h) >= key(y)
    ensures SortedDesc([h] + t, key)
  {
    var r := [h] + t;
    forall i, j | 0 <= i < j < |r| ensures key(r[i]) >= key(r[j]) {
      if i == 0 {
        assert r[j] == t[j - 1];
      } else {
        assert r[i] == t[i - 1] && r[j] == t[j - 1];
      }
    }
  }

  /** Every key of a descending sequence is at most the key of its head. */
  lemma HeadBoundsTail<T>(s: seq<T>, key: T -> int)
    requires s != [] && SortedDesc(s, key)
    ensures forall y :: y in s[1..] ==> key(s[0]) >= key(y)
  {
    forall y | y in s[1..] ensures key(s[0]) >= key(y) {
      var j :| 0 <= j < |s[1..]| && s[1..][j] == y;
      assert s[j + 1] == y;
    }
  }

  /** Inserting into a descending sequence keeps it descending. */
  lemma {:induction false} InsertSorted<T>(x: T, s: seq<T>, key: T -> int)
    requires SortedDesc(s, key)
    ensures SortedDesc(Insert(x, s, key), key)
  {
    if s == [] || key(s[0]) <= key(x) {
      PrependSorted(x, s, key);
    } else {
      var rest := Insert(x, s[1..], key);
      InsertSorted(x, s[1..], key);
      HeadBoundsTail(s, key);
      forall y | y in rest ensures key(s[0]) >= key(y) {
        assert y in multiset(rest);
        if y != x {
          assert y in multiset(s[1..]);
        }
      }
      PrependSorted(s[0], rest, key);
    }
  }

  /** Insertion sort by descending key; stable for equal keys. */
  function SortDesc<T>(s: seq<T>, key: T -> int): seq<T>
  {
    if s == [] then [] else Insert(s[0], SortDesc(s[1..], key), key)
  }

  /** The sort rearranges its input into descending order. */
  lemma {:induction false} SortDescSpec<T>(s: seq<T>, key: T -> int)
    ensures multiset(SortDesc(s, key)) == multiset(s)
    ensures SortedDesc(SortDesc(s, key), key)
  {
    if s != [] {
      assert s == [s[0]] + s[1..];
      SortDescSpec(s[1..], key);
      InsertSorted(s[0], SortDesc(s[1..], key), key);
    }
  }

  /** Taking one element out of a permutation leaves a permutation of the rest. */
  lemma RemoveFromPermutation<T>(a: seq<T>, b: seq<T>) returns (i: nat)
    requires a != [] && multiset(a) == multiset(b)
    ensures i < |b| && b[i] == a[0]
    ensures multiset(a[1..]) == multiset(b[..i] + b[i + 1..])
  {
    var x := a[0];
    assert x in multiset(b);
    i :| 0 <= i < |b| && b[i] == x;
    var b1, b2 := b[..i], b[i + 1..];
    assert b == b1 + [x] + b2;
    assert a == [x] + a[1..];
    calc {
      multiset(a[1..]);
      multiset(a) - multiset{x};
      multiset(b1 + [x] + b2) - multiset{x};
      multiset(b1) + multiset{x} + multiset(b2) - multiset{x};
      multiset(b1 + b2);
    }
  }

  /** Filtering around one element: the element's own contribution separates out. */
  lemma FilterAround<T>(b1: seq<T>, x: T, b2: seq<T>, p: T -> bool)
    ensures multiset(Filter(b1 + [x] + b2, p)) == multiset(Filter([x], p)) + multiset(Filter(b1 + b2, p))
  {
    FilterAppend(b1, b2, p);
    FilterAppend(b1 + [x], b2, p);
    FilterAppend(b1, [x], p);
  }

  /** Filtering a permutation gives a permutation of the filtered sequence. */
  lemma {:induction false} FilterPermutation<T>(a: seq<T>, b: seq<T>, p: T -> bool)
    requires multiset(a) == multiset(b)
    ensures multiset(Filter(a, p)) == multiset(Filter(b, p))
    decreases |a|
  {
    if a == [] {
      assert |b| == |multiset(b)| == 0;
    } else {
      var i := RemoveFromPermutation(a, b);
      var b1, b2 := b[..i], b[i + 1..];
      assert b == b1 + [a[0]] + b2;
      assert a == [a[0]] + a[1..];
      FilterPermutation(a[1..], b1 + b2, p);
      FilterAppend([a[0]], a[1..], p);
      FilterAround(b1, a[0], b2, p);
    }
  }

  /** Sorting before filtering keeps exactly the elements that pass. */
  lemma FilterSortDesc<T>(s: seq<T>, key: T -> int, p: T -> bool)
    ensures multiset(Filter(SortDesc(s, key), p)) == multiset(Filter(s, p))
  {
    SortDescSpec(s, key);
    FilterPermutation(SortDesc(s, key), s, p);
  }

  /** Filtering keeps a descending order. */
  lemma {:induction false} FilterSorted<T>(s: seq<T>, key: T -> int, p: T -> bool)
    requires SortedDesc(s, key)
    ensures SortedDesc(Filter(s, p), key)
  {
    if s != [] {
      FilterSorted(s[1..], key, p);
      FilterMembers(s[1..], p);
      HeadBoundsTail(s, key);
      if p(s[0]) {
        var tail := Filter(s[1..], p);
        forall y | y in tail ensures key(s[0]) >= key(y) {
          assert y in s[1..];
        }
        PrependSorted(s[0], tail, key);
      }
    }
  }

  /** Python slicing `s[lo:hi]` with non-negative bounds: both are clamped to the length. */
  function Slice<T>(s: seq<T>, lo: int, hi: int): (r: seq<T>)
    requires 0 <= lo && 0 <= hi
    ensures lo < hi && lo < |s| ==> |r| == (if hi <= |s| then hi else |s|) - lo
    ensures hi <= lo || |s| <= lo ==> r == []
    ensures forall k :: 0 <= k < |r| ==> r[k] == s[lo + k]
  {
    var a := if lo <= |s| then lo else |s|;
    var b := if hi <= |s| then hi else |s|;
    if a <= b then s[a..b] else []
  }

  /** A slice of a descending sequence is descending. */
  lemma SliceSorted<T>(s: seq<T>, lo: int, hi: int, key: T -> int)
    requires 0 <= lo && 0 <= hi
    requires SortedDesc(s, key)
    ensures SortedDesc(Slice(s, lo, hi), key)
  {
    var r := Slice(s, lo, hi);
    forall i, j | 0 <= i < j < |r| ensures key(r[i]) >= key(r[j]) {
      assert r[i] == s[lo + i] && r[j] == s[lo + j];
    }
  }
}
