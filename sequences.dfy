/** Sequence helpers shared by the retention classifier and the local
    rotation: an order-preserving filter, and the stable newest-first sort
    that Python's `list.sort(key=k, reverse=True)` and
    `sorted(xs, key=k, reverse=True)` perform. Python documents that
    `reverse=True` keeps equal keys in their original order, so the sort is
    specified here as a stable insertion sort on a descending key. */
module Sequences {

  /** The elements of `s` that satisfy `p`, in their original order. */
  function Filter<T>(s: seq<T>, p: T -> bool): (r: seq<T>)
    ensures |r| <= |s|
  {
    if s == [] then [] else (if p(s[0]) then [s[0]] else []) + Filter(s[1..], p)
  }

  /** `key` never increases from left to right. */
  predicate IsSortedDesc<T>(s: seq<T>, key: T -> int)
  {
    forall i, j :: 0 <= i < j < |s| ==> key(s[i]) >= key(s[j])
  }

  /** Inserts `x` into the descending sequence `s` in front of the first
      element whose key is not larger than its own, so `x` precedes the
      elements of `s` that share its key. */
  function Insert<T>(x: T, s: seq<T>, key: T -> int): (r: seq<T>)
    ensures |r| == |s| + 1
    ensures multiset(r) == multiset(s) + multiset{x}
  {
    if s == [] || key(x) >= key(s[0]) then [x] + s
    else
      assert s == [s[0]] + s[1..];
      [s[0]] + Insert(x, s[1..], key)
  }

  /** Stable sort, largest key first: elements with equal keys keep the
      order they have in `s`. */
  function SortDesc<T>(s: seq<T>, key: T -> int): (r: seq<T>)
    ensures |r| == |s|
    ensures multiset(r) == multiset(s)
  {
    if s == [] then []
    else
      assert s == [s[0]] + s[1..];
      Insert(s[0], SortDesc(s[1..], key), key)
  }

  /** The predicate "has key `v`". */
  function HasKey<T>(key: T -> int, v: int): T -> bool
  {
    x => key(x) == v
  }

  /** `i` is the position of the first element of `s` whose key is maximal. */
  predicate IsFirstMax<T>(s: seq<T>, key: T -> int, i: int)
  {
    0 <= i < |s| &&
    (forall j :: 0 <= j < |s| ==> key(s[j]) <= key(s[i])) &&
    (forall j :: 0 <= j < i ==> key(s[j]) < key(s[i]))
  }

  /** Reference definition, independent of the sort: the first position of
      a maximal key, found by a scan. */
  function FirstMaxIndex<T>(s: seq<T>, key: T -> int): (i: nat)
    requires s != []
    ensures IsFirstMax(s, key, i)
  {
    if |s| == 1 then 0
    else
      var j := FirstMaxIndex(s[1..], key) + 1;
      if key(s[0]) >= key(s[j]) then 0 else j
  }

  // ---------------------------------------------------------------------
  // Filter

  /** The filter holds exactly the elements that pass. */
  lemma {:induction false} FilterMembers<T>(s: seq<T>, p: T -> bool)
    ensures forall i :: 0 <= i < |Filter(s, p)| ==> Filter(s, p)[i] in s && p(Filter(s, p)[i])
    ensures forall i :: 0 <= i < |s| && p(s[i]) ==> s[i] in Filter(s, p)
  {
    if s != [] {
      FilterMembers(s[1..], p);
      var r := Filter(s, p);
      var rest := Filter(s[1..], p);
      assert r == (if p(s[0]) then [s[0]] else []) + rest;
      forall i | 0 <= i < |s| && p(s[i]) ensures s[i] in r {
        if i > 0 { assert s[i] == s[1..][i - 1]; }
      }
      forall i | 0 <= i < |r| ensures r[i] in s && p(r[i]) {
        if !p(s[0]) || i > 0 {
          var k := if p(s[0]) then i - 1 else i;
          assert r[i] == rest[k];
          assert rest[k] in s[1..];
        }
      }
    }
  }

  lemma {:induction false} FilterAppend<T>(a: seq<T>, b: seq<T>, p: T -> bool)
    ensures Filter(a + b, p) == Filter(a, p) + Filter(b, p)
  {
    if a == [] {
      assert a + b == b;
    } else {
      var h := if p(a[0]) then [a[0]] else [];
      calc {
        Filter(a + b, p);
        h + Filter((a + b)[1..], p);
        { assert (a + b)[1..] == a[1..] + b; }
        h + Filter(a[1..] + b, p);
        { FilterAppend(a[1..], b, p); }
        h + (Filter(a[1..], p) + Filter(b, p));
        (h + Filter(a[1..], p)) + Filter(b, p);
      }
    }
  }

  lemma {:induction false} FilterCommutes<T>(s: seq<T>, p: T -> bool, q: T -> bool)
    ensures Filter(Filter(s, p), q) == Filter(Filter(s, q), p)
  {
    if s != [] {
      var x := s[0];
      FilterCommutes(s[1..], p, q);
      var fp := (if p(x) then [x] else []) + Filter(s[1..], p);
      var fq := (if q(x) then [x] else []) + Filter(s[1..], q);
      FilterAppend(if p(x) then [x] else [], Filter(s[1..], p), q);
      FilterAppend(if q(x) then [x] else [], Filter(s[1..], q), p);
    }
  }

  /** Filtering keeps the head when the head passes. */
  lemma {:induction false} FilterKeepsHead<T>(s: seq<T>, p: T -> bool)
    requires s != [] && p(s[0])
    ensures Filter(s, p) != [] && Filter(s, p)[0] == s[0]
  {
  }

  /** Prepending an element no smaller than the rest keeps a sequence
      descending. */
  lemma {:induction false} SortedCons<T>(y: T, t: seq<T>, key: T -> int)
    requires IsSortedDesc(t, key)
    requires forall z :: z in t ==> key(z) <= key(y)
    ensures IsSortedDesc([y] + t, key)
  {
    var r := [y] + t;
    forall i, j | 0 <= i < j < |r| ensures key(r[i]) >= key(r[j]) {
      assert r[j] == t[j - 1];
      if i > 0 {
        assert r[i] == t[i - 1];
      } else {
        assert r[j] in t;
      }
    }
  }

  lemma {:induction false} FilterSorted<T>(s: seq<T>, key: T -> int, p: T -> bool)
    requires IsSortedDesc(s, key)
    ensures IsSortedDesc(Filter(s, p), key)
  {
    if s != [] {
      FilterSorted(s[1..], key, p);
      FilterMembers(s[1..], p);
      var rest := Filter(s[1..], p);
      forall y | y in rest ensures key(y) <= key(s[0]) {
        var k :| 0 <= k < |rest| && rest[k] == y;
        assert y in s[1..];
        var m :| 0 <= m < |s[1..]| && s[1..][m] == y;
        assert s[m + 1] == y;
      }
      if p(s[0]) {
        SortedCons(s[0], rest, key);
      }
    }
  }

  // ---------------------------------------------------------------------
  // The sort is sorted, stable, and commutes with filtering

  lemma {:induction false} InsertSorted<T>(x: T, s: seq<T>, key: T -> int)
    requires IsSortedDesc(s, key)
    ensures IsSortedDesc(Insert(x, s, key), key)
    ensures Insert(x, s, key)[0] == x || (s != [] && Insert(x, s, key)[0] == s[0])
  {
    if s == [] || key(x) >= key(s[0]) {
      forall z | z in s ensures key(z) <= key(x) {
        var k :| 0 <= k < |s| && s[k] == z;
      }
      SortedCons(x, s, key);
    } else {
      InsertSorted(x, s[1..], key);
      var t := Insert(x, s[1..], key);
      forall z | z in t ensures key(z) <= key(s[0]) {
        assert z in multiset(t);
        assert z in multiset(s[1..]) + multiset{x};
        if z != x {
          assert z in s[1..];
          var k :| 0 <= k < |s[1..]| && s[1..][k] == z;
          assert s[k + 1] == z;
        }
      }
      SortedCons(s[0], t, key);
    }
  }

  lemma {:induction false} SortIsSorted<T>(s: seq<T>, key: T -> int)
    ensures IsSortedDesc(SortDesc(s, key), key)
  {
    if s != [] {
      SortIsSorted(s[1..], key);
      InsertSorted(s[0], SortDesc(s[1..], key), key);
    }
  }

  lemma {:induction false} FilterCons<T>(x: T, s: seq<T>, p: T -> bool)
    ensures Filter([x] + s, p) == if p(x) then [x] + Filter(s, p) else Filter(s, p)
  {
    assert ([x] + s)[0] == x && ([x] + s)[1..] == s;
  }

  /** The first element that passes a filter of a descending sequence has
      no larger key than the head. */
  lemma {:induction false} FilterFrontKey<T>(l: seq<T>, key: T -> int, p: T -> bool)
    requires IsSortedDesc(l, key) && l != []
    ensures Filter(l, p) != [] ==> key(Filter(l, p)[0]) <= key(l[0])
  {
    var fl := Filter(l, p);
    if fl != [] {
      FilterMembers(l, p);
      assert fl[0] in l;
      var k :| 0 <= k < |l| && l[k] == fl[0];
    }
  }

  lemma {:induction false} InsertCons<T>(x: T, y: T, s: seq<T>, key: T -> int)
    requires key(x) < key(y)
    ensures Insert(x, [y] + s, key) == [y] + Insert(x, s, key)
  {
    assert ([y] + s)[0] == y && ([y] + s)[1..] == s;
  }

  lemma {:induction false} FilterInsert<T>(x: T, l: seq<T>, key: T -> int, p: T -> bool)
    requires IsSortedDesc(l, key)
    ensures Filter(Insert(x, l, key), p) ==
            if p(x) then Insert(x, Filter(l, p), key) else Filter(l, p)
  {
    if l == [] || key(x) >= key(l[0]) {
      assert Insert(x, l, key) == [x] + l;
      FilterCons(x, l, p);
      if l != [] {
        FilterFrontKey(l, key, p);
      }
    } else {
      var l0, l' := l[0], l[1..];
      assert l == [l0] + l';
      assert IsSortedDesc(l', key);
      FilterInsert(x, l', key, p);
      var t := Insert(x, l', key);
      assert Insert(x, l, key) == [l0] + t;
      FilterCons(l0, t, p);
      FilterCons(l0, l', p);
      if p(x) && p(l0) {
        InsertCons(x, l0, Filter(l', p), key);
      }
    }
  }

  /** Sorting and filtering commute: the elements of a bucket appear in the
      sorted sequence in the order the sort gives the bucket alone. */
  lemma {:induction false} SortFilter<T>(s: seq<T>, key: T -> int, p: T -> bool)
    ensures SortDesc(Filter(s, p), key) == Filter(SortDesc(s, key), p)
  {
    if s != [] {
      var x, rest := s[0], s[1..];
      SortFilter(rest, key, p);
      SortIsSorted(rest, key);
      FilterInsert(x, SortDesc(rest, key), key, p);
      var fr := Filter(rest, p);
      if p(x) {
        calc {
          SortDesc(Filter(s, p), key);
          { assert Filter(s, p) == [x] + fr; assert ([x] + fr)[1..] == fr; }
          Insert(x, SortDesc(fr, key), key);
          Insert(x, Filter(SortDesc(rest, key), p), key);
          Filter(SortDesc(s, key), p);
        }
      } else {
        assert Filter(s, p) == fr;
      }
    }
  }

  lemma {:induction false} SortOfEqualKeys<T>(s: seq<T>, key: T -> int, v: int)
    requires forall x :: x in s ==> key(x) == v
    ensures SortDesc(s, key) == s
  {
    if s != [] {
      SortOfEqualKeys(s[1..], key, v);
      assert s[1..] == [] || s[1] in s;
    }
  }

  /** Stability: the elements that share a key come out of the sort in the
      order they went in. */
  lemma {:induction false} SortIsStable<T>(s: seq<T>, key: T -> int, v: int)
    ensures Filter(SortDesc(s, key), HasKey(key, v)) == Filter(s, HasKey(key, v))
  {
    var f := Filter(s, HasKey(key, v));
    FilterMembers(s, HasKey(key, v));
    forall x | x in f ensures key(x) == v {
      var i :| 0 <= i < |f| && f[i] == x;
      assert HasKey(key, v)(f[i]);
    }
    SortFilter(s, key, HasKey(key, v));
    SortOfEqualKeys(f, key, v);
  }

  /** The head of the sort is the first element of maximal key. */
  lemma {:induction false} SortHead<T>(s: seq<T>, key: T -> int)
    requires s != []
    ensures SortDesc(s, key)[0] == s[FirstMaxIndex(s, key)]
  {
    if |s| > 1 {
      SortHead(s[1..], key);
      var t := SortDesc(s[1..], key);
      var j := FirstMaxIndex(s[1..], key);
      assert t[0] == s[j + 1];
      var i := FirstMaxIndex(s, key);
      if key(s[0]) >= key(t[0]) {
        assert SortDesc(s, key)[0] == s[0];
        assert i == 0;
      } else {
        assert SortDesc(s, key)[0] == t[0];
        assert i == j + 1;
      }
    }
  }
}
