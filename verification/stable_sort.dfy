/**
 * sort.SliceStable as a function: ascending by a real key, ties in their original order.
 * The last section shows that no other function meets that description.
 */
module StableSort {
  /** Puts x behind the elements that are not greater. */
  function Insert<T>(s: seq<T>, x: T, key: T -> real): (r: seq<T>)
    ensures |r| == |s| + 1
  {
    if s == [] || key(s[|s| - 1]) <= key(x) then s + [x]
    else Insert(s[..|s| - 1], x, key) + [s[|s| - 1]]
  }

  function Sort<T>(s: seq<T>, key: T -> real): (r: seq<T>)
    ensures |r| == |s|
  {
    if s == [] then [] else Insert(Sort(s[..|s| - 1], key), s[|s| - 1], key)
  }

  predicate Sorted<T>(s: seq<T>, key: T -> real) {
    forall i, j :: 0 <= i < j < |s| ==> key(s[i]) <= key(s[j])
  }

  function Filter<T>(s: seq<T>, p: T -> bool): (r: seq<T>)
    ensures |r| <= |s|
  {
    if s == [] then [] else Filter(s[..|s| - 1], p) + (if p(s[|s| - 1]) then [s[|s| - 1]] else [])
  }

  function HasKey<T>(key: T -> real, v: real): T -> bool {
    x => key(x) == v
  }

  /** The elements with a given key. */
  function WithKey<T>(s: seq<T>, key: T -> real, v: real): seq<T> {
    Filter(s, HasKey(key, v))
  }

  // ---------------------------------------------------------- filters

  lemma FilterPush<T>(s: seq<T>, x: T, p: T -> bool)
    ensures Filter(s + [x], p) == if p(x) then Filter(s, p) + [x] else Filter(s, p)
  {
    assert (s + [x])[..|s|] == s;
  }

  lemma NothingKept<T>(s: seq<T>, p: T -> bool)
    ensures s + [] == s && Filter(s, p) + Filter([], p) == Filter(s, p)
  {}

  lemma {:induction false} FilterConcat<T>(s: seq<T>, t: seq<T>, p: T -> bool)
    ensures Filter(s + t, p) == Filter(s, p) + Filter(t, p)
    decreases |t|
  {
    hide Filter;
    if t == [] {
      NothingKept(s, p);
    } else {
      var (front, last) := (t[..|t| - 1], t[|t| - 1]);
      FilterConcat(s, front, p);
      assert s + t == (s + front) + [last] && t == front + [last];
      FilterPush(s + front, last, p);
      FilterPush(front, last, p);
      assert Filter(s, p) + (Filter(front, p) + [last]) == Filter(s, p) + Filter(front, p) + [last];
    }
  }

  lemma {:induction false} FilterMembers<T>(s: seq<T>, p: T -> bool)
    ensures forall x :: x in Filter(s, p) <==> x in s && p(x)
    decreases |s|
  {
    if s != [] {
      FilterMembers(s[..|s| - 1], p);
      assert s == s[..|s| - 1] + [s[|s| - 1]];
    }
  }

  /** Where an element that was kept comes from. */
  lemma KeptFrom<T>(s: seq<T>, p: T -> bool, k: nat) returns (i: nat)
    requires k < |Filter(s, p)|
    ensures i < |s| && s[i] == Filter(s, p)[k] && p(s[i])
    decreases |s|
  {
    if p(s[|s| - 1]) && k == |Filter(s, p)| - 1 {
      i := |s| - 1;
    } else {
      i := KeptFrom(s[..|s| - 1], p, k);
    }
  }

  lemma {:induction false} FilterAll<T>(s: seq<T>, p: T -> bool)
    requires forall x :: x in s ==> p(x)
    ensures Filter(s, p) == s
    decreases |s|
  {
    if s != [] {
      FilterAll(s[..|s| - 1], p);
    }
  }

  // ---------------------------------------------------------- sorted permutation

  lemma {:induction false} InsertSorted<T>(s: seq<T>, x: T, key: T -> real)
    requires Sorted(s, key)
    ensures Sorted(Insert(s, x, key), key)
    ensures multiset(Insert(s, x, key)) == multiset(s) + multiset{x}
    decreases |s|
  {
    if s == [] || key(s[|s| - 1]) <= key(x) {
      InsertAtEnd(s, x, key);
    } else {
      var (front, last) := (s[..|s| - 1], s[|s| - 1]);
      assert s == front + [last];
      InsertBefore(front, last, x, key);
      hide Insert;
      InsertSorted(front, x, key);
      StaysLast(Insert(front, x, key), front, last, x, key);
    }
  }

  lemma StaysLast<T>(inner: seq<T>, front: seq<T>, last: T, x: T, key: T -> real)
    requires multiset(inner) == multiset(front) + multiset{x} && key(x) <= key(last)
    requires forall i :: 0 <= i < |front| ==> key(front[i]) <= key(last)
    ensures forall i :: 0 <= i < |inner| ==> key(inner[i]) <= key(last)
  {
    forall i | 0 <= i < |inner| ensures key(inner[i]) <= key(last) {
      assert inner[i] in multiset(inner);
      assert inner[i] in front || inner[i] == x;
    }
  }

  /** Where the inserted element lands: behind it, everything is greater. */
  lemma {:induction false} InsertPlace<T>(s: seq<T>, x: T, key: T -> real) returns (k: nat)
    requires Sorted(s, key)
    ensures k <= |s| && Insert(s, x, key)[k] == x
    ensures forall m :: k < m <= |s| ==> key(Insert(s, x, key)[m]) > key(x)
    decreases |s|
  {
    if s == [] || key(s[|s| - 1]) <= key(x) {
      k := |s|;
    } else {
      k := InsertPlace(s[..|s| - 1], x, key);
    }
  }

  /** An ascending order in which element j stands behind every other one with its key. */
  lemma LastOfItsKey<T>(xs: seq<T>, j: nat, key: T -> real) returns (s: seq<T>, k: nat)
    requires j < |xs|
    ensures multiset(s) == multiset(xs) && Sorted(s, key)
    ensures k < |s| && s[k] == xs[j] && forall m :: k < m < |s| ==> key(s[m]) > key(xs[j])
  {
    var others := xs[..j] + xs[j + 1..];
    var front := Sort(others, key);
    SortSorted(others, key);
    s := Insert(front, xs[j], key);
    InsertSorted(front, xs[j], key);
    k := InsertPlace(front, xs[j], key);
    assert xs == xs[..j] + [xs[j]] + xs[j + 1..];
  }

  lemma {:induction false} SortSorted<T>(s: seq<T>, key: T -> real)
    ensures Sorted(Sort(s, key), key)
    ensures multiset(Sort(s, key)) == multiset(s)
    decreases |s|
  {
    if s != [] {
      SortSorted(s[..|s| - 1], key);
      InsertSorted(Sort(s[..|s| - 1], key), s[|s| - 1], key);
      assert s == s[..|s| - 1] + [s[|s| - 1]];
    }
  }

  // ---------------------------------------------------------- sorting commutes with filtering

  lemma InsertBefore<T>(f: seq<T>, last: T, x: T, key: T -> real)
    requires key(last) > key(x)
    ensures Insert(f + [last], x, key) == Insert(f, x, key) + [last]
  {
    assert (f + [last])[..|f|] == f;
  }

  lemma InsertAtEnd<T>(f: seq<T>, x: T, key: T -> real)
    requires f == [] || key(f[|f| - 1]) <= key(x)
    ensures Insert(f, x, key) == f + [x]
  {}

  lemma {:induction false} FilterInsert<T>(s: seq<T>, x: T, key: T -> real, p: T -> bool)
    requires Sorted(s, key)
    ensures Filter(Insert(s, x, key), p) == if p(x) then Insert(Filter(s, p), x, key) else Filter(s, p)
    decreases |s|
  {
    hide Filter, Insert;
    if s == [] || key(s[|s| - 1]) <= key(x) {
      InsertAtEnd(s, x, key);
      FilterPush(s, x, p);
      AppendLast(s, x, key, p);
    } else {
      var (front, last) := (s[..|s| - 1], s[|s| - 1]);
      FilterInsert(front, x, key, p);
      InsertInside(front, last, x, key, p);
      assert s == front + [last];
    }
  }

  lemma InsertInside<T>(front: seq<T>, last: T, x: T, key: T -> real, p: T -> bool)
    requires key(last) > key(x)
    requires Filter(Insert(front, x, key), p) == if p(x) then Insert(Filter(front, p), x, key) else Filter(front, p)
    ensures Filter(Insert(front + [last], x, key), p)
         == if p(x) then Insert(Filter(front + [last], p), x, key) else Filter(front + [last], p)
  {
    hide Filter, Insert;
    FilterPush(front, last, p);
    FilterPush(Insert(front, x, key), last, p);
    InsertBefore(front, last, x, key);
    InsertBefore(Filter(front, p), last, x, key);
  }

  lemma LastKept<T>(s: seq<T>, key: T -> real, p: T -> bool, v: real)
    requires Sorted(s, key) && (s == [] || key(s[|s| - 1]) <= v)
    ensures var f := Filter(s, p); f == [] || key(f[|f| - 1]) <= v
  {
    var f := Filter(s, p);
    if f != [] {
      var i := KeptFrom(s, p, |f| - 1);
      assert i < |s| - 1 ==> key(s[i]) <= key(s[|s| - 1]);
    }
  }

  lemma AppendLast<T>(s: seq<T>, x: T, key: T -> real, p: T -> bool)
    requires Sorted(s, key) && (s == [] || key(s[|s| - 1]) <= key(x))
    ensures Insert(Filter(s, p), x, key) == Filter(s, p) + [x]
  {
    hide Filter, Insert;
    LastKept(s, key, p, key(x));
    InsertAtEnd(Filter(s, p), x, key);
  }

  /** Sorting what a filter keeps is filtering what was sorted. */
  lemma {:induction false} SortFilter<T>(s: seq<T>, key: T -> real, p: T -> bool)
    ensures Sort(Filter(s, p), key) == Filter(Sort(s, key), p)
    decreases |s|
  {
    hide Insert, Sort, Filter;
    if s == [] {
      NothingSorted(s, key, p);
    } else {
      var (front, last) := (s[..|s| - 1], s[|s| - 1]);
      assert s == front + [last];
      SortFilter(front, key, p);
      SortSorted(front, key);
      SortPush(front, last, key);
      FilterPush(front, last, p);
      FilterInsert(Sort(front, key), last, key, p);
      SortPush(Filter(front, p), last, key);
    }
  }

  lemma NothingSorted<T>(s: seq<T>, key: T -> real, p: T -> bool)
    requires s == []
    ensures Sort(Filter(s, p), key) == Filter(Sort(s, key), p)
  {}

  lemma SortPush<T>(s: seq<T>, x: T, key: T -> real)
    ensures Sort(s + [x], key) == Insert(Sort(s, key), x, key)
  {
    assert (s + [x])[..|s|] == s;
  }

  // ---------------------------------------------------------- stability, and nothing else

  lemma {:induction false} SortOfEqual<T>(s: seq<T>, key: T -> real, v: real)
    requires forall k :: 0 <= k < |s| ==> key(s[k]) == v
    ensures Sort(s, key) == s
    decreases |s|
  {
    if s != [] {
      SortOfEqual(s[..|s| - 1], key, v);
    }
  }

  /** Elements with equal keys keep their order. */
  lemma SortStable<T>(s: seq<T>, key: T -> real, v: real)
    ensures WithKey(Sort(s, key), key, v) == WithKey(s, key, v)
  {
    hide Sort;
    var p := HasKey(key, v);
    var f := Filter(s, p);
    SortFilter(s, key, p);
    forall k | 0 <= k < |f| ensures key(f[k]) == v {
      var i := KeptFrom(s, p, k);
    }
    hide Filter;
    SortOfEqual(f, key, v);
  }

  lemma SameFront<T>(a: seq<T>, b: seq<T>, end: seq<T>)
    requires a + end == b + end
    ensures a == b
  {
    assert |a| == |b|;
    assert a == (a + end)[..|a|] && b == (b + end)[..|b|];
  }

  lemma LastOfSorted<T>(t: seq<T>, u: seq<T>, key: T -> real)
    requires Sorted(t, key) && Sorted(u, key) && t != []
    requires forall v :: WithKey(t, key, v) == WithKey(u, key, v)
    ensures u != [] && t[|t| - 1] == u[|u| - 1]
  {
    var x := t[|t| - 1];
    var a := WithKey(t, key, key(x));
    assert a == WithKey(u, key, key(x)) && a[|a| - 1] == x;
    FilterMembers(u, HasKey(key, key(x)));
    assert x in a;
    var z := u[|u| - 1];
    var b := WithKey(u, key, key(z));
    assert b == WithKey(t, key, key(z)) && b[|b| - 1] == z;
    FilterMembers(t, HasKey(key, key(z)));
    assert z in b;
  }

  /** Two sorted sequences with the same elements, in the same order among equals, are the same. */
  lemma {:induction false} SortUnique<T>(t: seq<T>, u: seq<T>, key: T -> real)
    requires Sorted(t, key) && Sorted(u, key)
    requires forall v :: WithKey(t, key, v) == WithKey(u, key, v)
    ensures t == u
    decreases |t| + |u|
  {
    if t == [] && u == [] {
    } else if t == [] {
      LastOfSorted(u, t, key);
    } else {
      LastOfSorted(t, u, key);
      var (ft, fu) := (t[..|t| - 1], u[..|u| - 1]);
      assert t == ft + [t[|t| - 1]] && u == fu + [u[|u| - 1]];
      forall v ensures WithKey(ft, key, v) == WithKey(fu, key, v) {
        assert WithKey(t, key, v) == WithKey(u, key, v);
        FilterPush(ft, t[|t| - 1], HasKey(key, v));
        FilterPush(fu, t[|t| - 1], HasKey(key, v));
        if key(t[|t| - 1]) == v {
          SameFront(WithKey(ft, key, v), WithKey(fu, key, v), [t[|t| - 1]]);
        }
      }
      SortUnique(ft, fu, key);
    }
  }

  /** Any stable ascending sort is this one. */
  lemma OnlyStableSort<T>(s: seq<T>, t: seq<T>, key: T -> real)
    requires Sorted(t, key) && forall v :: WithKey(t, key, v) == WithKey(s, key, v)
    ensures t == Sort(s, key)
  {
    SortSorted(s, key);
    forall v ensures WithKey(t, key, v) == WithKey(Sort(s, key), key, v) {
      SortStable(s, key, v);
    }
    SortUnique(t, Sort(s, key), key);
  }
}
