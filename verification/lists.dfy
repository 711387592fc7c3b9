/** Lists without repeats, and how often an element stands in a list. */
module Lists {
  import opened Bits

  predicate NoRepeats<T(==)>(s: seq<T>) {
    forall i, j :: 0 <= i < j < |s| ==> s[i] != s[j]
  }

  lemma TwoEqual<T>(t: seq<T>, i: nat, j: nat)
    requires i < j < |t| && t[i] == t[j]
    ensures multiset(t)[t[i]] >= 2
  {
    assert t == t[..i] + [t[i]] + t[i + 1..j] + [t[j]] + t[j + 1..];
  }

  lemma {:induction false} CountOne<T>(s: seq<T>, x: T)
    requires NoRepeats(s)
    ensures multiset(s)[x] <= 1
    decreases |s|
  {
    if s != [] {
      var (front, last) := (s[..|s| - 1], s[|s| - 1]);
      assert s == front + [last];
      CountOne(front, x);
      assert forall i :: 0 <= i < |front| ==> front[i] != last;
      assert last !in front;
    }
  }

  lemma NoRepeatsByCount<T>(s: seq<T>, t: seq<T>)
    requires NoRepeats(s) && multiset(s) == multiset(t)
    ensures NoRepeats(t)
  {
    forall i, j | 0 <= i < j < |t| ensures t[i] != t[j] {
      CountOne(s, t[i]);
      if t[i] == t[j] {
        TwoEqual(t, i, j);
      }
    }
  }

  /** Two repeat-free lists of the same elements are permutations of each other. */
  lemma SameElements<T>(s: seq<T>, t: seq<T>)
    requires NoRepeats(s) && NoRepeats(t) && forall x :: x in s <==> x in t
    ensures multiset(s) == multiset(t)
  {
    forall x: T ensures multiset(s)[x] == multiset(t)[x] {
      CountOne(s, x);
      CountOne(t, x);
      assert x in multiset(s) <==> x in s;
      assert x in multiset(t) <==> x in t;
    }
  }

  /** A repeat-free list of a set is as long as the set. */
  lemma {:induction false} ListSize<T>(s: seq<T>, all: set<T>)
    requires NoRepeats(s) && forall x :: x in s <==> x in all
    ensures |s| == |all|
    decreases |s|
  {
    if s == [] {
      assert all == {};
    } else {
      var (front, last) := (s[..|s| - 1], s[|s| - 1]);
      assert s == front + [last];
      assert forall i :: 0 <= i < |front| ==> front[i] != last;
      ListSize(front, all - {last});
    }
  }

  /** How often x stands in a list. */
  function Times<T(==)>(s: seq<T>, x: T): nat {
    if s == [] then 0 else Times(s[..|s| - 1], x) + Bit(s[|s| - 1] == x)
  }

  lemma TimesPush<T>(s: seq<T>, last: T, x: T)
    ensures Times(s + [last], x) == Times(s, x) + Bit(last == x)
  {
    assert (s + [last])[..|s|] == s;
  }

  lemma {:induction false} TimesWithout<T>(s: seq<T>, k: nat, x: T)
    requires k < |s|
    ensures Times(s, x) == Times(s[..k] + s[k + 1..], x) + Bit(s[k] == x)
    decreases |s|
  {
    var (front, last) := (s[..|s| - 1], s[|s| - 1]);
    if k == |front| {
      assert s[..k] + s[k + 1..] == front;
    } else {
      TimesWithout(front, k, x);
      assert s[..k] + s[k + 1..] == (front[..k] + front[k + 1..]) + [last];
      TimesPush(front[..k] + front[k + 1..], last, x);
    }
  }
}
