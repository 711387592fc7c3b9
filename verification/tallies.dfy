/** Counting and weighing the elements of a list by a key. */
module Tallies {
  import opened Lists
  import opened Options

  /** How many elements have the key k. */
  function Count<S, K(==)>(xs: seq<S>, key: S -> Option<K>, k: K): nat {
    if xs == [] then 0
    else Count(xs[..|xs| - 1], key, k) + (if key(xs[|xs| - 1]) == Some(k) then 1 else 0)
  }

  /** How many elements have any key. */
  function CountAll<S, K>(xs: seq<S>, key: S -> Option<K>): (n: nat)
    ensures n <= |xs|
  {
    if xs == [] then 0
    else CountAll(xs[..|xs| - 1], key) + (if key(xs[|xs| - 1]).Some? then 1 else 0)
  }

  /** The weights of the elements with the key k, added up. */
  function Weigh<S, K(==)>(xs: seq<S>, key: S -> Option<K>, weight: S -> real, k: K): real {
    if xs == [] then 0.0
    else Weigh(xs[..|xs| - 1], key, weight, k) + (if key(xs[|xs| - 1]) == Some(k) then weight(xs[|xs| - 1]) else 0.0)
  }

  function WeighAll<S, K>(xs: seq<S>, key: S -> Option<K>, weight: S -> real): real {
    if xs == [] then 0.0
    else WeighAll(xs[..|xs| - 1], key, weight) + (if key(xs[|xs| - 1]).Some? then weight(xs[|xs| - 1]) else 0.0)
  }

  function Sum<K>(ks: seq<K>, amount: K -> real): real {
    if ks == [] then 0.0 else Sum(ks[..|ks| - 1], amount) + amount(ks[|ks| - 1])
  }

  function WeightOf<S, K(==)>(xs: seq<S>, key: S -> Option<K>, weight: S -> real): K -> real {
    k => Weigh(xs, key, weight, k)
  }

  function CountOf<S, K(==)>(xs: seq<S>, key: S -> Option<K>): K -> real {
    k => Count(xs, key, k) as real
  }

  function One<S>(): S -> real {
    x => 1.0
  }

  lemma CountPush<S, K>(xs: seq<S>, x: S, key: S -> Option<K>, k: K)
    ensures Count(xs + [x], key, k) == Count(xs, key, k) + if key(x) == Some(k) then 1 else 0
  {
    assert (xs + [x])[..|xs|] == xs;
  }

  lemma WeighPush<S, K>(xs: seq<S>, x: S, key: S -> Option<K>, weight: S -> real, k: K)
    ensures Weigh(xs + [x], key, weight, k) == Weigh(xs, key, weight, k) + if key(x) == Some(k) then weight(x) else 0.0
  {
    assert (xs + [x])[..|xs|] == xs;
  }

  lemma {:induction false} CountIsWeight<S, K>(xs: seq<S>, key: S -> Option<K>, k: K)
    ensures Count(xs, key, k) as real == Weigh(xs, key, One(), k)
    ensures CountAll(xs, key) as real == WeighAll(xs, key, One())
    decreases |xs|
  {
    if xs != [] {
      CountIsWeight(xs[..|xs| - 1], key, k);
    }
  }

  lemma {:induction false} SumSame<K>(ks: seq<K>, a: K -> real, b: K -> real)
    requires forall k :: k in ks ==> a(k) == b(k)
    ensures Sum(ks, a) == Sum(ks, b)
    decreases |ks|
  {
    if ks != [] {
      SumSame(ks[..|ks| - 1], a, b);
    }
  }

  /** Two amounts that differ at one key only, which is listed once. */
  lemma {:induction false} SumChanged<K>(ks: seq<K>, a: K -> real, b: K -> real, changed: K)
    requires NoRepeats(ks) && changed in ks && forall k :: k in ks && k != changed ==> a(k) == b(k)
    ensures Sum(ks, b) == Sum(ks, a) + b(changed) - a(changed)
    decreases |ks|
  {
    var (front, last) := (ks[..|ks| - 1], ks[|ks| - 1]);
    if last == changed {
      SumSame(front, a, b);
    } else {
      assert changed in front;
      SumChanged(front, a, b, changed);
    }
  }

  lemma {:induction false} SumZero<K>(ks: seq<K>, a: K -> real)
    requires forall k :: k in ks ==> a(k) == 0.0
    ensures Sum(ks, a) == 0.0
    decreases |ks|
  {
    if ks != [] {
      SumZero(ks[..|ks| - 1], a);
    }
  }

  /** Adding the weights key by key gives the weight of everything that has a key. */
  lemma {:induction false} Partition<S, K>(ks: seq<K>, xs: seq<S>, key: S -> Option<K>, weight: S -> real)
    requires NoRepeats(ks) && forall x :: x in xs && key(x).Some? ==> key(x).value in ks
    ensures Sum(ks, WeightOf(xs, key, weight)) == WeighAll(xs, key, weight)
    decreases |xs|
  {
    if xs == [] {
      SumZero(ks, WeightOf(xs, key, weight));
    } else {
      var (front, last) := (xs[..|xs| - 1], xs[|xs| - 1]);
      Partition(ks, front, key, weight);
      if key(last).Some? {
        SumChanged(ks, WeightOf(front, key, weight), WeightOf(xs, key, weight), key(last).value);
      } else {
        SumSame(ks, WeightOf(front, key, weight), WeightOf(xs, key, weight));
      }
    }
  }

  /** The same for counts. */
  lemma PartitionCounts<S, K>(ks: seq<K>, xs: seq<S>, key: S -> Option<K>)
    requires NoRepeats(ks) && forall x :: x in xs && key(x).Some? ==> key(x).value in ks
    ensures Sum(ks, CountOf(xs, key)) == CountAll(xs, key) as real
  {
    Partition(ks, xs, key, One());
    forall k | k in ks ensures CountOf(xs, key)(k) == WeightOf(xs, key, One())(k) {
      CountIsWeight(xs, key, k);
    }
    SumSame(ks, CountOf(xs, key), WeightOf(xs, key, One()));
    if ks == [] {
      NoKeys(xs, key);
    } else {
      CountIsWeight(xs, key, ks[0]);
    }
  }

  lemma {:induction false} NoKeys<S, K>(xs: seq<S>, key: S -> Option<K>)
    requires forall x :: x in xs ==> key(x).None?
    ensures CountAll(xs, key) == 0 && WeighAll(xs, key, One()) == 0.0
    decreases |xs|
  {
    if xs != [] {
      NoKeys(xs[..|xs| - 1], key);
    }
  }

  /** Removing one element of a list. */
  lemma {:induction false} WeighWithout<S, K>(xs: seq<S>, i: nat, key: S -> Option<K>, weight: S -> real, k: K)
    requires i < |xs|
    ensures Weigh(xs, key, weight, k)
         == Weigh(xs[..i] + xs[i + 1..], key, weight, k) + if key(xs[i]) == Some(k) then weight(xs[i]) else 0.0
    decreases |xs|
  {
    var (front, last) := (xs[..|xs| - 1], xs[|xs| - 1]);
    if i == |front| {
      assert xs[..i] + xs[i + 1..] == front;
    } else {
      WeighWithout(front, i, key, weight, k);
      assert xs[..i] + xs[i + 1..] == (front[..i] + front[i + 1..]) + [last];
      WeighPush(front[..i] + front[i + 1..], last, key, weight, k);
    }
  }

  /** The order of the elements does not matter. */
  lemma {:induction false} WeighPermuted<S, K>(xs: seq<S>, ys: seq<S>, key: S -> Option<K>, weight: S -> real, k: K)
    requires multiset(xs) == multiset(ys)
    ensures Weigh(xs, key, weight, k) == Weigh(ys, key, weight, k)
    decreases |xs|
  {
    if xs == [] {
      assert |ys| == |multiset(ys)| == 0;
    } else {
      var front := xs[..|xs| - 1];
      var i := LastInOther(xs, ys);
      WeighWithout(ys, i, key, weight, k);
      WeighPermuted(front, ys[..i] + ys[i + 1..], key, weight, k);
    }
  }

  /** The last element of a list stands somewhere in a permutation of it; taking both out leaves permutations. */
  lemma LastInOther<S>(xs: seq<S>, ys: seq<S>) returns (i: nat)
    requires xs != [] && multiset(xs) == multiset(ys)
    ensures i < |ys| && ys[i] == xs[|xs| - 1]
    ensures multiset(xs[..|xs| - 1]) == multiset(ys[..i] + ys[i + 1..])
  {
    var (front, last) := (xs[..|xs| - 1], xs[|xs| - 1]);
    assert xs == front + [last];
    assert last in multiset(ys);
    i :| 0 <= i < |ys| && ys[i] == last;
    assert ys == ys[..i] + [last] + ys[i + 1..];
    assert multiset(front) == multiset(xs) - multiset{last};
  }
}
