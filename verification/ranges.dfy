/** Range tables and what looking an address up in one should mean: web/netmon/asn.go, geoip.go. */
module Ranges {
  import opened StableSort

  datatype Range = Range(lo: nat, hi: nat)

  predicate Contains(r: Range, x: nat) {
    r.lo <= x <= r.hi
  }

  predicate SortedByStart(rs: seq<Range>) {
    forall i, j :: 0 <= i < j < |rs| ==> rs[i].lo <= rs[j].lo
  }

  /** The linear scan: the greatest index whose range contains x, or -1. */
  function Scan(rs: seq<Range>, x: nat): (k: int)
    ensures -1 <= k < |rs|
  {
    if rs == [] then -1
    else if Contains(rs[|rs| - 1], x) then |rs| - 1
    else Scan(rs[..|rs| - 1], x)
  }

  lemma {:induction false} ScanMeaning(rs: seq<Range>, x: nat)
    ensures Scan(rs, x) >= 0 ==> Contains(rs[Scan(rs, x)], x)
    ensures forall i :: Scan(rs, x) < i < |rs| ==> !Contains(rs[i], x)
    decreases |rs|
  {
    if rs != [] && !Contains(rs[|rs| - 1], x) {
      ScanMeaning(rs[..|rs| - 1], x);
    }
  }

  lemma ScanIs(rs: seq<Range>, x: nat, k: int)
    requires -1 <= k < |rs| && (k >= 0 ==> Contains(rs[k], x))
    requires forall i :: k < i < |rs| ==> !Contains(rs[i], x)
    ensures Scan(rs, x) == k
  {
    ScanMeaning(rs, x);
  }

  /** The running maximum of ends: maxend[k]. */
  function MaxEnd(rs: seq<Range>, k: nat): nat
    requires k < |rs|
  {
    if k == 0 then rs[0].hi else if rs[k].hi > MaxEnd(rs, k - 1) then rs[k].hi else MaxEnd(rs, k - 1)
  }

  lemma {:induction false} MaxEndBounds(rs: seq<Range>, k: nat, i: nat)
    requires i <= k < |rs|
    ensures rs[i].hi <= MaxEnd(rs, k)
    decreases k
  {
    if i < k {
      MaxEndBounds(rs, k - 1, i);
    }
  }

  /** When the walk stops, nothing further back can contain x. */
  lemma NothingBehind(rs: seq<Range>, x: nat, j: int)
    requires -1 <= j < |rs| && (j >= 0 ==> MaxEnd(rs, j) < x)
    ensures forall i :: 0 <= i <= j ==> !Contains(rs[i], x)
  {
    forall i | 0 <= i <= j ensures !Contains(rs[i], x) {
      MaxEndBounds(rs, j, i);
    }
  }

  // ---------------------------------------------------------- most specific

  /** r lies within every range that contains x. */
  predicate MostSpecific(rs: seq<Range>, r: Range, x: nat) {
    forall i :: 0 <= i < |rs| && Contains(rs[i], x) ==> rs[i].lo <= r.lo && r.hi <= rs[i].hi
  }

  /**
   * A range that starts inside another one also ends inside it; a range with its end before its start starts
   * nowhere.
   */
  predicate PairwiseNested(rs: seq<Range>) {
    forall i, j :: 0 <= i < |rs| && 0 <= j < |rs| && i != j && StartsInside(rs[j], rs[i]) ==> rs[j].hi <= rs[i].hi
  }

  predicate StartsInside(inner: Range, outer: Range) {
    inner.lo <= inner.hi && Contains(outer, inner.lo)
  }

  ghost predicate AlwaysMostSpecific(rs: seq<Range>) {
    forall x: nat :: Scan(rs, x) >= 0 ==> MostSpecific(rs, rs[Scan(rs, x)], x)
  }

  /** Whatever ascending order an unstable sort leaves, the answers are the most specific ranges. */
  ghost predicate EveryOrderMostSpecific(rs: seq<Range>) {
    forall s: seq<Range> :: multiset(s) == multiset(rs) && SortedByStart(s) ==> AlwaysMostSpecific(s)
  }

  /** Every answer is the most specific range, in every order the sort may leave, exactly when the table is nested. */
  lemma MostSpecificExactly(rs: seq<Range>)
    ensures EveryOrderMostSpecific(rs) <==> PairwiseNested(rs)
  {
    if PairwiseNested(rs) {
      forall s: seq<Range> | multiset(s) == multiset(rs) && SortedByStart(s) ensures AlwaysMostSpecific(s) {
        forall r | r in s ensures r in rs {
          assert r in multiset(s);
        }
        forall x: nat | Scan(s, x) >= 0 ensures MostSpecific(s, s[Scan(s, x)], x) {
          NestedAnswer(rs, s, x);
        }
      }
    }
    if EveryOrderMostSpecific(rs) {
      forall i, j | 0 <= i < |rs| && 0 <= j < |rs| && i != j && StartsInside(rs[j], rs[i])
        ensures rs[j].hi <= rs[i].hi
      {
        var s, k := LastOfItsStart(rs, j);
        ScanIs(s, rs[j].lo, k);
        assert rs[i] in multiset(s);
        var m :| 0 <= m < |s| && s[m] == rs[i];
        assert MostSpecific(s, s[k], rs[j].lo);
      }
    }
  }

  lemma NestedAnswer(rs: seq<Range>, s: seq<Range>, x: nat)
    requires PairwiseNested(rs) && SortedByStart(s) && (forall r :: r in s ==> r in rs) && Scan(s, x) >= 0
    ensures MostSpecific(s, s[Scan(s, x)], x)
  {
    var k := Scan(s, x);
    ScanMeaning(s, x);
    assert s[k] in s;
    var j :| 0 <= j < |rs| && rs[j] == s[k];
    forall m | 0 <= m < |s| && Contains(s[m], x) ensures s[m].lo <= s[k].lo && s[k].hi <= s[m].hi {
      assert m <= k && s[m] in s;
      var i :| 0 <= i < |rs| && rs[i] == s[m];
      assert StartsInside(rs[j], rs[i]);
    }
  }

  function ByStart(): Range -> real {
    (r: Range) => r.lo as real
  }

  /** An ascending order in which row j stands behind every other row with its start. */
  lemma LastOfItsStart(rs: seq<Range>, j: nat) returns (s: seq<Range>, k: nat)
    requires j < |rs|
    ensures multiset(s) == multiset(rs) && SortedByStart(s)
    ensures k < |s| && s[k] == rs[j] && forall m :: k < m < |s| ==> s[m].lo > rs[j].lo
  {
    s, k := LastOfItsKey(rs, j, ByStart());
    forall p, q | 0 <= p < q < |s| ensures s[p].lo <= s[q].lo {
      assert ByStart()(s[p]) <= ByStart()(s[q]);
    }
    forall m | k < m < |s| ensures s[m].lo > rs[j].lo {
      assert ByStart()(s[m]) > ByStart()(rs[j]);
    }
  }

  /** Two rows with one start: the answer depends on the order the unstable sort happened to leave. */
  lemma EqualStartsAreAmbiguous()
    ensures var (wide, narrow) := (Range(0, 9), Range(0, 4));
      && !PairwiseNested([wide, narrow]) && !EveryOrderMostSpecific([wide, narrow])
      && MostSpecific([wide, narrow], [wide, narrow][Scan([wide, narrow], 2)], 2)
      && !MostSpecific([narrow, wide], [narrow, wide][Scan([narrow, wide], 2)], 2)
  {
    var (wide, narrow) := (Range(0, 9), Range(0, 4));
    ScanIs([wide, narrow], 2, 1);
    ScanIs([narrow, wide], 2, 1);
    assert Contains([narrow, wide][0], 2);
    assert StartsInside([wide, narrow][0], [wide, narrow][1]);
    MostSpecificExactly([wide, narrow]);
  }
}
