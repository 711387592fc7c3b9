/** Index arithmetic for rows of equal width packed into one array. */
module Strides {
  lemma NonNegative(a: nat, b: nat)
    ensures a * b >= 0
  {}

  lemma RowsApart(w: nat, i: nat, t: nat)
    requires i != t
    ensures (t + 1) * w <= i * w || (i + 1) * w <= t * w
  {
    if t < i {
      assert (i - (t + 1)) * w == i * w - (t + 1) * w;
      NonNegative(i - (t + 1), w);
    } else {
      assert (t - (i + 1)) * w == t * w - (i + 1) * w;
      NonNegative(t - (i + 1), w);
    }
  }

  lemma RowFits(w: nat, i: nat, n: nat)
    requires i < n
    ensures 0 <= i * w && i * w + w == (i + 1) * w <= n * w
  {
    NonNegative(i, w);
    assert (n - (i + 1)) * w == n * w - (i + 1) * w;
    NonNegative(n - (i + 1), w);
  }

  function Cut<T>(s: seq<T>, lo: int, hi: int): seq<T> {
    if 0 <= lo <= hi <= |s| then s[lo..hi] else []
  }

  /** Row t of a table of rows of w cells; empty when it does not fit. */
  function Row<T>(table: seq<T>, w: nat, t: nat): seq<T> {
    Cut(table, t * w, (t + 1) * w)
  }

  /** Nothing changed except between lo and hi. */
  ghost predicate SameOutside<T>(before: seq<T>, after: seq<T>, lo: int, hi: int) {
    && |before| == |after|
    && forall k {:trigger after[k]} :: 0 <= k < |before| && !(lo <= k < hi) ==> after[k] == before[k]
  }

  lemma RowKept<T>(before: seq<T>, after: seq<T>, w: nat, i: nat, t: nat)
    requires i != t && SameOutside(before, after, i * w, (i + 1) * w)
    ensures Row(after, w, t) == Row(before, w, t)
  {
    RowsApart(w, i, t);
    var (lo, hi) := (t * w, (t + 1) * w);
    assert hi == lo + w;
    assert Cut(after, lo, hi) == Cut(before, lo, hi);
  }
}
