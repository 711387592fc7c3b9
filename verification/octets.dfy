/** Byte strings as big-endian numbers, and bytes.Compare. */
module Octets {
  import opened Bits

  type Octet = n: int | 0 <= n < 256
  type Key = seq<Octet>

  function Value(k: Key): nat {
    if k == [] then 0 else k[0] * Pow(256, |k| - 1) + Value(k[1..])
  }

  /** bytes.Compare: lexicographic, a shorter prefix first. */
  function Compare(a: Key, b: Key): int {
    if a == [] && b == [] then 0
    else if a == [] then -1
    else if b == [] then 1
    else if a[0] < b[0] then -1
    else if a[0] > b[0] then 1
    else Compare(a[1..], b[1..])
  }

  lemma {:induction false} ValueBound(k: Key)
    ensures Value(k) < Pow(256, |k|)
    decreases |k|
  {
    if k != [] {
      ValueBound(k[1..]);
      Scale(k[0], 255, Pow(256, |k| - 1));
    }
  }

  lemma Scale(a: nat, b: nat, p: nat)
    requires a <= b
    ensures a * p <= b * p
  {}

  /** On keys of one width, lexicographic order is numeric order. */
  lemma {:induction false} CompareIsNumeric(a: Key, b: Key)
    requires |a| == |b|
    ensures Compare(a, b) < 0 <==> Value(a) < Value(b)
    ensures Compare(a, b) == 0 <==> Value(a) == Value(b)
    ensures Compare(a, b) > 0 <==> Value(a) > Value(b)
    decreases |a|
  {
    if a != [] {
      ValueBound(a[1..]);
      ValueBound(b[1..]);
      LeadingByte(a[0], b[0], Pow(256, |a| - 1), Value(a[1..]), Value(b[1..]));
      CompareIsNumeric(a[1..], b[1..]);
      hide Pow;
    }
  }

  /** The leading byte decides unless it is the same. */
  lemma LeadingByte(a: nat, b: nat, p: nat, restA: nat, restB: nat)
    requires restA < p && restB < p
    ensures a < b ==> a * p + restA < b * p + restB
    ensures b < a ==> b * p + restB < a * p + restA
    ensures a == b ==> a * p == b * p
  {
    if a < b {
      Scale(a + 1, b, p);
      assert (a + 1) * p == a * p + p;
    } else if b < a {
      Scale(b + 1, a, p);
      assert (b + 1) * p == b * p + p;
    }
  }

  /** The last `width` bytes of a number, big end first. */
  function Big(v: nat, width: nat): (k: Key)
    ensures |k| == width
    decreases width
  {
    if width == 0 then [] else Big(v / 256, width - 1) + [v % 256]
  }

  lemma {:induction false} BigValue(v: nat, width: nat)
    requires v < Pow(256, width)
    ensures Value(Big(v, width)) == v
    decreases width
  {
    if width > 0 {
      BigValue(v / 256, width - 1);
      ValueAppend(Big(v / 256, width - 1), v % 256);
    }
  }

  lemma {:induction false} ValueAppend(k: Key, b: Octet)
    ensures Value(k + [b]) == 256 * Value(k) + b
    decreases |k|
  {
    if k == [] {
      assert (k + [b])[1..] == [] && Pow(256, 0) == 1;
    } else {
      assert (k + [b])[1..] == k[1..] + [b];
      ValueAppend(k[1..], b);
      assert k[0] * (256 * Pow(256, |k| - 1)) == 256 * (k[0] * Pow(256, |k| - 1));
    }
  }
}
