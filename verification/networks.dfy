/** Networks as net.IPNet holds them: containment by masks is containment in a numeric interval. */
module Networks {
  import opened Bits
  import opened Octets
  import RangeRows

  /** The bare IPv4 form of an IPv4-mapped address, and any other address as it is. */
  function Bare(ip: Key): Key {
    match RangeRows.To4(ip) case Some(v4) => v4 case None => ip
  }

  /** A network: its address as a number, its prefix length, and its width in bytes. */
  datatype Net = Net(base: nat, bits: nat, width: nat) {
    predicate Valid() {
      bits <= 8 * width && base < Pow(256, width) && base % Size() == 0
    }

    /** How many addresses it holds. */
    function Size(): (s: nat)
      requires bits <= 8 * width
      ensures s > 0
    {
      Pow(2, 8 * width - bits)
    }

    predicate Holds(v: nat)
      requires bits <= 8 * width
    {
      base <= v < base + Size()
    }
  }

  /** One byte of net.CIDRMask, with `bits` ones still to place. */
  function MaskByte(bits: nat): Octet {
    if bits >= 8 then 255 else 255 - 255 / Pow(2, bits)
  }

  function Masked(k: Key, bits: nat): (m: Key)
    ensures |m| == |k|
    decreases |k|
  {
    if k == [] then [] else
      BitAndBound(k[0], MaskByte(bits));
      [BitAnd(k[0], MaskByte(bits))] + Masked(k[1..], if bits >= 8 then bits - 8 else 0)
  }

  /** IPNet.Contains. */
  predicate Contains(n: Net, ip: Key)
    requires n.Valid()
  {
    |Bare(ip)| == n.width && Masked(Big(n.base, n.width), n.bits) == Masked(Bare(ip), n.bits)
  }

  lemma MaskByteIs(bits: nat)
    requires bits <= 8
    ensures MaskByte(bits) == 256 - Pow(2, 8 - bits)
  {
    Pow2Adds(bits, 8 - bits);
    assert Pow(2, 4) == 16 && Pow(2, 8) == 256;
    if bits == 0 { assert Pow(2, 0) == 1; }
    else if bits == 1 { assert Pow(2, 1) == 2 && Pow(2, 7) == 128; }
    else if bits == 2 { assert Pow(2, 2) == 4 && Pow(2, 6) == 64; }
    else if bits == 3 { assert Pow(2, 3) == 8 && Pow(2, 5) == 32; }
    else if bits == 4 { }
    else if bits == 5 { assert Pow(2, 3) == 8 && Pow(2, 5) == 32; }
    else if bits == 6 { assert Pow(2, 2) == 4 && Pow(2, 6) == 64; }
    else if bits == 7 { assert Pow(2, 1) == 2 && Pow(2, 7) == 128; }
  }

  /** Masking one byte clears the bits beyond the prefix. */
  lemma MaskedByte(a: Octet, bits: nat)
    requires bits <= 8
    ensures BitAnd(a, MaskByte(bits)) == a - a % Pow(2, 8 - bits)
  {
    assert Pow(2, 4) == 16 && Pow(2, 8) == 256;
    MaskByteIs(bits);
    MaskClearsLowBits(a, 8, 8 - bits);
  }

  lemma {:induction false} Pow256IsPow2(n: nat)
    ensures Pow(256, n) == Pow(2, 8 * n)
  {
    if n > 0 {
      Pow256IsPow2(n - 1);
      Pow2Adds(8, 8 * (n - 1));
      assert Pow(2, 4) == 16 && Pow(2, 8) == 256;
    }
  }

  /** Masking a key clears the bits of its number beyond the prefix. */
  lemma {:induction false} MaskedValue(k: Key, bits: nat)
    requires bits <= 8 * |k|
    ensures Value(Masked(k, bits)) == Value(k) - Value(k) % Pow(2, 8 * |k| - bits)
    decreases |k|
  {
    if k == [] {
      assert Pow(2, 0) == 1;
    } else {
      var (h, t) := (k[0], k[1..]);
      assert Masked(k, bits)[1..] == Masked(t, if bits >= 8 then bits - 8 else 0);
      if bits >= 8 {
        MaskedValue(t, bits - 8);
        WholeByte(h, t, bits);
      } else {
        MaskedValue(t, 0);
        PartOfByte(h, t, bits);
      }
      hide Masked, Pow, BitAnd, MaskByte;
    }
  }

  lemma WholeByte(h: Octet, t: Key, bits: nat)
    requires 8 <= bits <= 8 * |t| + 8
    ensures BitAnd(h, MaskByte(bits)) == h
    ensures (h * Pow(256, |t|) + Value(t)) % Pow(2, 8 * |t| + 8 - bits) == Value(t) % Pow(2, 8 * |t| + 8 - bits)
  {
    assert Pow(2, 0) == 1;
    hide Value, BitAnd, Pow;
    MaskedByte(h, 8);
    var (front, back) := (bits - 8, 8 * |t| + 8 - bits);
    Pow256IsPow2(|t|);
    Pow2Adds(front, back);
    hide Pow, MaskByte;
    DropHead(h, Pow(2, front), Pow(2, back), Value(t));
  }

  lemma DropHead(h: nat, f: nat, m: nat, t: nat)
    requires m > 0
    ensures (h * (f * m) + t) % m == t % m
  {
    assert h * (f * m) == h * f * m;
    MultipleDrops(h * f, m, t);
  }

  lemma PartOfByte(h: Octet, t: Key, bits: nat)
    requires bits < 8
    ensures Value(t) % Pow(2, 8 * |t|) == Value(t)
    ensures BitAnd(h, MaskByte(bits)) * Pow(256, |t|)
      == h * Pow(256, |t|) + Value(t) - (h * Pow(256, |t|) + Value(t)) % Pow(2, 8 * |t| + 8 - bits)
  {
    hide Value, BitAnd;
    MaskedByte(h, bits);
    var (p, q) := (Pow(256, |t|), Pow(2, 8 - bits));
    Pow256IsPow2(|t|);
    ValueBound(t);
    ModuloUnique(Value(t), 0, p, Value(t));
    Pow2Adds(8 - bits, 8 * |t|);
    hide Pow, MaskByte;
    ClearedValue(h, q, p, Value(t));
  }

  lemma ClearedValue(h: nat, q: nat, p: nat, t: nat)
    requires q > 0 && t < p
    ensures (h - h % q) * p == h * p + t - (h * p + t) % (q * p)
  {
    SplitRemainder(h, q, p, t);
    assert (h - h % q) * p == h * p - h % q * p;
  }

  lemma SplitRemainder(h: nat, q: nat, p: nat, t: nat)
    requires q > 0 && t < p
    ensures (h * p + t) % (q * p) == h % q * p + t
  {
    var (d, r) := (h / q, h % q);
    SplitProduct(d, q, r, p);
    BelowProduct(r, q, p, t);
    ModuloUnique(h * p + t, d, q * p, r * p + t);
  }

  lemma SplitProduct(d: nat, q: nat, r: nat, p: nat)
    ensures (d * q + r) * p == d * (q * p) + r * p
  {
    assert (d * q) * p == d * (q * p);
  }

  lemma BelowProduct(r: nat, q: nat, p: nat, t: nat)
    requires r < q && t < p
    ensures r * p + t < q * p
  {
    Scale(r, q - 1, p);
    assert (q - 1) * p == q * p - p;
  }

  lemma {:induction false} SameValueSameKey(a: Key, b: Key)
    requires |a| == |b|
    ensures a == b <==> Value(a) == Value(b)
    decreases |a|
  {
    if a != [] {
      ValueBound(a[1..]);
      ValueBound(b[1..]);
      LeadingByte(a[0], b[0], Pow(256, |a| - 1), Value(a[1..]), Value(b[1..]));
      SameValueSameKey(a[1..], b[1..]);
    }
  }

  lemma SameBlock(base: nat, v: nat, size: nat)
    requires size > 0 && base % size == 0
    ensures base == v - v % size <==> base <= v < base + size
  {
    if base <= v < base + size {
      assert base == base / size * size;
      ModuloUnique(v, base / size, size, v - base);
    }
  }

  /** A masked comparison of the bytes is membership of the number in the network's interval. */
  lemma ContainsIsInterval(n: Net, ip: Key)
    requires n.Valid() && |ip| == n.width && Bare(ip) == ip
    ensures Contains(n, ip) <==> n.Holds(Value(ip))
  {
    hide Masked, Big, Value, Pow, Bare;
    BigValue(n.base, n.width);
    var key := Big(n.base, n.width);
    MaskedValue(key, n.bits);
    MaskedValue(ip, n.bits);
    SameValueSameKey(Masked(key, n.bits), Masked(ip, n.bits));
    SameBlock(n.base, Value(ip), n.Size());
  }
}
