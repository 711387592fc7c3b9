/** web/netmon/classify.go: which addresses count as globally routable. */
module Classify {
  import opened Bits
  import opened Networks
  import opened Octets
  import opened Options
  import RangeRows

  function V4(base: nat, bits: nat): Net {
    Net(base, bits, 4)
  }

  function V6(base: nat, bits: nat): Net {
    Net(base, bits, 16)
  }

  const SPECIAL_V4: set<Net> := {
    V4(0x0000_0000, 8),   // 0.0.0.0/8
    V4(0x6440_0000, 10),  // 100.64.0.0/10
    V4(0xc000_0000, 24),  // 192.0.0.0/24
    V4(0xc000_0200, 24),  // 192.0.2.0/24
    V4(0xc612_0000, 15),  // 198.18.0.0/15
    V4(0xc633_6400, 24),  // 198.51.100.0/24
    V4(0xcb00_7100, 24),  // 203.0.113.0/24
    V4(0xf000_0000, 4),   // 240.0.0.0/4
    V4(0xffff_ffff, 32)   // 255.255.255.255/32
  }

  const NARROW_V6: set<Net> := {
    V6(0x2001_0db8_0000_0000_0000_0000_0000_0000, 32),  // 2001:db8::/32
    V6(0x2001_0000_0000_0000_0000_0000_0000_0000, 23),  // 2001::/23
    V6(0x2002_0000_0000_0000_0000_0000_0000_0000, 16),  // 2002::/16
    V6(0x3fff_0000_0000_0000_0000_0000_0000_0000, 20)   // 3fff::/20
  }

  const LOW_V6: set<Net> := {
    V6(0x0064_ff9b_0001_0000_0000_0000_0000_0000, 48),  // 64:ff9b:1::/48
    V6(0x0000_0000_0000_0000_0000_0000_0000_0000, 8),   // ::/8
    V6(0x0100_0000_0000_0000_0000_0000_0000_0000, 8),   // 100::/8
    V6(0x0200_0000_0000_0000_0000_0000_0000_0000, 7),   // 200::/7
    V6(0x0400_0000_0000_0000_0000_0000_0000_0000, 6),   // 400::/6
    V6(0x0800_0000_0000_0000_0000_0000_0000_0000, 5),   // 800::/5
    V6(0x1000_0000_0000_0000_0000_0000_0000_0000, 4)    // 1000::/4
  }

  const HIGH_V6: set<Net> := {
    V6(0x4000_0000_0000_0000_0000_0000_0000_0000, 3),   // 4000::/3
    V6(0x6000_0000_0000_0000_0000_0000_0000_0000, 3),   // 6000::/3
    V6(0x8000_0000_0000_0000_0000_0000_0000_0000, 3),   // 8000::/3
    V6(0xa000_0000_0000_0000_0000_0000_0000_0000, 3),   // a000::/3
    V6(0xc000_0000_0000_0000_0000_0000_0000_0000, 3),   // c000::/3
    V6(0xe000_0000_0000_0000_0000_0000_0000_0000, 4),   // e000::/4
    V6(0xf000_0000_0000_0000_0000_0000_0000_0000, 5),   // f000::/5
    V6(0xf800_0000_0000_0000_0000_0000_0000_0000, 6),   // f800::/6
    V6(0xfe00_0000_0000_0000_0000_0000_0000_0000, 9)    // fe00::/9
  }

  const EXCEPTIONS_V4: set<Net> := {V4(0xc000_0009, 32), V4(0xc000_000a, 32)}

  const EXCEPTIONS_V6: set<Net> := {
    V6(0x2001_0001_0000_0000_0000_0000_0000_0001, 128),
    V6(0x2001_0001_0000_0000_0000_0000_0000_0002, 128),
    V6(0x2001_0003_0000_0000_0000_0000_0000_0000, 32),
    V6(0x2001_0004_0112_0000_0000_0000_0000_0000, 48),
    V6(0x2001_0020_0000_0000_0000_0000_0000_0000, 28),
    V6(0x2001_0030_0000_0000_0000_0000_0000_0000, 28)
  }

  predicate AllNets(nets: set<Net>, width: nat) {
    forall n :: n in nets ==> n.Valid() && n.width == width
  }

  lemma SmallSizes()
    ensures Pow(2, 0) == 0x1
    ensures Pow(2, 1) == 0x2
    ensures Pow(2, 6) == 0x40
    ensures Pow(2, 4) == 0x10
    ensures Pow(2, 8) == 0x100
    ensures Pow(2, 9) == 0x200
    ensures Pow(2, 12) == 0x1000
    ensures Pow(2, 16) == 0x1_0000
    ensures Pow(2, 17) == 0x2_0000
    ensures Pow(2, 20) == 0x10_0000
    ensures Pow(2, 22) == 0x40_0000
    ensures Pow(2, 23) == 0x80_0000
    ensures Pow(2, 24) == 0x100_0000
    ensures Pow(2, 25) == 0x200_0000
    ensures Pow(2, 26) == 0x400_0000
    ensures Pow(2, 27) == 0x800_0000
    ensures Pow(2, 28) == 0x1000_0000
    ensures Pow(2, 29) == 0x2000_0000
    ensures Pow(2, 32) == 0x1_0000_0000
    ensures Pow(256, 4) == 0x1_0000_0000
  {
    assert Pow(2, 16) == 0x1_0000;
    Pow2Adds(16, 16);
    Pow256IsPow2(4);
  }

  lemma LargeSizes()
    ensures Pow(2, 80) == 0x1_0000_0000_0000_0000_0000 && Pow(2, 96) == 0x1_0000_0000_0000_0000_0000_0000
      && Pow(2, 128) == 0x1_0000_0000_0000_0000_0000_0000_0000_0000 == Pow(256, 16)
    ensures Pow(2, 100) == 0x10_0000_0000_0000_0000_0000_0000 && Pow(2, 105) == 0x200_0000_0000_0000_0000_0000_0000
    ensures Pow(2, 108) == 0x1000_0000_0000_0000_0000_0000_0000 && Pow(2, 112) == 0x1_0000_0000_0000_0000_0000_0000_0000
    ensures Pow(2, 118) == 0x40_0000_0000_0000_0000_0000_0000_0000
      && Pow(2, 119) == 0x80_0000_0000_0000_0000_0000_0000_0000
    ensures Pow(2, 120) == 0x100_0000_0000_0000_0000_0000_0000_0000
      && Pow(2, 121) == 0x200_0000_0000_0000_0000_0000_0000_0000
    ensures Pow(2, 122) == 0x400_0000_0000_0000_0000_0000_0000_0000
      && Pow(2, 123) == 0x800_0000_0000_0000_0000_0000_0000_0000
    ensures Pow(2, 124) == 0x1000_0000_0000_0000_0000_0000_0000_0000
      && Pow(2, 125) == 0x2000_0000_0000_0000_0000_0000_0000_0000
  {
    SmallSizes();
    hide Pow;
    Pow2Adds(32, 32);
    Pow2Adds(64, 16);
    Pow2Adds(64, 32);
    Pow2Adds(64, 64);
    Pow256IsPow2(16);
    Pow2Adds(96, 4);
    Pow2Adds(96, 9);
    Pow2Adds(96, 12);
    Pow2Adds(96, 16);
    Pow2Adds(96, 22);
    Pow2Adds(96, 23);
    Pow2Adds(96, 24);
    Pow2Adds(96, 25);
    Pow2Adds(96, 26);
    Pow2Adds(96, 27);
    Pow2Adds(96, 28);
    Pow2Adds(96, 29);
  }

  lemma SpecialV4Nets()
    ensures AllNets(SPECIAL_V4, 4)
  {
    SmallSizes();
    hide Pow;
  }

  lemma ExceptionsV4Nets()
    ensures AllNets(EXCEPTIONS_V4, 4)
  {
    SmallSizes();
    hide Pow;
  }

  lemma ExceptionsV6Nets()
    ensures AllNets(EXCEPTIONS_V6, 16)
  {
    SmallSizes();
    LargeSizes();
    hide Pow;
  }

  lemma NarrowV6Nets()
    ensures AllNets(NARROW_V6, 16)
  {
    SmallSizes();
    LargeSizes();
    hide Pow;
  }

  lemma LowV6Nets()
    ensures AllNets(LOW_V6, 16)
  {
    SmallSizes();
    LargeSizes();
    hide Pow;
  }

  lemma HighV6Nets()
    ensures AllNets(HIGH_V6, 16)
  {
    SmallSizes();
    LargeSizes();
    hide Pow;
    assert V6(0x4000_0000_0000_0000_0000_0000_0000_0000, 3).Valid();
    assert V6(0x6000_0000_0000_0000_0000_0000_0000_0000, 3).Valid();
    assert V6(0x8000_0000_0000_0000_0000_0000_0000_0000, 3).Valid();
    assert V6(0xa000_0000_0000_0000_0000_0000_0000_0000, 3).Valid();
    assert V6(0xc000_0000_0000_0000_0000_0000_0000_0000, 3).Valid();
    assert V6(0xe000_0000_0000_0000_0000_0000_0000_0000, 4).Valid();
    assert V6(0xf000_0000_0000_0000_0000_0000_0000_0000, 5).Valid();
    assert V6(0xf800_0000_0000_0000_0000_0000_0000_0000, 6).Valid();
    assert V6(0xfe00_0000_0000_0000_0000_0000_0000_0000, 9).Valid();
    hide Net.Valid;
  }

  // The code

  /** One table lookup: some network of the table contains the address. */
  predicate Covered(nets: set<Net>, ip: Key) {
    exists n :: n in nets && n.Valid() && Contains(n, ip)
  }

  predicate IsLoopback(ip: Key) {
    if |ip| == 4 then ip[0] == 127 else ip == Big(1, 16)
  }

  predicate IsUnspecified(ip: Key) {
    ip == Big(0, 4) || ip == Big(0, 16)
  }

  predicate IsLinkLocalUnicast(ip: Key) {
    if |ip| == 4 then ip[0] == 169 && ip[1] == 254
    else |ip| == 16 && ip[0] == 0xfe && BitAnd(ip[1], 0xc0) == 0x80
  }

  predicate IsLinkLocalMulticast(ip: Key) {
    if |ip| == 4 then ip[0] == 224 && ip[1] == 0 && ip[2] == 0
    else |ip| == 16 && ip[0] == 0xff && BitAnd(ip[1], 0x0f) == 0x02
  }

  predicate IsMulticast(ip: Key) {
    if |ip| == 4 then BitAnd(ip[0], 0xf0) == 0xe0 else |ip| == 16 && ip[0] == 0xff
  }

  predicate IsPrivate(ip: Key) {
    if |ip| == 4 then ip[0] == 10 || (ip[0] == 172 && BitAnd(ip[1], 0xf0) == 16) || (ip[0] == 192 && ip[1] == 168)
    else |ip| == 16 && BitAnd(ip[0], 0xfe) == 0xfc
  }

  predicate IsGlobalUnicast(ip: Key) {
    && (|ip| == 4 || |ip| == 16) && ip != Big(0xffff_ffff, 4)
    && !IsUnspecified(ip) && !IsLoopback(ip) && !IsMulticast(ip) && !IsLinkLocalUnicast(ip)
  }

  /** The tests of package net that run before the tables. */
  predicate Standard(ip: Key) {
    IsLoopback(ip) || IsLinkLocalUnicast(ip) || IsLinkLocalMulticast(ip) || IsMulticast(ip) || IsUnspecified(ip)
      || IsPrivate(ip)
  }

  predicate IsLan(addr: Key) {
    var ip := Bare(addr);
    if Standard(ip) then true
    else if Covered(EXCEPTIONS_V4 + EXCEPTIONS_V6, ip) then false
    else if Covered(SPECIAL_V4 + NARROW_V6 + LOW_V6 + HIGH_V6, ip) then true
    else !IsGlobalUnicast(ip)
  }

  /** `parsed` is what net.ParseIP makes of the text. */
  function Classify(parsed: Option<Key>): string {
    if parsed.None? || IsLan(parsed.value) then "lan" else "global"
  }

  // What it means

  ghost predicate Covers(nets: set<Net>, v: nat) {
    exists n :: n in nets && n.Valid() && n.Holds(v)
  }

  lemma CoveredIsCovers(nets: set<Net>, ip: Key)
    requires AllNets(nets, |ip|) && Bare(ip) == ip
    ensures Covered(nets, ip) <==> Covers(nets, Value(ip))
  {
    hide Contains, Bare, Value;
    forall n | n in nets ensures n.Valid() && (Contains(n, ip) <==> n.Holds(Value(ip))) {
      ContainsIsInterval(n, ip);
    }
  }

  /** A table of the other width never contains the address. */
  lemma OtherWidth(nets: set<Net>, ip: Key, width: nat)
    requires AllNets(nets, width) && |ip| != width && Bare(ip) == ip
    ensures !Covered(nets, ip)
  {}

  lemma LowCovers(v: nat)
    ensures Covers(LOW_V6, v) <==> v < 0x2000_0000_0000_0000_0000_0000_0000_0000
  {
    SmallSizes();
    LargeSizes();
    LowV6Nets();
    hide Pow;
    if v < 0x2000_0000_0000_0000_0000_0000_0000_0000 {
      var n := if v < 0x0100_0000_0000_0000_0000_0000_0000_0000 then V6(0, 8)
               else if v < 0x0200_0000_0000_0000_0000_0000_0000_0000 then
                 V6(0x0100_0000_0000_0000_0000_0000_0000_0000, 8)
               else if v < 0x0400_0000_0000_0000_0000_0000_0000_0000 then
                 V6(0x0200_0000_0000_0000_0000_0000_0000_0000, 7)
               else if v < 0x0800_0000_0000_0000_0000_0000_0000_0000 then
                 V6(0x0400_0000_0000_0000_0000_0000_0000_0000, 6)
               else if v < 0x1000_0000_0000_0000_0000_0000_0000_0000 then
                 V6(0x0800_0000_0000_0000_0000_0000_0000_0000, 5)
               else V6(0x1000_0000_0000_0000_0000_0000_0000_0000, 4);
      assert n in LOW_V6 && n.Holds(v);
    }
  }

  lemma HighCovers(v: nat)
    ensures Covers(HIGH_V6, v) <==>
            || 0x4000_0000_0000_0000_0000_0000_0000_0000 <= v < 0xfc00_0000_0000_0000_0000_0000_0000_0000
            || 0xfe00_0000_0000_0000_0000_0000_0000_0000 <= v < 0xfe80_0000_0000_0000_0000_0000_0000_0000
  {
    SmallSizes();
    LargeSizes();
    HighV6Nets();
    hide Pow;
    var n := if v < 0x6000_0000_0000_0000_0000_0000_0000_0000 then V6(0x4000_0000_0000_0000_0000_0000_0000_0000, 3)
             else if v < 0x8000_0000_0000_0000_0000_0000_0000_0000 then V6(0x6000_0000_0000_0000_0000_0000_0000_0000, 3)
             else if v < 0xa000_0000_0000_0000_0000_0000_0000_0000 then V6(0x8000_0000_0000_0000_0000_0000_0000_0000, 3)
             else if v < 0xc000_0000_0000_0000_0000_0000_0000_0000 then V6(0xa000_0000_0000_0000_0000_0000_0000_0000, 3)
             else if v < 0xe000_0000_0000_0000_0000_0000_0000_0000 then V6(0xc000_0000_0000_0000_0000_0000_0000_0000, 3)
             else if v < 0xf000_0000_0000_0000_0000_0000_0000_0000 then V6(0xe000_0000_0000_0000_0000_0000_0000_0000, 4)
             else if v < 0xf800_0000_0000_0000_0000_0000_0000_0000 then V6(0xf000_0000_0000_0000_0000_0000_0000_0000, 5)
             else if v < 0xfc00_0000_0000_0000_0000_0000_0000_0000 then V6(0xf800_0000_0000_0000_0000_0000_0000_0000, 6)
             else V6(0xfe00_0000_0000_0000_0000_0000_0000_0000, 9);
    assert n in HIGH_V6 && n.Valid();
  }

  /** The leading two bytes of an IPv6 address as part of its number. */
  lemma LeadingBytes(ip: Key) returns (rest: nat)
    requires |ip| == 16
    ensures rest < 0x1_0000_0000_0000_0000_0000_0000_0000
    ensures Value(ip) == ip[0] * 0x100_0000_0000_0000_0000_0000_0000_0000
      + ip[1] * 0x1_0000_0000_0000_0000_0000_0000_0000 + rest
  {
    LargeSizes();
    Pow256IsPow2(15);
    Pow256IsPow2(14);
    rest := Value(ip[2..]);
    ValueBound(ip[2..]);
    assert ip[1..][1..] == ip[2..];
    hide Pow;
  }

  lemma HighBits(a: Octet)
    ensures BitAnd(a, 0xc0) == 0x80 <==> 0x80 <= a < 0xc0
    ensures BitAnd(a, 0xfe) == 0xfc <==> 0xfc <= a < 0xfe
    ensures BitAnd(a, 0xf0) == 0xe0 <==> 0xe0 <= a < 0xf0
    ensures BitAnd(a, 0xf0) == 16 <==> 16 <= a < 32
  {
    hide BitAnd, Pow;
    SmallSizes();
    assert Pow(2, 8) == 0x100 && Pow(2, 6) == 0x40 && Pow(2, 1) == 2;
    MaskClearsLowBits(a, 8, 6);
    MaskClearsLowBits(a, 8, 4);
    MaskClearsLowBits(a, 8, 1);
  }

  lemma HeadIntervals(b0: Octet, b1: Octet, rest: nat, v: nat)
    requires rest < 0x1_0000_0000_0000_0000_0000_0000_0000
    requires v == b0 * 0x100_0000_0000_0000_0000_0000_0000_0000 + b1 * 0x1_0000_0000_0000_0000_0000_0000_0000 + rest
    ensures b0 == 0xff <==> 0xff00_0000_0000_0000_0000_0000_0000_0000 <= v
    ensures b0 == 0xfe && 0x80 <= b1 < 0xc0
      <==> 0xfe80_0000_0000_0000_0000_0000_0000_0000 <= v < 0xfec0_0000_0000_0000_0000_0000_0000_0000
    ensures 0xfc <= b0 < 0xfe
      <==> 0xfc00_0000_0000_0000_0000_0000_0000_0000 <= v < 0xfe00_0000_0000_0000_0000_0000_0000_0000
  {}

  /** On an IPv6 address they are intervals. */
  lemma StandardV6(ip: Key)
    requires |ip| == 16
    ensures Standard(ip) <==> var v := Value(ip);
            || v == 0 || v == 1
            || 0xfc00_0000_0000_0000_0000_0000_0000_0000 <= v < 0xfe00_0000_0000_0000_0000_0000_0000_0000
            || 0xfe80_0000_0000_0000_0000_0000_0000_0000 <= v < 0xfec0_0000_0000_0000_0000_0000_0000_0000
            || 0xff00_0000_0000_0000_0000_0000_0000_0000 <= v
  {
    var rest := LeadingBytes(ip);
    HighBits(ip[0]);
    HighBits(ip[1]);
    HeadIntervals(ip[0], ip[1], rest, Value(ip));
    NamedAddresses(ip);
    hide Value, Big, BitAnd, Pow;
  }

  lemma NamedAddresses(ip: Key)
    requires |ip| == 16
    ensures ip == Big(0, 16) <==> Value(ip) == 0
    ensures ip == Big(1, 16) <==> Value(ip) == 1
  {
    LargeSizes();
    hide Value, Big, Pow;
    BigValue(0, 16);
    BigValue(1, 16);
    SameValueSameKey(ip, Big(0, 16));
    SameValueSameKey(ip, Big(1, 16));
  }

  lemma BroadcastIsSpecial()
    ensures Covered(SPECIAL_V4, Big(0xffff_ffff, 4))
  {
    SpecialV4Nets();
    SmallSizes();
    BigValue(0xffff_ffff, 4);
    hide Pow, Value, Big;
    var n := V4(0xffff_ffff, 32);
    assert n in SPECIAL_V4;
    CoveredIsCovers(SPECIAL_V4, Big(0xffff_ffff, 4));
  }

  /** The last test of isLAN never decides anything. */
  lemma LastTestIsRedundant(ip: Key)
    requires |ip| == 4 || |ip| == 16
    ensures IsGlobalUnicast(ip) || Standard(ip) || Covered(SPECIAL_V4, ip)
  {
    BroadcastIsSpecial();
    hide Covered, IsLoopback, IsLinkLocalUnicast, IsMulticast, IsUnspecified;
  }

  lemma CoveredUnion(a: set<Net>, b: set<Net>, ip: Key)
    ensures Covered(a + b, ip) <==> Covered(a, ip) || Covered(b, ip)
  {
    hide Contains;
    if Covered(a + b, ip) {
      var n :| n in a + b && n.Valid() && Contains(n, ip);
      assert n in a || n in b;
    }
    if Covered(a, ip) {
      var n :| n in a && n.Valid() && Contains(n, ip);
      assert n in a + b;
    }
    if Covered(b, ip) {
      var n :| n in b && n.Valid() && Contains(n, ip);
      assert n in a + b;
    }
  }

  /** The tables, table by table. */
  lemma Tables(ip: Key)
    ensures Covered(EXCEPTIONS_V4 + EXCEPTIONS_V6, ip) <==> Covered(EXCEPTIONS_V4, ip) || Covered(EXCEPTIONS_V6, ip)
    ensures Covered(SPECIAL_V4 + NARROW_V6 + LOW_V6 + HIGH_V6, ip)
      <==> Covered(SPECIAL_V4, ip) || Covered(NARROW_V6, ip) || Covered(LOW_V6, ip) || Covered(HIGH_V6, ip)
  {
    hide Covered;
    CoveredUnion(EXCEPTIONS_V4, EXCEPTIONS_V6, ip);
    CoveredUnion(SPECIAL_V4, NARROW_V6, ip);
    CoveredUnion(SPECIAL_V4 + NARROW_V6, LOW_V6, ip);
    CoveredUnion(SPECIAL_V4 + NARROW_V6 + LOW_V6, HIGH_V6, ip);
  }

  /** Where the listed IPv6 exceptions lie. */
  lemma ExceptionsAreInside(v: nat)
    requires Covers(EXCEPTIONS_V6, v)
    ensures 0x2001_0000_0000_0000_0000_0000_0000_0000 <= v < 0x2001_0200_0000_0000_0000_0000_0000_0000
  {
    SmallSizes();
    LargeSizes();
    hide Pow;
  }

  // ---------------------------------------------------------- the tables as numbers

  /** The special blocks; 255.255.255.255 lies in the last one. */
  predicate SpecialV4(v: nat) {
    || v < 0x0100_0000
    || 0x6440_0000 <= v < 0x6480_0000
    || 0xc000_0000 <= v < 0xc000_0100
    || 0xc000_0200 <= v < 0xc000_0300
    || 0xc612_0000 <= v < 0xc614_0000
    || 0xc633_6400 <= v < 0xc633_6500
    || 0xcb00_7100 <= v < 0xcb00_7200
    || 0xf000_0000 <= v
  }

  /** 192.0.0.9 and 192.0.0.10. */
  predicate ExceptionV4(v: nat) {
    || v == 0xc000_0009
    || v == 0xc000_000a
  }

  /** 2001:db8::/32, 2001::/23, 2002::/16 and 3fff::/20. */
  predicate NarrowV6(v: nat) {
    || 0x2001_0db8_0000_0000_0000_0000_0000_0000 <= v < 0x2001_0db9_0000_0000_0000_0000_0000_0000
    || 0x2001_0000_0000_0000_0000_0000_0000_0000 <= v < 0x2001_0200_0000_0000_0000_0000_0000_0000
    || 0x2002_0000_0000_0000_0000_0000_0000_0000 <= v < 0x2003_0000_0000_0000_0000_0000_0000_0000
    || 0x3fff_0000_0000_0000_0000_0000_0000_0000 <= v < 0x3fff_1000_0000_0000_0000_0000_0000_0000
  }

  /** 2001:1::1, 2001:1::2, 2001:3::/32, 2001:4:112::/48, 2001:20::/28 and 2001:30::/28. */
  predicate ExceptionV6(v: nat) {
    || v == 0x2001_0001_0000_0000_0000_0000_0000_0001
    || v == 0x2001_0001_0000_0000_0000_0000_0000_0002
    || 0x2001_0003_0000_0000_0000_0000_0000_0000 <= v < 0x2001_0004_0000_0000_0000_0000_0000_0000
    || 0x2001_0004_0112_0000_0000_0000_0000_0000 <= v < 0x2001_0004_0113_0000_0000_0000_0000_0000
    || 0x2001_0020_0000_0000_0000_0000_0000_0000 <= v < 0x2001_0030_0000_0000_0000_0000_0000_0000
    || 0x2001_0030_0000_0000_0000_0000_0000_0000 <= v < 0x2001_0040_0000_0000_0000_0000_0000_0000
  }

  lemma SpecialV4Covers(v: nat)
    requires v < 0x1_0000_0000
    ensures Covers(SPECIAL_V4, v) <==> SpecialV4(v)
  {
    SmallSizes();
    SpecialV4Nets();
    hide Pow;
    if v < 0x0100_0000 {
      assert V4(0x0000_0000, 8) in SPECIAL_V4;
    }
    if 0x6440_0000 <= v < 0x6480_0000 {
      assert V4(0x6440_0000, 10) in SPECIAL_V4;
    }
    if 0xc000_0000 <= v < 0xc000_0100 {
      assert V4(0xc000_0000, 24) in SPECIAL_V4;
    }
    if 0xc000_0200 <= v < 0xc000_0300 {
      assert V4(0xc000_0200, 24) in SPECIAL_V4;
    }
    if 0xc612_0000 <= v < 0xc614_0000 {
      assert V4(0xc612_0000, 15) in SPECIAL_V4;
    }
    if 0xc633_6400 <= v < 0xc633_6500 {
      assert V4(0xc633_6400, 24) in SPECIAL_V4;
    }
    if 0xcb00_7100 <= v < 0xcb00_7200 {
      assert V4(0xcb00_7100, 24) in SPECIAL_V4;
    }
    if 0xf000_0000 <= v {
      assert V4(0xf000_0000, 4) in SPECIAL_V4;
    }
  }

  lemma ExceptionV4Covers(v: nat)
    requires v < 0x1_0000_0000
    ensures Covers(EXCEPTIONS_V4, v) <==> ExceptionV4(v)
  {
    SmallSizes();
    ExceptionsV4Nets();
    hide Pow;
    if v == 0xc000_0009 {
      assert V4(0xc000_0009, 32) in EXCEPTIONS_V4;
    }
    if v == 0xc000_000a {
      assert V4(0xc000_000a, 32) in EXCEPTIONS_V4;
    }
  }

  lemma NarrowV6Covers(v: nat)
    ensures Covers(NARROW_V6, v) <==> NarrowV6(v)
  {
    SmallSizes();
    LargeSizes();
    NarrowV6Nets();
    hide Pow;
    if 0x2001_0db8_0000_0000_0000_0000_0000_0000 <= v < 0x2001_0db9_0000_0000_0000_0000_0000_0000 {
      assert V6(0x2001_0db8_0000_0000_0000_0000_0000_0000, 32) in NARROW_V6;
    }
    if 0x2001_0000_0000_0000_0000_0000_0000_0000 <= v < 0x2001_0200_0000_0000_0000_0000_0000_0000 {
      assert V6(0x2001_0000_0000_0000_0000_0000_0000_0000, 23) in NARROW_V6;
    }
    if 0x2002_0000_0000_0000_0000_0000_0000_0000 <= v < 0x2003_0000_0000_0000_0000_0000_0000_0000 {
      assert V6(0x2002_0000_0000_0000_0000_0000_0000_0000, 16) in NARROW_V6;
    }
    if 0x3fff_0000_0000_0000_0000_0000_0000_0000 <= v < 0x3fff_1000_0000_0000_0000_0000_0000_0000 {
      assert V6(0x3fff_0000_0000_0000_0000_0000_0000_0000, 20) in NARROW_V6;
    }
  }

  lemma ExceptionV6Covers(v: nat)
    ensures Covers(EXCEPTIONS_V6, v) <==> ExceptionV6(v)
  {
    SmallSizes();
    LargeSizes();
    ExceptionsV6Nets();
    hide Pow;
    if v == 0x2001_0001_0000_0000_0000_0000_0000_0001 {
      assert V6(0x2001_0001_0000_0000_0000_0000_0000_0001, 128) in EXCEPTIONS_V6;
    }
    if v == 0x2001_0001_0000_0000_0000_0000_0000_0002 {
      assert V6(0x2001_0001_0000_0000_0000_0000_0000_0002, 128) in EXCEPTIONS_V6;
    }
    if 0x2001_0003_0000_0000_0000_0000_0000_0000 <= v < 0x2001_0004_0000_0000_0000_0000_0000_0000 {
      assert V6(0x2001_0003_0000_0000_0000_0000_0000_0000, 32) in EXCEPTIONS_V6;
    }
    if 0x2001_0004_0112_0000_0000_0000_0000_0000 <= v < 0x2001_0004_0113_0000_0000_0000_0000_0000 {
      assert V6(0x2001_0004_0112_0000_0000_0000_0000_0000, 48) in EXCEPTIONS_V6;
    }
    if 0x2001_0020_0000_0000_0000_0000_0000_0000 <= v < 0x2001_0030_0000_0000_0000_0000_0000_0000 {
      assert V6(0x2001_0020_0000_0000_0000_0000_0000_0000, 28) in EXCEPTIONS_V6;
    }
    if 0x2001_0030_0000_0000_0000_0000_0000_0000 <= v < 0x2001_0040_0000_0000_0000_0000_0000_0000 {
      assert V6(0x2001_0030_0000_0000_0000_0000_0000_0000, 28) in EXCEPTIONS_V6;
    }
  }

  // ---------------------------------------------------------- IPv6

  /**
   * Exactly which IPv6 addresses are global: those of 2000::/3 and fec0::/10 outside four blocks, and the
   * exceptions.
   */
  lemma GlobalV6Exactly(ip: Key)
    requires |ip| == 16 && RangeRows.To4(ip).None?
    ensures var v := Value(ip);
            Classify(Some(ip)) == "global" <==>
              || ExceptionV6(v)
              || (&& (|| 0x2000_0000_0000_0000_0000_0000_0000_0000 <= v < 0x4000_0000_0000_0000_0000_0000_0000_0000
                      || 0xfec0_0000_0000_0000_0000_0000_0000_0000 <= v < 0xff00_0000_0000_0000_0000_0000_0000_0000)
                  && !NarrowV6(v))
  {
    hide Covered, Covers, Value, Standard, IsGlobalUnicast, ExceptionV6, NarrowV6;
    var v := Value(ip);
    Tables(ip);
    TablesOnV6(ip);
    StandardV6(ip);
    LowCovers(v);
    HighCovers(v);
    NarrowV6Covers(v);
    ExceptionV6Covers(v);
    if Covers(EXCEPTIONS_V6, v) {
      ExceptionsAreInside(v);
    }
    LastTestIsRedundant(ip);
  }

  lemma TablesOnV6(ip: Key)
    requires |ip| == 16 && Bare(ip) == ip
    ensures !Covered(SPECIAL_V4, ip) && !Covered(EXCEPTIONS_V4, ip)
    ensures Covered(EXCEPTIONS_V6, ip) <==> Covers(EXCEPTIONS_V6, Value(ip))
    ensures Covered(NARROW_V6, ip) <==> Covers(NARROW_V6, Value(ip))
    ensures Covered(LOW_V6, ip) <==> Covers(LOW_V6, Value(ip))
    ensures Covered(HIGH_V6, ip) <==> Covers(HIGH_V6, Value(ip))
  {
    hide Covered, Covers, Value, AllNets, Bare;
    SpecialV4Nets();
    ExceptionsV4Nets();
    ExceptionsV6Nets();
    NarrowV6Nets();
    LowV6Nets();
    HighV6Nets();
    OtherWidth(SPECIAL_V4, ip, 4);
    OtherWidth(EXCEPTIONS_V4, ip, 4);
    CoveredIsCovers(EXCEPTIONS_V6, ip);
    CoveredIsCovers(NARROW_V6, ip);
    CoveredIsCovers(LOW_V6, ip);
    CoveredIsCovers(HIGH_V6, ip);
  }

  // IPv4

  /** The IPv4 blocks the tests of package net know. */
  const STANDARD_V4: set<Net> := {
    V4(0x7f00_0000, 8),   // 127.0.0.0/8
    V4(0xa9fe_0000, 16),  // 169.254.0.0/16
    V4(0x0a00_0000, 8),   // 10.0.0.0/8
    V4(0xac10_0000, 12),  // 172.16.0.0/12
    V4(0xc0a8_0000, 16),  // 192.168.0.0/16
    V4(0xe000_0000, 4)    // 224.0.0.0/4
  }

  lemma ValueV4(ip: Key)
    requires |ip| == 4
    ensures Value(ip) == ip[0] as int * 0x100_0000 + ip[1] as int * 0x1_0000 + ip[2] as int * 0x100 + ip[3] as int
  {
    assert ip[1..][1..] == ip[2..] && ip[2..][1..] == ip[3..] && ip[3..][1..] == [];
    assert Value(ip) == ip[0] as int * Pow(256, 3) + Value(ip[1..]);
    assert Value(ip[1..]) == ip[1] as int * Pow(256, 2) + Value(ip[2..]);
    assert Value(ip[2..]) == ip[2] as int * Pow(256, 1) + Value(ip[3..]);
    assert Value(ip[3..]) == ip[3] as int * Pow(256, 0) + Value([]);
    assert Pow(256, 3) == 0x100_0000 && Pow(256, 2) == 0x1_0000 && Pow(256, 1) == 0x100 && Pow(256, 0) == 1;
  }

  lemma StandardBlocks(v: nat)
    ensures Covers(STANDARD_V4, v) <==>
            || 0x7f00_0000 <= v < 0x8000_0000 || 0xa9fe_0000 <= v < 0xa9ff_0000 || 0x0a00_0000 <= v < 0x0b00_0000
            || 0xac10_0000 <= v < 0xac20_0000 || 0xc0a8_0000 <= v < 0xc0a9_0000 || 0xe000_0000 <= v < 0xf000_0000
  {
    SmallSizes();
    hide Pow;
    var n := if v < 0x0b00_0000 then V4(0x0a00_0000, 8) else if v < 0x8000_0000 then V4(0x7f00_0000, 8)
             else if v < 0xa9ff_0000 then V4(0xa9fe_0000, 16) else if v < 0xac20_0000 then V4(0xac10_0000, 12)
             else if v < 0xc0a9_0000 then V4(0xc0a8_0000, 16) else V4(0xe000_0000, 4);
    assert n in STANDARD_V4 && n.Valid();
  }

  lemma BytesV4(b0: Octet, b1: Octet, b2: Octet, b3: Octet, v: nat)
    requires v == b0 * 0x100_0000 + b1 * 0x1_0000 + b2 * 0x100 + b3
    ensures b0 == 127 <==> 0x7f00_0000 <= v < 0x8000_0000
    ensures b0 == 169 && b1 == 254 <==> 0xa9fe_0000 <= v < 0xa9ff_0000
    ensures b0 == 10 <==> 0x0a00_0000 <= v < 0x0b00_0000
    ensures b0 == 172 && 16 <= b1 < 32 <==> 0xac10_0000 <= v < 0xac20_0000
    ensures b0 == 192 && b1 == 168 <==> 0xc0a8_0000 <= v < 0xc0a9_0000
    ensures 0xe0 <= b0 < 0xf0 <==> 0xe000_0000 <= v < 0xf000_0000
  {}

  lemma StandardV4(ip: Key)
    requires |ip| == 4
    ensures Standard(ip) <==> Value(ip) == 0 || Covers(STANDARD_V4, Value(ip))
  {
    hide Value, Big, BitAnd, Pow, Covers;
    ValueV4(ip);
    HighBits(ip[0]);
    HighBits(ip[1]);
    BytesV4(ip[0], ip[1], ip[2], ip[3], Value(ip));
    StandardBlocks(Value(ip));
    SmallSizes();
    BigValue(0, 4);
    SameValueSameKey(ip, Big(0, 4));
    WrongWidth(ip);
  }

  lemma WrongWidth(ip: Key)
    requires |ip| == 4
    ensures ip != Big(0, 16) && ip != Big(1, 16)
  {
    hide Big;
  }

  lemma ZeroIsSpecial()
    ensures Covers(SPECIAL_V4, 0)
  {
    SpecialV4Nets();
    SmallSizes();
    hide Pow;
    assert V4(0, 8) in SPECIAL_V4;
  }

  lemma ExceptionsAreUnicast(v: nat)
    requires Covers(EXCEPTIONS_V4, v)
    ensures v != 0 && !Covers(STANDARD_V4, v)
  {
    StandardBlocks(v);
    SmallSizes();
    hide Pow;
  }

  lemma TablesOnV4(ip: Key)
    requires |ip| == 4 && Bare(ip) == ip
    ensures !Covered(EXCEPTIONS_V6, ip) && !Covered(NARROW_V6, ip) && !Covered(LOW_V6, ip) && !Covered(HIGH_V6, ip)
    ensures Covered(EXCEPTIONS_V4, ip) <==> Covers(EXCEPTIONS_V4, Value(ip))
    ensures Covered(SPECIAL_V4, ip) <==> Covers(SPECIAL_V4, Value(ip))
  {
    hide Covered, Covers, Value, AllNets, Bare;
    SpecialV4Nets();
    ExceptionsV4Nets();
    ExceptionsV6Nets();
    NarrowV6Nets();
    LowV6Nets();
    HighV6Nets();
    OtherWidth(EXCEPTIONS_V6, ip, 16);
    OtherWidth(NARROW_V6, ip, 16);
    OtherWidth(LOW_V6, ip, 16);
    OtherWidth(HIGH_V6, ip, 16);
    CoveredIsCovers(EXCEPTIONS_V4, ip);
    CoveredIsCovers(SPECIAL_V4, ip);
  }

  /** The blocks the tests of package net know, as numbers. */
  predicate StandardBlock(v: nat) {
    || 0x0a00_0000 <= v < 0x0b00_0000
    || 0x7f00_0000 <= v < 0x8000_0000
    || 0xa9fe_0000 <= v < 0xa9ff_0000
    || 0xac10_0000 <= v < 0xac20_0000
    || 0xc0a8_0000 <= v < 0xc0a9_0000
    || 0xe000_0000 <= v < 0xf000_0000
  }

  /** Exactly which IPv4 addresses are global: those outside the special and standard blocks, and the two exceptions. */
  lemma GlobalV4Exactly(ip: Key)
    requires |ip| == 4
    ensures var v := Value(ip);
            Classify(Some(ip)) == "global" <==> ExceptionV4(v) || (!SpecialV4(v) && !StandardBlock(v))
  {
    hide Covered, Covers, Value, Standard, IsGlobalUnicast, ExceptionV4, SpecialV4;
    var v := Value(ip);
    Tables(ip);
    TablesOnV4(ip);
    StandardV4(ip);
    StandardBlocks(v);
    LastTestIsRedundant(ip);
    ZeroIsSpecial();
    AddressBound(ip);
    SpecialV4Covers(v);
    ExceptionV4Covers(v);
    if Covers(EXCEPTIONS_V4, v) {
      ExceptionsAreUnicast(v);
    }
  }

  lemma AddressBound(ip: Key)
    requires |ip| == 4
    ensures Value(ip) < 0x1_0000_0000
  {
    ValueBound(ip);
    SmallSizes();
    hide Pow;
  }

  /** What is no address counts as local. */
  lemma NoAddressIsLocal()
    ensures Classify(None) == "lan"
  {}

  /** An IPv4-mapped address is classified as its bare IPv4 form. */
  lemma MappedIsBare(v4: Key)
    requires |v4| == 4
    ensures Classify(Some(RangeRows.Mapped(v4))) == Classify(Some(v4))
  {
    assert RangeRows.Mapped(v4)[12..] == v4;
    assert Bare(RangeRows.Mapped(v4)) == v4;
    hide Standard, Covered, IsGlobalUnicast;
  }
}
