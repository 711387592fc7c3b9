/** Machine words, the natural numbers they stand for, and their little-endian bytes. */
module Words {
  import opened Bits

  type Byte = bv8
  type Word = bv32

  const TWO_TO_32 := 0x1_0000_0000

  /** web/auth.go `rotl`. */
  function Rotl(v: Word, n: nat): Word
    requires 0 < n < 32
  {
    (v << n) | (v >> (32 - n))
  }

  /** Addition modulo 2^32. */
  function Plus(a: Word, b: Word): Word {
    a + b
  }

  /** One add-rotate-xor step: `y ^= rotl(a + b, n)`. */
  function Arx(y: Word, a: Word, b: Word, n: nat): Word
    requires 0 < n < 32
  {
    y ^ Rotl(a + b, n)
  }

  lemma ArxCancels(y: Word, a: Word, b: Word, n: nat)
    requires 0 < n < 32
    ensures Arx(Arx(y, a, b, n), a, b, n) == y
  {
    var m := Rotl(a + b, n);
    hide Rotl;
    assert (y ^ m) ^ m == y;
  }

  // ---------------------------------------------------------- words as numbers

  function Odd(w: Word): bool {
    w & 1 == 1
  }

  function Half(w: Word): Word {
    w >> 1
  }

  function And(a: Word, b: Word): Word {
    a & b
  }

  /** The number a word denotes, read off bit by bit. */
  function ToNat(w: Word): nat
    decreases w
  {
    if w == 0 then 0 else Bit(Odd(w)) + 2 * ToNat(Half(w))
  }

  /** Shifts a bit in from the right; the top bit falls out. */
  function Push(w: Word, b: bool): Word {
    (w << 1) | (if b then 1 else 0)
  }

  /** Go's conversion `uint32(n)`: the low 32 bits of n. */
  function FromNat(n: nat): Word {
    if n == 0 then 0 else Push(FromNat(n / 2), n % 2 == 1)
  }

  lemma ToNatStep(w: Word)
    ensures ToNat(w) == Bit(Odd(w)) + 2 * ToNat(Half(w))
  {}

  // ---------------------------------------------------------- bytes of a word

  function LowByte(w: Word): Word {
    w & 0xff
  }

  function HighBytes(w: Word): Word {
    w >> 8
  }

  /** The number written b7...b0 in binary. */
  function Binary(b0: bool, b1: bool, b2: bool, b3: bool, b4: bool, b5: bool, b6: bool, b7: bool): (n: nat)
    ensures n < 256
  {
    Bit(b0) + 2 * Bit(b1) + 4 * Bit(b2) + 8 * Bit(b3) + 16 * Bit(b4) + 32 * Bit(b5) + 64 * Bit(b6) + 128 * Bit(b7)
  }

  /** The number formed by the eight low bits of w. */
  function LowBits(w: Word): (n: nat)
    ensures n < 256
  {
    Binary(Odd(w), Odd(Half(w)), Odd(Half(Half(w))), Odd(Half(Half(Half(w)))),
      Odd(Half(Half(Half(Half(w))))), Odd(Half(Half(Half(Half(Half(w)))))),
      Odd(Half(Half(Half(Half(Half(Half(w))))))), Odd(Half(Half(Half(Half(Half(Half(Half(w)))))))))
  }

  lemma EightSteps(w: Word)
    ensures ToNat(w) == LowBits(w) + 256 * ToNat(HighBytes(w))
  {
    hide ToNat, Odd, Half, HighBytes;
    var w1 := Half(w);
    var w2 := Half(w1);
    var w3 := Half(w2);
    var w4 := Half(w3);
    var w5 := Half(w4);
    var w6 := Half(w5);
    var w7 := Half(w6);
    ToNatStep(w);
    ToNatStep(w1);
    ToNatStep(w2);
    ToNatStep(w3);
    ToNatStep(w4);
    ToNatStep(w5);
    ToNatStep(w6);
    ToNatStep(w7);
    EightHalves(w);
  }

  lemma EightHalves(w: Word)
    ensures Half(Half(Half(Half(Half(Half(Half(Half(w)))))))) == HighBytes(w)
  {}

  lemma SameLowBits(w: Word)
    ensures LowBits(LowByte(w)) == LowBits(w)
  {
    hide Odd, Half, LowByte, Binary;
    SameBit1(w);
    SameBit2(w);
    SameBit3(w);
    SameBit4(w);
  }

  lemma SameBit1(w: Word)
    ensures Odd(LowByte(w)) == Odd(w) && Odd(Half(LowByte(w))) == Odd(Half(w))
  {}

  lemma SameBit2(w: Word)
    ensures Odd(Half(Half(LowByte(w)))) == Odd(Half(Half(w)))
    ensures Odd(Half(Half(Half(LowByte(w))))) == Odd(Half(Half(Half(w))))
  {}

  lemma SameBit3(w: Word)
    ensures Odd(Half(Half(Half(Half(LowByte(w)))))) == Odd(Half(Half(Half(Half(w)))))
    ensures Odd(Half(Half(Half(Half(Half(LowByte(w))))))) == Odd(Half(Half(Half(Half(Half(w))))))
  {}

  lemma SameBit4(w: Word)
    ensures Odd(Half(Half(Half(Half(Half(Half(LowByte(w)))))))) == Odd(Half(Half(Half(Half(Half(Half(w)))))))
    ensures Odd(Half(Half(Half(Half(Half(Half(Half(LowByte(w)))))))))
      == Odd(Half(Half(Half(Half(Half(Half(Half(w))))))))
  {}

  /** The low byte and the rest of a word, as numbers. */
  lemma ToNatBytes(w: Word)
    ensures ToNat(w) == ToNat(LowByte(w)) + 256 * ToNat(HighBytes(w))
    ensures ToNat(LowByte(w)) < 256
  {
    EightSteps(w);
    EightSteps(LowByte(w));
    SameLowBits(w);
    NoHighBytes(w);
    hide LowBits, LowByte, HighBytes;
  }

  lemma NoHighBytes(w: Word)
    ensures HighBytes(LowByte(w)) == 0
  {}

  // ---------------------------------------------------------- wrap-around

  /** The word w shifted left by k places. */
  function Shifted(w: Word, k: nat): Word {
    if k == 0 then w else Push(Shifted(w, k - 1), false)
  }

  function Or(a: Word, b: Word): Word {
    a | b
  }

  function ShiftByte(w: Word): Word {
    w << 8
  }

  lemma PushOr(a: Word, t: Word, b: bool)
    ensures Push(Or(a, t), b) == Or(Push(a, b), Push(t, false))
  {
    hide Push, Or;
    if b {
      PushOrOne(a, t);
    } else {
      PushOrZero(a, t);
    }
  }

  lemma PushOrOne(a: Word, t: Word)
    ensures Push(Or(a, t), true) == Or(Push(a, true), Push(t, false))
  {}

  lemma PushOrZero(a: Word, t: Word)
    ensures Push(Or(a, t), false) == Or(Push(a, false), Push(t, false))
  {}

  lemma OrZero(w: Word)
    ensures Or(0, w) == w == Or(w, 0)
  {}

  lemma FromNatStep(n: nat)
    ensures FromNat(n) == Push(FromNat(n / 2), n % 2 == 1)
  {}

  /** The low k bits of n shifted into w from the right. */
  function PushBits(w: Word, n: nat, k: nat): Word {
    if k == 0 then w else Push(PushBits(w, n / 2, k - 1), n % 2 == 1)
  }

  lemma {:induction false} FromNatByBits(n: nat, k: nat) returns (w: Word)
    ensures FromNat(n) == PushBits(w, n, k)
    decreases k
  {
    hide FromNat, Push;
    if k == 0 {
      w := FromNat(n);
    } else {
      FromNatStep(n);
      w := FromNatByBits(n / 2, k - 1);
    }
  }

  lemma {:induction false} BitsApart(w: Word, n: nat, k: nat)
    ensures PushBits(w, n, k) == Or(PushBits(0, n, k), Shifted(w, k))
    decreases k
  {
    hide Push, Or;
    if k == 0 {
      OrZero(w);
    } else {
      BitsApart(w, n / 2, k - 1);
      PushOr(PushBits(0, n / 2, k - 1), Shifted(w, k - 1), n % 2 == 1);
    }
  }

  lemma {:induction false} HighBitsIgnored(n: nat, m: nat, k: nat)
    ensures PushBits(0, n + Pow(2, k) * m, k) == PushBits(0, n, k)
    decreases k
  {
    hide Push;
    if k > 0 {
      var p := Pow(2, k - 1) * m;
      assert Pow(2, k) * m == 2 * p;
      assert (n + 2 * p) / 2 == n / 2 + p && (n + 2 * p) % 2 == n % 2;
      HighBitsIgnored(n / 2, m, k - 1);
    }
  }

  lemma ShiftedByEight(w: Word, k: nat)
    ensures Shifted(w, k + 8) == ShiftByte(Shifted(w, k))
  {
    hide Push, ShiftByte;
    EightPushes(Shifted(w, k));
    assert Shifted(w, k + 2) == Push(Push(Shifted(w, k), false), false);
    assert Shifted(w, k + 4) == Push(Push(Shifted(w, k + 2), false), false);
    assert Shifted(w, k + 6) == Push(Push(Shifted(w, k + 4), false), false);
    assert Shifted(w, k + 8) == Push(Push(Shifted(w, k + 6), false), false);
  }

  lemma EightPushes(w: Word)
    ensures var v := Push(Push(Push(Push(w, false), false), false), false);
            Push(Push(Push(Push(v, false), false), false), false) == ShiftByte(w)
  {}

  lemma FourShifts(w: Word)
    ensures ShiftByte(ShiftByte(ShiftByte(ShiftByte(w)))) == 0
  {}

  lemma ShiftedOut(w: Word)
    ensures Shifted(w, 32) == 0
  {
    ShiftedByEight(w, 0);
    ShiftedByEight(w, 8);
    ShiftedByEight(w, 16);
    ShiftedByEight(w, 24);
    FourShifts(w);
    assert Shifted(w, 0) == w;
    hide Shifted, ShiftByte;
  }

  /** Numbers that differ by a multiple of 2^32 are the same word. */
  lemma FromNatWraps(n: nat, m: nat)
    ensures FromNat(n + TWO_TO_32 * m) == FromNat(n)
  {
    hide FromNat, PushBits, Shifted;
    TwoTo32IsPow2();
    HighBitsIgnored(n, m, 32);
    var v := FromNatByBits(n, 32);
    var w := FromNatByBits(n + TWO_TO_32 * m, 32);
    BitsApart(v, n, 32);
    BitsApart(w, n + TWO_TO_32 * m, 32);
    ShiftedOut(v);
    ShiftedOut(w);
    hide Or;
  }

  lemma TwoTo32IsPow2()
    ensures Pow(2, 32) == TWO_TO_32
  {
    assert Pow(2, 8) == 0x100;
    Pow2Adds(8, 8);
    Pow2Adds(16, 16);
  }

  // ---------------------------------------------------------- masks

  /** Masking with 2^k - 1, itself cut to 32 bits, is reduction modulo 2^k. */
  lemma {:induction false} MaskIsModulus(w: Word, k: nat)
    ensures ToNat(And(w, FromNat(Pow(2, k) - 1))) == ToNat(w) % Pow(2, k)
    decreases k
  {
    if k == 0 {
      assert And(w, FromNat(0)) == 0;
    } else {
      hide ToNat, FromNat, And, Odd, Half;
      MaskHalves(w, Pow(2, k) - 1);
      MaskIsModulus(Half(w), k - 1);
      ToNatStep(w);
      ModuloStep(Bit(Odd(w)), ToNat(Half(w)), Pow(2, k - 1));
    }
  }

  lemma MaskHalves(w: Word, n: nat)
    requires n % 2 == 1
    ensures ToNat(And(w, FromNat(n))) == Bit(Odd(w)) + 2 * ToNat(And(Half(w), FromNat(n / 2)))
  {
    hide ToNat, FromNat, And, Odd, Half;
    MaskStep(w, n);
    ToNatStep(And(w, FromNat(n)));
  }

  lemma PushOne(w: Word, m: Word)
    ensures Odd(And(w, Push(m, true))) == Odd(w)
    ensures Half(And(w, Push(m, true))) == And(Half(w), m)
  {}

  lemma MaskStep(w: Word, n: nat)
    requires n % 2 == 1
    ensures Odd(And(w, FromNat(n))) == Odd(w)
    ensures Half(And(w, FromNat(n))) == And(Half(w), FromNat(n / 2))
  {
    PushOne(w, FromNat(n / 2));
    hide Push, And, Odd, Half;
  }

  // ---------------------------------------------------------- numbers as words

  lemma Ones()
    ensures FromNat(0x7fff_ffff) == 0x7fff_ffff && FromNat(0xffff_ffff) == 0xffff_ffff
  {
    assert FromNat(0x3) == 0x3;
    assert FromNat(0xf) == 0xf;
    assert FromNat(0x3f) == 0x3f;
    assert FromNat(0xff) == 0xff;
    assert FromNat(0x3ff) == 0x3ff;
    assert FromNat(0xfff) == 0xfff;
    assert FromNat(0x3fff) == 0x3fff;
    assert FromNat(0xffff) == 0xffff;
    assert FromNat(0x3_ffff) == 0x3_ffff;
    assert FromNat(0xf_ffff) == 0xf_ffff;
    assert FromNat(0x3f_ffff) == 0x3f_ffff;
    assert FromNat(0xff_ffff) == 0xff_ffff;
    assert FromNat(0x3ff_ffff) == 0x3ff_ffff;
    assert FromNat(0xfff_ffff) == 0xfff_ffff;
    assert FromNat(0x3fff_ffff) == 0x3fff_ffff;
  }

  lemma AllOnes(w: Word)
    ensures And(w, 0xffff_ffff) == w
  {}

  lemma WordBound(w: Word)
    ensures ToNat(w) < TWO_TO_32
  {
    Ones();
    TwoTo32IsPow2();
    MaskIsModulus(w, 32);
    AllOnes(w);
    hide ToNat, And;
  }

  lemma PushedBits(w: Word, b: bool)
    ensures Odd(Push(w, b)) == b && Half(Push(w, b)) == And(w, 0x7fff_ffff)
  {}

  /** Shifting a bit in doubles the number; what leaves on the left is a multiple of 2^32. */
  lemma PushValue(w: Word, b: bool)
    ensures ToNat(Push(w, b)) == (Bit(b) + 2 * ToNat(w)) % TWO_TO_32
  {
    hide ToNat, And, Push, Odd, Half;
    Ones();
    TwoTo32IsPow2();
    PushedBits(w, b);
    ToNatStep(Push(w, b));
    MaskIsModulus(w, 31);
    ModuloStep(Bit(b), ToNat(w), Pow(2, 31));
  }

  /** uint32(n) denotes n modulo 2^32. */
  lemma {:induction false} FromNatValue(n: nat)
    ensures ToNat(FromNat(n)) == n % TWO_TO_32
  {
    hide ToNat, Push;
    if n == 0 {
      ZeroWord();
    } else {
      FromNatValue(n / 2);
      FromNatStep(n);
      PushValue(FromNat(n / 2), n % 2 == 1);
      hide FromNat;
      TwiceModulo(n % 2, n / 2);
    }
  }

  lemma ZeroWord()
    ensures ToNat(0) == 0
  {}

  lemma TwiceModulo(b: nat, q: nat)
    ensures (b + 2 * (q % TWO_TO_32)) % TWO_TO_32 == (b + 2 * q) % TWO_TO_32
  {}

  // ---------------------------------------------------------- shifts and rotation

  function Left(w: Word, n: nat): Word
    requires n < 32
  {
    w << n
  }

  function Right(w: Word, n: nat): Word
    requires n < 32
  {
    w >> n
  }

  lemma LeftAt(w: Word)
    ensures Left(w, 0) == w << 0 && Left(w, 1) == w << 1 && Left(w, 2) == w << 2 && Left(w, 3) == w << 3
    ensures Left(w, 4) == w << 4 && Left(w, 5) == w << 5 && Left(w, 6) == w << 6 && Left(w, 7) == w << 7
    ensures Left(w, 8) == w << 8 && Left(w, 9) == w << 9 && Left(w, 10) == w << 10 && Left(w, 11) == w << 11
    ensures Left(w, 12) == w << 12 && Left(w, 13) == w << 13 && Left(w, 14) == w << 14 && Left(w, 15) == w << 15
    ensures Left(w, 16) == w << 16 && Left(w, 17) == w << 17 && Left(w, 18) == w << 18 && Left(w, 19) == w << 19
    ensures Left(w, 20) == w << 20 && Left(w, 21) == w << 21 && Left(w, 22) == w << 22 && Left(w, 23) == w << 23
    ensures Left(w, 24) == w << 24 && Left(w, 25) == w << 25 && Left(w, 26) == w << 26 && Left(w, 27) == w << 27
    ensures Left(w, 28) == w << 28 && Left(w, 29) == w << 29 && Left(w, 30) == w << 30 && Left(w, 31) == w << 31
  {}

  lemma RightAt(w: Word)
    ensures Right(w, 0) == w >> 0 && Right(w, 1) == w >> 1 && Right(w, 2) == w >> 2 && Right(w, 3) == w >> 3
    ensures Right(w, 4) == w >> 4 && Right(w, 5) == w >> 5 && Right(w, 6) == w >> 6 && Right(w, 7) == w >> 7
    ensures Right(w, 8) == w >> 8 && Right(w, 9) == w >> 9 && Right(w, 10) == w >> 10 && Right(w, 11) == w >> 11
    ensures Right(w, 12) == w >> 12 && Right(w, 13) == w >> 13 && Right(w, 14) == w >> 14 && Right(w, 15) == w >> 15
    ensures Right(w, 16) == w >> 16 && Right(w, 17) == w >> 17 && Right(w, 18) == w >> 18 && Right(w, 19) == w >> 19
    ensures Right(w, 20) == w >> 20 && Right(w, 21) == w >> 21 && Right(w, 22) == w >> 22 && Right(w, 23) == w >> 23
    ensures Right(w, 24) == w >> 24 && Right(w, 25) == w >> 25 && Right(w, 26) == w >> 26 && Right(w, 27) == w >> 27
    ensures Right(w, 28) == w >> 28 && Right(w, 29) == w >> 29 && Right(w, 30) == w >> 30 && Right(w, 31) == w >> 31
  {}

  lemma LeftSteps(w: Word)
    ensures Push(w << 0, false) == w << 1 && Push(w << 1, false) == w << 2 && Push(w << 2, false) == w << 3
    ensures Push(w << 3, false) == w << 4 && Push(w << 4, false) == w << 5 && Push(w << 5, false) == w << 6
    ensures Push(w << 6, false) == w << 7 && Push(w << 7, false) == w << 8 && Push(w << 8, false) == w << 9
    ensures Push(w << 9, false) == w << 10 && Push(w << 10, false) == w << 11 && Push(w << 11, false) == w << 12
    ensures Push(w << 12, false) == w << 13 && Push(w << 13, false) == w << 14 && Push(w << 14, false) == w << 15
    ensures Push(w << 15, false) == w << 16 && Push(w << 16, false) == w << 17 && Push(w << 17, false) == w << 18
    ensures Push(w << 18, false) == w << 19 && Push(w << 19, false) == w << 20 && Push(w << 20, false) == w << 21
    ensures Push(w << 21, false) == w << 22 && Push(w << 22, false) == w << 23 && Push(w << 23, false) == w << 24
    ensures Push(w << 24, false) == w << 25 && Push(w << 25, false) == w << 26 && Push(w << 26, false) == w << 27
    ensures Push(w << 27, false) == w << 28 && Push(w << 28, false) == w << 29 && Push(w << 29, false) == w << 30
    ensures Push(w << 30, false) == w << 31
  {}

  lemma RightSteps(w: Word)
    ensures Half(w >> 0) == w >> 1 && Half(w >> 1) == w >> 2 && Half(w >> 2) == w >> 3
    ensures Half(w >> 3) == w >> 4 && Half(w >> 4) == w >> 5 && Half(w >> 5) == w >> 6
    ensures Half(w >> 6) == w >> 7 && Half(w >> 7) == w >> 8 && Half(w >> 8) == w >> 9
    ensures Half(w >> 9) == w >> 10 && Half(w >> 10) == w >> 11 && Half(w >> 11) == w >> 12
    ensures Half(w >> 12) == w >> 13 && Half(w >> 13) == w >> 14 && Half(w >> 14) == w >> 15
    ensures Half(w >> 15) == w >> 16 && Half(w >> 16) == w >> 17 && Half(w >> 17) == w >> 18
    ensures Half(w >> 18) == w >> 19 && Half(w >> 19) == w >> 20 && Half(w >> 20) == w >> 21
    ensures Half(w >> 21) == w >> 22 && Half(w >> 22) == w >> 23 && Half(w >> 23) == w >> 24
    ensures Half(w >> 24) == w >> 25 && Half(w >> 25) == w >> 26 && Half(w >> 26) == w >> 27
    ensures Half(w >> 27) == w >> 28 && Half(w >> 28) == w >> 29 && Half(w >> 29) == w >> 30
    ensures Half(w >> 30) == w >> 31
  {}

  lemma LeftStep(w: Word, n: nat)
    requires n < 31
    ensures Push(Left(w, n), false) == Left(w, n + 1)
  {
    LeftAt(w);
    LeftSteps(w);
    hide Push, Left;
    if n < 16 {
      assert n in {0, 1, 2, 3, 4, 5, 6, 7, 8, 9, 10, 11, 12, 13, 14, 15};
    } else {
      assert n in {16, 17, 18, 19, 20, 21, 22, 23, 24, 25, 26, 27, 28, 29, 30};
    }
  }

  lemma RightStep(w: Word, n: nat)
    requires n < 31
    ensures Half(Right(w, n)) == Right(w, n + 1)
  {
    RightAt(w);
    RightSteps(w);
    hide Half, Right;
    if n < 16 {
      assert n in {0, 1, 2, 3, 4, 5, 6, 7, 8, 9, 10, 11, 12, 13, 14, 15};
    } else {
      assert n in {16, 17, 18, 19, 20, 21, 22, 23, 24, 25, 26, 27, 28, 29, 30};
    }
  }

  lemma NoShift(w: Word)
    ensures Left(w, 0) == w == Right(w, 0)
  {}

  /** Shifting left multiplies modulo 2^32. */
  lemma {:induction false} LeftValue(w: Word, n: nat)
    requires n < 32
    ensures ToNat(Left(w, n)) == ToNat(w) * Pow(2, n) % TWO_TO_32
    decreases n
  {
    hide ToNat, Push, Left;
    if n == 0 {
      NoShift(w);
      WordBound(w);
    } else {
      LeftValue(w, n - 1);
      LeftStep(w, n - 1);
      PushValue(Left(w, n - 1), false);
      DoubledProduct(ToNat(w), Pow(2, n - 1));
    }
  }

  lemma DoubledProduct(x: nat, p: nat)
    ensures (0 + 2 * (x * p % TWO_TO_32)) % TWO_TO_32 == x * (2 * p) % TWO_TO_32
  {
    TwiceModulo(0, x * p);
    assert x * (2 * p) == 2 * (x * p);
  }

  /** Shifting right divides. */
  lemma {:induction false} RightValue(w: Word, n: nat)
    requires n < 32
    ensures ToNat(Right(w, n)) == ToNat(w) / Pow(2, n)
    decreases n
  {
    hide ToNat, Half, Odd, Right;
    if n == 0 {
      NoShift(w);
    } else {
      RightValue(w, n - 1);
      RightStep(w, n - 1);
      ToNatStep(Right(w, n - 1));
      HalfOfQuotient(ToNat(w), Pow(2, n - 1));
    }
  }

  lemma HalfOfQuotient(x: nat, p: nat)
    requires p > 0
    ensures x / p / 2 == x / (2 * p)
  {
    var (q, r) := (x / p, x % p);
    assert x == q / 2 * (2 * p) + (q % 2 * p + r);
    ModuloUnique(x, q / 2, 2 * p, q % 2 * p + r);
  }

  lemma {:induction false} OrAdds(a: Word, b: Word)
    requires And(a, b) == 0
    ensures ToNat(Or(a, b)) == ToNat(a) + ToNat(b)
    decreases a
  {
    hide ToNat, Or, And, Half, Odd;
    if a == 0 {
      ZeroWord();
      OrZero(b);
    } else {
      Halves(a, b);
      OrAdds(Half(a), Half(b));
      ToNatStep(a);
      ToNatStep(b);
      ToNatStep(Or(a, b));
    }
  }

  lemma Halves(a: Word, b: Word)
    requires And(a, b) == 0
    ensures And(Half(a), Half(b)) == 0 && Half(Or(a, b)) == Or(Half(a), Half(b))
    ensures Odd(Or(a, b)) == (Odd(a) || Odd(b)) && !(Odd(a) && Odd(b)) && (a != 0 ==> Half(a) < a)
  {}

  lemma Apart(v: Word)
    ensures And(v << 1, v >> 31) == 0 && And(v << 2, v >> 30) == 0 && And(v << 3, v >> 29) == 0
    ensures And(v << 4, v >> 28) == 0 && And(v << 5, v >> 27) == 0 && And(v << 6, v >> 26) == 0
    ensures And(v << 7, v >> 25) == 0 && And(v << 8, v >> 24) == 0 && And(v << 9, v >> 23) == 0
    ensures And(v << 10, v >> 22) == 0 && And(v << 11, v >> 21) == 0 && And(v << 12, v >> 20) == 0
    ensures And(v << 13, v >> 19) == 0 && And(v << 14, v >> 18) == 0 && And(v << 15, v >> 17) == 0
    ensures And(v << 16, v >> 16) == 0 && And(v << 17, v >> 15) == 0 && And(v << 18, v >> 14) == 0
    ensures And(v << 19, v >> 13) == 0 && And(v << 20, v >> 12) == 0 && And(v << 21, v >> 11) == 0
    ensures And(v << 22, v >> 10) == 0 && And(v << 23, v >> 9) == 0 && And(v << 24, v >> 8) == 0
    ensures And(v << 25, v >> 7) == 0 && And(v << 26, v >> 6) == 0 && And(v << 27, v >> 5) == 0
    ensures And(v << 28, v >> 4) == 0 && And(v << 29, v >> 3) == 0 && And(v << 30, v >> 2) == 0
    ensures And(v << 31, v >> 1) == 0
  {}

  /** What a rotation keeps on the left and what it brings in on the right do not overlap. */
  lemma LeftAndRight(v: Word, n: nat)
    requires 0 < n < 32
    ensures And(Left(v, n), Right(v, 32 - n)) == 0
  {
    LeftAt(v);
    RightAt(v);
    Apart(v);
    hide And, Left, Right;
    if n < 16 {
      assert n in {1, 2, 3, 4, 5, 6, 7, 8, 9, 10, 11, 12, 13, 14, 15};
    } else {
      assert n in {16, 17, 18, 19, 20, 21, 22, 23, 24, 25, 26, 27, 28, 29, 30, 31};
    }
  }

  lemma RotlParts(v: Word, n: nat)
    requires 0 < n < 32
    ensures Rotl(v, n) == Or(Left(v, n), Right(v, 32 - n))
  {}

  /** A rotation multiplies, and adds what leaves on the left again on the right. */
  lemma RotlValue(v: Word, n: nat)
    requires 0 < n < 32
    ensures ToNat(Rotl(v, n)) == ToNat(v) * Pow(2, n) % TWO_TO_32 + ToNat(v) / Pow(2, 32 - n)
  {
    hide ToNat;
    LeftAndRight(v, n);
    RotlParts(v, n);
    hide Rotl, Left, Right, Or, And, Pow;
    LeftValue(v, n);
    RightValue(v, 32 - n);
    OrAdds(Left(v, n), Right(v, 32 - n));
  }
}
