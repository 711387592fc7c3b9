/** PBKDF2 (section 5.2 of RFC 8018) and scrypt (section 6 of RFC 7914), with web/auth.go's code. */
module Kdf {
  import opened Bits
  import opened Words
  import opened BlockMix
  import opened RoMix
  import opened Strides
  import LittleEndian

  type Bytes = seq<Byte>

  /** HMAC-SHA256 enters only as some function from key and message to 32 bytes. */
  type Digest = d: Bytes | |d| == 32 witness seq(32, _ => 0)
  type Prf = (Bytes, Bytes) -> Digest

  // ---------------------------------------------------------- PBKDF2, reference

  function XorByte(a: Byte, b: Byte): Byte {
    a ^ b
  }

  function XorDigest(x: Digest, y: Digest): Digest {
    seq(32, i requires 0 <= i < 32 => XorByte(x[i], y[i]))
  }

  /** INT(i): the four-byte big-endian form of uint32(i). */
  function BigEndian(i: nat): Bytes {
    var w := FromNat(i);
    [LittleEndian.ByteOf(w, 3), LittleEndian.ByteOf(w, 2), LittleEndian.ByteOf(w, 1), LittleEndian.ByteOf(w, 0)]
  }

  /** U_j of block i, for j = 1, 2, ... */
  function U(prf: Prf, password: Bytes, salt: Bytes, i: nat, j: nat): Digest
    requires j > 0
  {
    prf(password, if j == 1 then salt + BigEndian(i) else U(prf, password, salt, i, j - 1))
  }

  /** T_i = U_1 xor ... xor U_c. */
  function T(prf: Prf, password: Bytes, salt: Bytes, c: nat, i: nat): Digest
    requires c > 0
  {
    if c == 1 then U(prf, password, salt, i, 1)
    else XorDigest(T(prf, password, salt, c - 1, i), U(prf, password, salt, i, c))
  }

  /** T_1 || ... || T_blocks. */
  function Stream(prf: Prf, password: Bytes, salt: Bytes, c: nat, blocks: nat): (s: Bytes)
    requires c > 0
    ensures |s| == 32 * blocks
  {
    if blocks == 0 then [] else Stream(prf, password, salt, c, blocks - 1) + T(prf, password, salt, c, blocks)
  }

  function Pbkdf2(prf: Prf, password: Bytes, salt: Bytes, c: nat, keyLen: nat): (dk: Bytes)
    requires c > 0
    ensures |dk| == keyLen
  {
    Stream(prf, password, salt, c, (keyLen + 31) / 32)[..keyLen]
  }

  /** A longer key begins with every shorter one: the blocks do not depend on the length asked for. */
  lemma {:induction false} StreamExtends(prf: Prf, password: Bytes, salt: Bytes, c: nat, m: nat, n: nat)
    requires c > 0 && m <= n
    ensures Stream(prf, password, salt, c, n)[..32 * m] == Stream(prf, password, salt, c, m)
    decreases n
  {
    if m < n {
      hide T;
      StreamExtends(prf, password, salt, c, m, n - 1);
      var s := Stream(prf, password, salt, c, n - 1);
      assert (s + T(prf, password, salt, c, n))[..32 * m] == s[..32 * m];
    }
  }

  lemma KeysArePrefixes(prf: Prf, password: Bytes, salt: Bytes, c: nat, short: nat, long: nat)
    requires c > 0 && short <= long
    ensures Pbkdf2(prf, password, salt, c, short) == Pbkdf2(prf, password, salt, c, long)[..short]
  {
    var (m, n) := ((short + 31) / 32, (long + 31) / 32);
    StreamExtends(prf, password, salt, c, m, n);
    var s := Stream(prf, password, salt, c, n);
    assert s[..32 * m][..short] == s[..short] == s[..long][..short];
  }

  /** The octets of INT(i), most significant first, write i modulo 2^32. */
  lemma IntIsBigEndian(i: nat)
    ensures var o := BigEndian(i);
            0x100_0000 * ToNat(o[0] as Word) + 0x1_0000 * ToNat(o[1] as Word) + 0x100 * ToNat(o[2] as Word)
              + ToNat(o[3] as Word) == i % TWO_TO_32
  {
    FromNatValue(i);
    LittleEndian.WordValue(FromNat(i));
    hide ToNat, FromNat, LittleEndian.ByteOf;
  }

  /** A bit of the exclusive or is set when it is set in one of the two bytes and not in both. */
  lemma XorIsExclusive(a: Byte, b: Byte)
    ensures XorByte(a, b) == (a | b) & !(a & b)
  {}

  /** Octet k of a key is octet k mod 32 of T_(k div 32 + 1). */
  lemma {:induction false} KeyOctet(prf: Prf, password: Bytes, salt: Bytes, c: nat, keyLen: nat, k: nat)
    requires c > 0 && k < keyLen
    ensures Pbkdf2(prf, password, salt, c, keyLen)[k] == T(prf, password, salt, c, k / 32 + 1)[k % 32]
  {
    hide T;
    StreamOctet(prf, password, salt, c, (keyLen + 31) / 32, k);
  }

  lemma {:induction false} StreamOctet(prf: Prf, password: Bytes, salt: Bytes, c: nat, blocks: nat, k: nat)
    requires c > 0 && k < 32 * blocks
    ensures Stream(prf, password, salt, c, blocks)[k] == T(prf, password, salt, c, k / 32 + 1)[k % 32]
    decreases blocks
  {
    hide T;
    if k < 32 * (blocks - 1) {
      StreamOctet(prf, password, salt, c, blocks - 1, k);
    } else {
      assert k / 32 == blocks - 1;
    }
  }

  // ---------------------------------------------------------- PBKDF2, the code

  method Sum(prf: Prf, password: Bytes, message: Bytes, u: array<Byte>)
    requires u.Length == 32
    modifies u
    ensures u[..] == prf(password, message)
  {
    var d := prf(password, message);
    forall i | 0 <= i < 32 {
      u[i] := d[i];
    }
    assert u[..] == d;
  }

  method XorBytes(t: array<Byte>, u: array<Byte>)
    requires t.Length == u.Length == 32 && t != u
    modifies t
    ensures t[..] == XorDigest(old(t[..]), u[..])
  {
    hide XorByte;
    var j := 0;
    while j < 32
      invariant 0 <= j <= 32
      invariant forall k :: 0 <= k < j ==> t[k] == XorByte(old(t[k]), u[k])
      invariant forall k :: j <= k < 32 ==> t[k] == old(t[k])
    {
      t[j] := XorByte(t[j], u[j]);
      j := j + 1;
    }
    assert t[..] == XorDigest(old(t[..]), u[..]);
  }

  /** web/auth.go `pbkdf2SHA256`; an iteration count below one acts as one. */
  method Pbkdf2Sha256(prf: Prf, password: Bytes, salt: Bytes, iter: int, keyLen: nat) returns (key: Bytes)
    ensures key == Pbkdf2(prf, password, salt, if iter < 1 then 1 else iter, keyLen)
  {
    hide XorDigest, BigEndian;
    ghost var c := if iter < 1 then 1 else iter;
    var numBlocks := (keyLen + 32 - 1) / 32;
    var dk := [];
    var u := new Byte[32](_ => 0);
    var t := new Byte[32](_ => 0);
    var block := 1;
    while block <= numBlocks
      invariant 1 <= block <= numBlocks + 1
      invariant dk == Stream(prf, password, salt, c, block - 1)
    {
      Sum(prf, password, salt + BigEndian(block), u);
      CopyDigest(t, u);
      var i := 1;
      while i < iter
        invariant 1 <= i <= c
        invariant u[..] == U(prf, password, salt, block, i)
        invariant t[..] == T(prf, password, salt, i, block)
      {
        Sum(prf, password, u[..], u);
        XorBytes(t, u);
        i := i + 1;
      }
      dk := dk + t[..];
      block := block + 1;
    }
    key := dk[..keyLen];
  }

  method CopyDigest(t: array<Byte>, u: array<Byte>)
    requires t.Length == u.Length == 32 && t != u
    modifies t
    ensures t[..] == u[..]
  {
    forall i | 0 <= i < 32 {
      t[i] := u[i];
    }
  }

  // ---------------------------------------------------------- scrypt, reference

  lemma WholeBlocks(length: nat)
    requires length % 128 == 0
    ensures length % 4 == 0 && length / 4 / 16 * 16 * 4 == length
  {
    var d := length / 128;
    assert length == 128 * d && length / 4 == 32 * d && length / 4 / 16 == 2 * d;
  }

  /** scryptROMix on the octets of one block. */
  function RomixBytes(block: Bytes, n: nat, rule: Rule): (out: Bytes)
    requires n > 0 && |block| > 0 && |block| % 128 == 0
    ensures |out| == |block|
  {
    WholeBlocks(|block|);
    LittleEndian.BytesOf(Flat(Romix(BlocksOf(LittleEndian.WordsOf(block)), n, rule)))
  }

  /** B'_0 || ... || B'_(count-1): each block of 128r octets mixed on its own. */
  function MixEach(b: Bytes, n: nat, r: nat, count: nat, rule: Rule): (out: Bytes)
    requires n > 0 && r > 0 && |b| >= 128 * r * count
    ensures |out| == 128 * r * count
  {
    if count == 0 then [] else
      var w := 128 * r;
      BlockEnds(w, count);
      MixEach(b, n, r, count - 1, rule) + RomixBytes(b[w * (count - 1)..w * count], n, rule)
  }

  lemma BlockEnds(w: nat, count: nat)
    requires count > 0
    ensures w * count == w * (count - 1) + w && w * (count - 1) >= 0
  {}

  function Scrypt(prf: Prf, password: Bytes, salt: Bytes, n: nat, r: nat, p: nat, dkLen: nat, rule: Rule): (dk: Bytes)
    requires n > 0 && r > 0
    ensures |dk| == dkLen
  {
    var b := Pbkdf2(prf, password, salt, 1, 128 * r * p);
    Pbkdf2(prf, password, MixEach(b, n, r, p, rule), 1, dkLen)
  }

  /** B as the RFC has it: the octets of PBKDF2 with one iteration. */
  ghost predicate Derived(prf: Prf, password: Bytes, salt: Bytes, key: Bytes) {
    forall j {:trigger key[j]} :: 0 <= j < |key| ==> key[j] == prf(password, salt + BigEndian(j / 32 + 1))[j % 32]
  }

  lemma DerivedIsKey(prf: Prf, password: Bytes, salt: Bytes, key: Bytes)
    requires Derived(prf, password, salt, key)
    ensures key == Pbkdf2(prf, password, salt, 1, |key|)
  {
    hide BigEndian;
    var dk := Pbkdf2(prf, password, salt, 1, |key|);
    forall j | 0 <= j < |key| ensures dk[j] == key[j] {
      KeyOctet(prf, password, salt, 1, |key|, j);
    }
    hide Pbkdf2, U, T;
  }

  /** Block i of a buffer is block i of b, put through scryptROMix. */
  ghost predicate OneMixed(b: Bytes, mixed: Bytes, n: nat, w: nat, i: nat, rule: Rule)
    requires n > 0 && w > 0 && w % 128 == 0
  {
    |Row(b, w, i)| == w && Row(mixed, w, i) == RomixBytes(Row(b, w, i), n, rule)
  }

  ghost predicate AllMixed(b: Bytes, mixed: Bytes, n: nat, w: nat, count: nat, rule: Rule)
    requires n > 0 && w > 0 && w % 128 == 0
  {
    forall i :: 0 <= i < count ==> OneMixed(b, mixed, n, w, i, rule)
  }

  lemma FrontMixed(b: Bytes, mixed: Bytes, n: nat, w: nat, count: nat, rule: Rule)
    requires n > 0 && w > 0 && w % 128 == 0 && count > 0 && |mixed| == w * count <= |b|
    requires AllMixed(b, mixed, n, w, count, rule)
    ensures 0 <= w * (count - 1) <= |mixed| && |b[w * (count - 1)..w * count]| == w
    ensures AllMixed(b, mixed[..w * (count - 1)], n, w, count - 1, rule)
    ensures mixed == mixed[..w * (count - 1)] + RomixBytes(b[w * (count - 1)..w * count], n, rule)
  {
    hide RomixBytes;
    BlockEnds(w, count);
    var front := mixed[..w * (count - 1)];
    forall i | 0 <= i < count - 1 ensures OneMixed(b, front, n, w, i, rule) {
      assert OneMixed(b, mixed, n, w, i, rule);
      RowFits(w, i, count - 1);
      assert Row(front, w, i) == Row(mixed, w, i);
    }
    assert OneMixed(b, mixed, n, w, count - 1, rule);
    assert Row(mixed, w, count - 1) == mixed[w * (count - 1)..];
    assert Row(b, w, count - 1) == b[w * (count - 1)..w * count];
  }

  lemma {:induction false} AllMixedIsMixed(b: Bytes, mixed: Bytes, n: nat, r: nat, count: nat, rule: Rule)
    requires n > 0 && r > 0 && |b| >= 128 * r * count && |mixed| == 128 * r * count && 128 * r % 128 == 0
    requires AllMixed(b, mixed, n, 128 * r, count, rule)
    ensures mixed == MixEach(b, n, r, count, rule)
    decreases count
  {
    hide RomixBytes, AllMixed;
    if count > 0 {
      FrontMixed(b, mixed, n, 128 * r, count, rule);
      AllMixedIsMixed(b, mixed[..128 * r * (count - 1)], n, r, count - 1, rule);
    }
  }

  /**
   * Section 6 of RFC 7914 octet by octet: whatever B is derived from the password and the salt, and whatever buffer
   * holds its p blocks mixed, the key is derived from the password and that buffer.
   */
  lemma ScryptByOctets(
      prf: Prf, password: Bytes, salt: Bytes, n: nat, r: nat, p: nat, rule: Rule, b: Bytes, mixed: Bytes, key: Bytes)
    requires n > 0 && r > 0 && |b| == |mixed| == 128 * r * p && 128 * r % 128 == 0
    requires Derived(prf, password, salt, b) && AllMixed(b, mixed, n, 128 * r, p, rule)
    requires Derived(prf, password, mixed, key)
    ensures Scrypt(prf, password, salt, n, r, p, |key|, rule) == key
  {
    DerivedIsKey(prf, password, salt, b);
    AllMixedIsMixed(b, mixed, n, r, p, rule);
    DerivedIsKey(prf, password, mixed, key);
    hide Pbkdf2, MixEach, Derived, AllMixed;
  }

  lemma {:induction false} MaskedMixIsMix(b: Bytes, k: nat, r: nat, count: nat)
    requires k <= 32 && r > 0 && |b| >= 128 * r * count
    ensures MixEach(b, Pow(2, k), r, count, Masked) == MixEach(b, Pow(2, k), r, count, Rfc)
  {
    hide RomixBytes, Pow;
    if count > 0 {
      var w := 128 * r;
      BlockEnds(w, count);
      MaskedMixIsMix(b, k, r, count - 1);
      MaskedBytesAreBytes(b[w * (count - 1)..w * count], k);
    }
  }

  lemma MaskedBytesAreBytes(block: Bytes, k: nat)
    requires k <= 32 && |block| > 0 && |block| % 128 == 0
    ensures RomixBytes(block, Pow(2, k), Masked) == RomixBytes(block, Pow(2, k), Rfc)
  {
    hide Romix, Flat, BlocksOf, Pow, LittleEndian.BytesOf, LittleEndian.WordsOf;
    MaskedRomixIsRomix(BlocksOf(LittleEndian.WordsOf(block)), k);
  }

  /** The masked scrypt is the scrypt of the RFC for every N = 2^k up to 2^32. */
  lemma MaskedScryptIsScrypt(prf: Prf, password: Bytes, salt: Bytes, k: nat, r: nat, p: nat, dkLen: nat)
    requires k <= 32 && r > 0
    ensures Scrypt(prf, password, salt, Pow(2, k), r, p, dkLen, Masked)
      == Scrypt(prf, password, salt, Pow(2, k), r, p, dkLen, Rfc)
  {
    MaskedMixIsMix(Pbkdf2(prf, password, salt, 1, 128 * r * p), k, r, p);
  }

  // ---------------------------------------------------------- scrypt, the code

  datatype KdfError = BadN | BadRP | BadKeyLength | TooLarge
  datatype KdfResult = Key(bytes: Bytes) | Refused(error: KdfError) | Panicked

  datatype Verdict = Accept | Reject(error: KdfError) | Panic

  const TWO_TO_63 := 0x8000_0000_0000_0000
  const TWO_TO_64 := 0x1_0000_0000_0000_0000

  /**
   * The refusals of `scryptKey`, first match first. Sizes are taken in 64 bits, so huge parameters can slip past the
   * size test; a buffer or the table is then too short for its blocks, and making or slicing it panics.
   */
  ghost function Check(n: int, r: int, p: int, dkLen: int): Verdict {
    if n <= 1 || !IsPowerOfTwo(n) then Reject(BadN)
    else if r <= 0 || p <= 0 then Reject(BadRP)
    else if dkLen <= 0 then Reject(BadKeyLength)
    else if r * p % TWO_TO_64 >= 0x4000_0000 then Reject(TooLarge)
    else if r * p >= TWO_TO_64 || n * (32 * r) >= TWO_TO_63 then Panic
    else Accept
  }

  /** A number kept in a signed 64-bit integer. */
  function Signed64(x: int): int {
    if x % TWO_TO_64 < TWO_TO_63 then x % TWO_TO_64 else x % TWO_TO_64 - TWO_TO_64
  }

  /** The code panics when the length it computes for the p blocks, or for the table of N, is less than they take. */
  lemma WrappedSizesAreTooShort(n: int, r: int, p: int, dkLen: int)
    requires !Check(n, r, p, dkLen).Reject?
    ensures Check(n, r, p, dkLen).Panic? <==>
              Signed64(128 * (r * p)) < 128 * (r * p) || Signed64(n * (32 * r)) < n * (32 * r)
  {
    var (q, rest) := (r * p / TWO_TO_64, r * p % TWO_TO_64);
    assert r * p == q * TWO_TO_64 + rest;
    ModuloUnique(128 * (r * p), 128 * q, TWO_TO_64, 128 * rest);
    NonNegative(n, 32 * r);
    hide IsPowerOfTwo;
    SignedFits(128 * (r * p));
    SignedFits(n * (32 * r));
  }

  lemma SignedFits(x: nat)
    ensures Signed64(x) < x <==> x >= TWO_TO_63
  {}

  /** The parameters section 2 of RFC 7914 allows. */
  ghost predicate RfcAllows(n: int, r: int, p: int, dkLen: int) {
    && n > 1 && IsPowerOfTwo(n) && r > 0 && n < Pow(2, 16 * r)
    && p > 0 && p * (128 * r) <= (TWO_TO_32 - 1) * 32 && 0 < dkLen <= (TWO_TO_32 - 1) * 32
  }

  /** The code accepts more than the RFC allows: exactly the bounds of N by r and of the key length are missing. */
  lemma RfcAllowsExactly(n: int, r: int, p: int, dkLen: int)
    ensures RfcAllows(n, r, p, dkLen) <==>
            !Check(n, r, p, dkLen).Reject? && n < Pow(2, 16 * r) && dkLen <= (TWO_TO_32 - 1) * 32 && r * p < TWO_TO_64
  {
    hide IsPowerOfTwo, Pow;
    if r > 0 && p > 0 {
      var product := r * p;
      assert p * (128 * r) == 128 * product && product > 0;
      assert 128 * product <= (TWO_TO_32 - 1) * 32 <==> product < 0x4000_0000;
      assert product < TWO_TO_64 ==> product % TWO_TO_64 == product;
    }
  }

  /** N = 2^16 with r = 1: refused by the RFC, accepted by the code. */
  lemma AcceptsBeyondRfc()
    ensures Check(0x1_0000, 1, 1, 32) == Accept && !RfcAllows(0x1_0000, 1, 1, 32)
  {
    assert Pow(2, 8) == 0x100;
    Pow2Adds(8, 8);
    assert IsPowerOfTwo(0x1_0000);
    RfcAllowsExactly(0x1_0000, 1, 1, 32);
    hide Pow;
  }

  /** The block counter has 32 bits, so longer keys repeat their blocks. */
  lemma BlocksRepeat(prf: Prf, password: Bytes, salt: Bytes, c: nat, i: nat)
    requires c > 0
    ensures T(prf, password, salt, c, i + TWO_TO_32) == T(prf, password, salt, c, i)
  {
    hide XorDigest, U;
    FirstRepeats(prf, password, salt, i, c);
    if c > 1 {
      BlocksRepeat(prf, password, salt, c - 1, i);
    }
  }

  lemma {:induction false} FirstRepeats(prf: Prf, password: Bytes, salt: Bytes, i: nat, j: nat)
    requires j > 0
    ensures U(prf, password, salt, i + TWO_TO_32, j) == U(prf, password, salt, i, j)
    decreases j
  {
    FromNatWraps(i, 1);
    hide FromNat;
    if j > 1 {
      FirstRepeats(prf, password, salt, i, j - 1);
    }
  }

  /** bytesToUint32LE(blk, xy[:blockWords]). */
  method LoadWords(b: array<Byte>, off: nat, xy: array<Word>, count: nat)
    requires off + 4 * count <= b.Length && count <= xy.Length
    modifies xy
    ensures xy[..count] == LittleEndian.WordsOf(b[off..off + 4 * count])
  {
    hide LittleEndian.Pack;
    var i := 0;
    while i < count
      invariant 0 <= i <= count
      invariant forall k :: 0 <= k < i ==> xy[k] == LittleEndian.WordsOf(b[off..off + 4 * count])[k]
    {
      var at := off + i * 4;
      xy[i] := LittleEndian.Pack(b[at], b[at + 1], b[at + 2], b[at + 3]);
      i := i + 1;
    }
  }

  /** LittleEndian.PutUint32. */
  method PutWord(b: array<Byte>, at: nat, w: Word)
    requires at + 4 <= b.Length
    modifies b
    ensures b[..] == old(b[..at]) + LittleEndian.BytesOf([w]) + old(b[at + 4..])
  {
    hide LittleEndian.ByteOf;
    b[at] := LittleEndian.ByteOf(w, 0);
    b[at + 1] := LittleEndian.ByteOf(w, 1);
    b[at + 2] := LittleEndian.ByteOf(w, 2);
    b[at + 3] := LittleEndian.ByteOf(w, 3);
  }

  /** A buffer whose bytes from off on are the words stored so far. */
  ghost predicate StoredUpTo(start: Bytes, now: Bytes, off: nat, ws: seq<Word>) {
    && off + 4 * |ws| <= |start|
    && now == start[..off] + LittleEndian.BytesOf(ws) + start[off + 4 * |ws|..]
  }

  lemma StoreNext(start: Bytes, before: Bytes, after: Bytes, off: nat, ws: seq<Word>, w: Word)
    requires StoredUpTo(start, before, off, ws) && off + 4 * |ws| + 4 <= |start|
    requires var at := off + 4 * |ws|; after == before[..at] + LittleEndian.BytesOf([w]) + before[at + 4..]
    ensures StoredUpTo(start, after, off, ws + [w])
  {
    LittleEndian.BytesPush(ws, w);
    hide LittleEndian.BytesOf;
    var at := off + 4 * |ws|;
    assert before[..at] == start[..off] + LittleEndian.BytesOf(ws);
    assert before[at + 4..] == start[at + 4..];
  }

  /** uint32ToBytesLE(xy[:blockWords], blk). */
  method StoreWords(xy: array<Word>, count: nat, b: array<Byte>, off: nat)
    requires off + 4 * count <= b.Length && count <= xy.Length
    modifies b
    ensures b[off..off + 4 * count] == LittleEndian.BytesOf(xy[..count])
    ensures b[..off] == old(b[..off]) && b[off + 4 * count..] == old(b[off + 4 * count..])
  {
    ghost var start := b[..];
    assert start == start[..off] + LittleEndian.BytesOf(xy[..0]) + start[off..];
    hide LittleEndian.BytesOf;
    var i := 0;
    while i < count
      invariant 0 <= i <= count
      invariant StoredUpTo(start, b[..], off, xy[..i])
    {
      ghost var before := b[..];
      PutWord(b, off + i * 4, xy[i]);
      StoreNext(start, before, b[..], off, xy[..i], xy[i]);
      assert xy[..i + 1] == xy[..i] + [xy[i]];
      i := i + 1;
    }
  }

  /** One turn of the loop of `scryptKey`: the block of b at off is mixed in place. */
  method MixBlock(b: array<Byte>, off: nat, xy: array<Word>, v: array<Word>, n: nat, r: nat, ghost k: nat)
    requires r > 0 && xy != v && xy.Length == 64 * r && n * (32 * r) <= v.Length && n == Pow(2, k)
    requires off + 128 * r <= b.Length
    modifies b, xy, v
    ensures b[off..off + 128 * r] == RomixBytes(old(b[off..off + 128 * r]), n, Masked)
    ensures b[..off] == old(b[..off]) && b[off + 128 * r..] == old(b[off + 128 * r..])
  {
    hide Romix, BlocksOf, Flat, LittleEndian.WordsOf, LittleEndian.BytesOf, Pow;
    LoadWords(b, off, xy, 32 * r);
    ScryptROMix(xy, v, n, r, k);
    FlatBlocks(xy[..32 * r]);
    StoreWords(xy, 32 * r, b, off);
  }

  /** web/auth.go `scryptKey`. */
  method ScryptKey(prf: Prf, password: Bytes, salt: Bytes, n: int, r: int, p: int, dkLen: int)
    returns (result: KdfResult)
    ensures Check(n, r, p, dkLen) == match result
              case Refused(e) => Reject(e)
              case Panicked => Panic
              case Key(_) => Accept
    ensures result.Key? ==> result.bytes == Scrypt(prf, password, salt, n, r, p, dkLen, Masked)
    ensures result.Key? && n <= TWO_TO_32 ==> result.bytes == Scrypt(prf, password, salt, n, r, p, dkLen, Rfc)
  {
    if n > 1 {
      PowerOfTwoExactly(n);
    }
    if n <= 1 || BitAnd(n, n - 1) != 0 {
      return Refused(BadN);
    }
    ghost var k := PowerOfTwoTest(n);
    if r <= 0 || p <= 0 {
      return Refused(BadRP);
    }
    if dkLen <= 0 {
      return Refused(BadKeyLength);
    }
    if r * p % TWO_TO_64 >= 0x4000_0000 {
      return Refused(TooLarge);
    }
    if r * p >= TWO_TO_64 || n * (32 * r) >= TWO_TO_63 {
      return Panicked;
    }
    var key := Derive(prf, password, salt, n, r, p, dkLen, k);
    if n <= TWO_TO_32 {
      ExponentBound(k);
      MaskedScryptIsScrypt(prf, password, salt, k, r, p, dkLen);
    }
    result := Key(key);
  }

  lemma ExponentBound(k: nat)
    requires Pow(2, k) <= TWO_TO_32
    ensures k <= 32
  {
    if k > 32 {
      BeyondTwoTo32(k);
    }
  }

  /** The body of `scryptKey` once its arguments have passed. */
  method Derive(prf: Prf, password: Bytes, salt: Bytes, n: nat, r: nat, p: nat, dkLen: nat, ghost k: nat)
    returns (key: Bytes)
    requires n == Pow(2, k) && r > 0
    ensures key == Scrypt(prf, password, salt, n, r, p, dkLen, Masked)
  {
    hide RomixBytes, Pow, Pbkdf2;
    var w := 128 * r;
    NonNegative(w, p);
    NonNegative(n, 32 * r);
    var seed := Pbkdf2Sha256(prf, password, salt, 1, w * p);
    var b := new Byte[w * p](i requires 0 <= i < w * p => seed[i]);
    assert b[..] == seed;
    var v := new Word[n * (32 * r)];
    var xy := new Word[2 * (32 * r)];
    var i := 0;
    assert b[..w * 0] == [];
    while i < p
      invariant 0 <= i <= p && 0 <= w * i <= w * p == b.Length
      invariant b[..w * i] == MixEach(seed, n, r, i, Masked)
      invariant b[w * i..] == seed[w * i..]
    {
      BlockEnds(w, i + 1);
      RowFits(w, i, p);
      ghost var before := b[..];
      MixBlock(b, w * i, xy, v, n, r, k);
      NextBlock(before, b[..], seed, w, i, p);
      i := i + 1;
    }
    assert b[..w * p] == b[..];
    key := Pbkdf2Sha256(prf, password, b[..], 1, dkLen);
  }

  lemma NextBlock(before: Bytes, after: Bytes, seed: Bytes, w: nat, i: nat, p: nat)
    requires |before| == |after| == |seed| == w * p && i < p && 0 <= w * i <= w * (i + 1) <= w * p
    requires before[w * i..] == seed[w * i..]
    requires after[..w * i] == before[..w * i] && after[w * (i + 1)..] == before[w * (i + 1)..]
    ensures before[w * i..w * (i + 1)] == seed[w * i..w * (i + 1)]
    ensures after[..w * (i + 1)] == before[..w * i] + after[w * i..w * (i + 1)]
    ensures after[w * (i + 1)..] == seed[w * (i + 1)..]
  {
    var (lo, hi) := (w * i, w * (i + 1));
    assert before[lo..hi] == before[lo..][..hi - lo];
    assert before[hi..] == before[lo..][hi - lo..];
    assert seed[hi..] == seed[lo..][hi - lo..];
  }
}
