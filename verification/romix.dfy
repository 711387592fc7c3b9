/** scryptROMix: section 5 of RFC 7914, and web/auth.go's version that reuses one buffer. */
module RoMix {
  import opened Bits
  import opened Words
  import opened Salsa
  import opened BlockMix
  import opened Strides
  import LittleEndian

  const ZERO_BLOCK: Block := seq<Word>(16, _ => 0)

  /** An scrypt block: 2r Salsa blocks. */
  type Chunk = b: Blocks | |b| > 0 && |b| % 2 == 0 witness [ZERO_BLOCK, ZERO_BLOCK]

  // ---------------------------------------------------------- reference

  /** V[i]: the input after i applications of scryptBlockMix. */
  function V(b: Chunk, i: nat): (x: Chunk)
    ensures |x| == |b|
  {
    if i == 0 then b else Mixed(V(b, i - 1))
  }

  /** Integerify: the last 64-byte block as a little-endian integer. */
  function Integerify(x: Chunk): nat {
    LittleEndian.Value(LittleEndian.BytesOf(x[|x| - 1]))
  }

  /** How the index into V is chosen: as the RFC says, or by web/auth.go line 236. */
  datatype Rule = Rfc | Masked

  function Index(rule: Rule, x: Chunk, n: nat): nat
    requires n > 0
  {
    match rule
    case Rfc => Integerify(x) % n
    case Masked => ToNat(And(x[|x| - 1][0], FromNat(n - 1)))
  }

  /** X after i rounds of the second loop. */
  function Walk(b: Chunk, n: nat, rule: Rule, i: nat): (x: Chunk)
    requires n > 0
    ensures |x| == |b|
  {
    if i == 0 then V(b, n) else
      var x := Walk(b, n, rule, i - 1);
      Mixed(XorBlocks(x, V(b, Index(rule, x, n))))
  }

  function Romix(b: Chunk, n: nat, rule: Rule): (x: Chunk)
    requires n > 0
    ensures |x| == |b|
  {
    Walk(b, n, rule, n)
  }

  /** V of the RFC as a list: the input and what n applications of scryptBlockMix make of it. */
  ghost predicate Tabled(b: Chunk, vs: seq<Chunk>, n: nat) {
    && |vs| == n + 1 && vs[0] == b && (forall i :: 0 <= i <= n ==> |vs[i]| == |b|)
    && forall i :: 0 < i <= n ==> vs[i] == Mixed(vs[i - 1])
  }

  /** X of the RFC as a list: from V[n] on, each from the one before and the row it names. */
  ghost predicate Walked(vs: seq<Chunk>, xs: seq<Chunk>, n: nat)
    requires n > 0 && |vs| == n + 1 && forall i :: 0 <= i <= n ==> |vs[i]| == |vs[0]|
  {
    && |xs| == n + 1 && xs[0] == vs[n] && (forall i :: 0 <= i <= n ==> |xs[i]| == |vs[0]|)
    && forall i :: 0 < i <= n ==> xs[i] == Mixed(XorBlocks(xs[i - 1], vs[Integerify(xs[i - 1]) % n]))
  }

  lemma {:induction false} TableIsV(b: Chunk, vs: seq<Chunk>, n: nat, i: nat)
    requires Tabled(b, vs, n) && i <= n
    ensures V(b, i) == vs[i]
    decreases i
  {
    hide Mixed;
    if i > 0 {
      TableIsV(b, vs, n, i - 1);
    }
  }

  lemma {:induction false} WalkIsX(b: Chunk, vs: seq<Chunk>, xs: seq<Chunk>, n: nat, i: nat)
    requires n > 0 && Tabled(b, vs, n) && Walked(vs, xs, n) && i <= n
    ensures Walk(b, n, Rfc, i) == xs[i]
    decreases i
  {
    hide Mixed, XorBlocks, Integerify;
    if i == 0 {
      TableIsV(b, vs, n, n);
    } else {
      WalkIsX(b, vs, xs, n, i - 1);
      TableIsV(b, vs, n, Integerify(xs[i - 1]) % n);
      hide V;
    }
  }

  /** Whatever lists meet the two recurrences of section 5 of RFC 7914, the result is the last X. */
  lemma RomixIsRecurrence(b: Chunk, n: nat, vs: seq<Chunk>, xs: seq<Chunk>)
    requires n > 0 && Tabled(b, vs, n) && Walked(vs, xs, n)
    ensures Romix(b, n, Rfc) == xs[n]
  {
    hide Walk, Mixed, XorBlocks;
    WalkIsX(b, vs, xs, n, n);
  }

  // ---------------------------------------------------------- the mask

  lemma Distribute(a: nat, b: nat, c: nat)
    ensures a * (b * c) == (a * b) * c
  {}

  /** Adding a multiple of 2^32 does not change the residue modulo a smaller power of two. */
  lemma HighWordsVanish(low: nat, high: nat, k: nat)
    requires k <= 32
    ensures (low + TWO_TO_32 * high) % Pow(2, k) == low % Pow(2, k)
  {
    TwoTo32IsPow2();
    Pow2Adds(32 - k, k);
    hide Pow;
    assert TWO_TO_32 * high == (high * Pow(2, 32 - k)) * Pow(2, k) by {
      Distribute(high, Pow(2, 32 - k), Pow(2, k));
    }
    MultipleDrops(high * Pow(2, 32 - k), Pow(2, k), low);
  }

  lemma MaskIsIntegerify(x: Chunk, k: nat)
    requires k <= 32
    ensures Index(Masked, x, Pow(2, k)) == Index(Rfc, x, Pow(2, k))
  {
    hide ToNat, FromNat, And, Pow;
    var last := x[|x| - 1];
    LittleEndian.ValueByWords(last);
    MaskIsModulus(last[0], k);
    HighWordsVanish(ToNat(last[0]), LittleEndian.Value(LittleEndian.BytesOf(last[1..])), k);
  }

  /** The masked index is Integerify mod N on every input exactly when N is at most 2^32. */
  lemma MaskIsIntegerifyUpTo32(k: nat)
    ensures (forall x: Chunk :: Index(Masked, x, Pow(2, k)) == Index(Rfc, x, Pow(2, k))) <==> k <= 32
  {
    hide Index;
    if k <= 32 {
      forall x: Chunk ensures Index(Masked, x, Pow(2, k)) == Index(Rfc, x, Pow(2, k)) {
        MaskIsIntegerify(x, k);
      }
    } else {
      LargeModulusDiffers(k);
    }
  }

  /** The last block is the number 2^32: its first word is 0, its second 1. */
  const HIGH_BLOCK: Block := ZERO_BLOCK[1 := 1]

  lemma HighBlockValue()
    ensures LittleEndian.Value(LittleEndian.BytesOf(HIGH_BLOCK)) == TWO_TO_32
  {
    hide LittleEndian.Value, LittleEndian.BytesOf;
    LittleEndian.ValueByWords(HIGH_BLOCK);
    var rest := HIGH_BLOCK[1..];
    LittleEndian.ValueByWords(rest);
    ZeroValue(rest[1..]);
    assert Half(1) == 0 && Odd(1);
    assert ToNat(0) == 0;
    assert ToNat(1) == 1;
  }

  /** There Integerify is 2^32, while the mask sees 0. */
  lemma LargeModulusDiffers(k: nat)
    requires k > 32
    ensures Index(Masked, [ZERO_BLOCK, HIGH_BLOCK], Pow(2, k)) == 0
    ensures Index(Rfc, [ZERO_BLOCK, HIGH_BLOCK], Pow(2, k)) == TWO_TO_32
  {
    hide FromNat, And, ToNat, Pow, LittleEndian.Value, LittleEndian.BytesOf;
    HighBlockValue();
    MaskedZero(FromNat(Pow(2, k) - 1));
    BeyondTwoTo32(k);
  }

  lemma MaskedZero(m: Word)
    ensures ToNat(And(0, m)) == 0
  {
    assert And(0, m) == 0;
  }

  lemma {:induction false} BeyondTwoTo32(k: nat)
    requires k > 32
    ensures Pow(2, k) > TWO_TO_32
  {
    if k == 33 {
      TwoTo32IsPow2();
    } else {
      BeyondTwoTo32(k - 1);
    }
  }

  lemma {:induction false} ZeroValue(ws: seq<Word>)
    requires forall i :: 0 <= i < |ws| ==> ws[i] == 0
    ensures LittleEndian.Value(LittleEndian.BytesOf(ws)) == 0
  {
    if ws == [] {
      assert LittleEndian.BytesOf(ws) == [];
    } else {
      LittleEndian.ValueByWords(ws);
      ZeroValue(ws[1..]);
      assert ToNat(0) == 0;
    }
  }

  lemma {:induction false} MaskedWalkIsWalk(b: Chunk, k: nat, i: nat)
    requires k <= 32
    ensures Walk(b, Pow(2, k), Masked, i) == Walk(b, Pow(2, k), Rfc, i)
  {
    hide Index, Mixed, XorBlocks, V, Pow;
    if i == 0 {
    } else {
      MaskedWalkIsWalk(b, k, i - 1);
      MaskIsIntegerify(Walk(b, Pow(2, k), Rfc, i - 1), k);
    }
  }

  /** For N up to 2^32 the code's ROMix is the RFC's. */
  lemma MaskedRomixIsRomix(b: Chunk, k: nat)
    requires k <= 32
    ensures Romix(b, Pow(2, k), Masked) == Romix(b, Pow(2, k), Rfc)
  {
    MaskedWalkIsWalk(b, k, Pow(2, k));
  }

  lemma MaskedIndexInRange(x: Chunk, k: nat)
    ensures Index(Masked, x, Pow(2, k)) < Pow(2, k)
  {
    hide ToNat, FromNat, And;
    MaskIsModulus(x[|x| - 1][0], k);
  }

  // ---------------------------------------------------------- the code

  /** Rows 0, ..., count-1 of the scratch table hold V[0], ..., V[count-1]. */
  ghost predicate Stored(table: seq<Word>, w: nat, b: Chunk, count: nat) {
    forall t {:trigger V(b, t)} :: 0 <= t < count ==> Row(table, w, t) == Flat(V(b, t))
  }

  lemma OneMoreStored(before: seq<Word>, after: seq<Word>, w: nat, b: Chunk, i: nat)
    requires Stored(before, w, b, i)
    requires SameOutside(before, after, i * w, (i + 1) * w)
    requires Row(after, w, i) == Flat(V(b, i))
    ensures Stored(after, w, b, i + 1)
  {
    hide V, Row, SameOutside;
    forall t {:trigger V(b, t)} | 0 <= t < i ensures Row(after, w, t) == Flat(V(b, t)) {
      RowKept(before, after, w, i, t);
    }
  }

  /** One use of `scryptBlockMix` followed by copying the result back over x. */
  method MixAndCopyBack(xy: array<Word>, r: nat)
    requires r > 0 && xy.Length == 64 * r
    modifies xy
    ensures BlocksOf(xy[..32 * r]) == Mixed(BlocksOf(old(xy[..32 * r])))
  {
    hide Mixed;
    assert xy[0..0 + 32 * r] == xy[..32 * r];
    ScryptBlockMix(xy, 0, 32 * r, r);
    ghost var mixed := xy[32 * r..32 * r + 32 * r];
    CopyWords(xy, 0, xy, 32 * r, 32 * r);
    assert xy[..32 * r] == xy[0..0 + 32 * r] == mixed;
  }

  /** copy(v[i*blockWords:(i+1)*blockWords], x). */
  method SaveRow(v: array<Word>, xy: array<Word>, i: nat, n: nat, r: nat, ghost b: Chunk)
    requires r > 0 && xy != v && xy.Length == 64 * r && n * (32 * r) <= v.Length && i < n
    requires BlocksOf(xy[..32 * r]) == V(b, i)
    requires Stored(v[..], 32 * r, b, i)
    modifies v
    ensures Stored(v[..], 32 * r, b, i + 1)
  {
    hide BlocksOf, Flat, SameOutside, Stored, V;
    var blockWords := 32 * r;
    RowFits(blockWords, i, n);
    ghost var before := v[..];
    CopyWords(v, i * blockWords, xy, 0, blockWords);
    assert v[i * blockWords..i * blockWords + blockWords] == xy[0..0 + blockWords] == xy[..blockWords];
    FlatBlocks(xy[..blockWords]);
    assert Row(v[..], blockWords, i) == Flat(V(b, i));
    OneMoreStored(before, v[..], blockWords, b, i);
  }

  /** The first loop: fill v with V[0], ..., V[n-1]. */
  method Fill(xy: array<Word>, v: array<Word>, n: nat, r: nat, ghost b: Chunk)
    requires r > 0 && xy != v && xy.Length == 64 * r && n * (32 * r) <= v.Length
    requires b == BlocksOf(xy[..32 * r])
    modifies xy, v
    ensures BlocksOf(xy[..32 * r]) == V(b, n)
    ensures Stored(v[..], 32 * r, b, n)
  {
    hide Mixed, BlocksOf, Row;
    var i := 0;
    while i < n
      invariant 0 <= i <= n
      invariant BlocksOf(xy[..32 * r]) == V(b, i)
      invariant Stored(v[..], 32 * r, b, i)
    {
      SaveRow(v, xy, i, n, r, b);
      MixAndCopyBack(xy, r);
      i := i + 1;
    }
  }

  /** j = int(x[(2r-1)*16] & uint32(n-1)). */
  method ChooseRow(xy: array<Word>, n: nat, r: nat, ghost k: nat, ghost x: Chunk) returns (j: nat)
    requires r > 0 && xy.Length == 64 * r && n == Pow(2, k) && x == BlocksOf(xy[..32 * r])
    ensures j == Index(Masked, x, n) < n
  {
    hide And, ToNat, FromNat, Pow;
    LastBlockStart(xy[..32 * r], r);
    MaskedIndexInRange(x, k);
    j := ToNat(And(xy[(2 * r - 1) * 16], FromNat(n - 1)));
  }

  /** blockXor(x, v[j*blockWords:], blockWords). */
  method XorRow(xy: array<Word>, v: array<Word>, j: nat, n: nat, r: nat, ghost b: Chunk)
    requires r > 0 && xy != v && xy.Length == 64 * r && n * (32 * r) <= v.Length && j < n
    requires |b| == 2 * r && Stored(v[..], 32 * r, b, n)
    modifies xy
    ensures BlocksOf(xy[..32 * r]) == XorBlocks(BlocksOf(old(xy[..32 * r])), V(b, j))
  {
    hide BlocksOf, V, Stored;
    var blockWords := 32 * r;
    RowFits(blockWords, j, n);
    StoredRow(v[..], blockWords, b, n, j);
    assert xy[0..0 + blockWords] == xy[..blockWords];
    assert v[j * blockWords..j * blockWords + blockWords] == v[..][j * blockWords..j * blockWords + blockWords];
    BlockXor(xy, 0, v, j * blockWords, blockWords);
    assert xy[0..0 + blockWords] == xy[..blockWords];
  }

  /** web/auth.go `scryptROMix`, over the first half of xy; v and the second half are scratch. */
  method ScryptROMix(xy: array<Word>, v: array<Word>, n: nat, r: nat, ghost k: nat)
    requires r > 0 && xy != v && xy.Length == 64 * r && n * (32 * r) <= v.Length && n == Pow(2, k)
    modifies xy, v
    ensures BlocksOf(xy[..32 * r]) == Romix(BlocksOf(old(xy[..32 * r])), n, Masked)
  {
    hide Mixed, BlocksOf, V, Stored, Index, XorBlocks, Pow;
    ghost var b := BlocksOf(xy[..32 * r]);
    Fill(xy, v, n, r, b);
    var i := 0;
    while i < n
      invariant 0 <= i <= n
      invariant BlocksOf(xy[..32 * r]) == Walk(b, n, Masked, i)
      invariant Stored(v[..], 32 * r, b, n)
    {
      ghost var table := v[..];
      var j := ChooseRow(xy, n, r, k, BlocksOf(xy[..32 * r]));
      XorRow(xy, v, j, n, r, b);
      MixAndCopyBack(xy, r);
      assert v[..] == table;
      i := i + 1;
    }
  }

  lemma LastBlockStart(ws: seq<Word>, r: nat)
    requires r > 0 && |ws| == 32 * r
    ensures ws[(2 * r - 1) * 16] == BlocksOf(ws)[2 * r - 1][0]
  {}

  lemma StoredRow(table: seq<Word>, w: nat, b: Chunk, n: nat, j: nat)
    requires Stored(table, w, b, n) && j < n && w % 16 == 0 && j * w + w == (j + 1) * w <= |table|
    ensures BlocksOf(table[j * w..j * w + w]) == V(b, j)
  {
    hide V, Flat, BlocksOf;
    assert Row(table, w, j) == Flat(V(b, j));
    assert Row(table, w, j) == table[j * w..j * w + w];
    BlocksFlat(V(b, j));
  }
}
