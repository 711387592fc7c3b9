/** scryptBlockMix: section 4 of RFC 7914, and the in-place loops of web/auth.go. */
module BlockMix {
  import opened Words
  import opened Salsa
  import opened Strides

  type Blocks = seq<Block>

  // ---------------------------------------------------------- reference

  function Xor(a: Word, b: Word): Word {
    a ^ b
  }

  function XorBlock(x: Block, y: Block): Block {
    seq(16, i requires 0 <= i < 16 => Xor(x[i], y[i]))
  }

  /** Y[i] of the RFC: the running block after absorbing B[0], ..., B[i]. */
  function Y(b: Blocks, i: nat): (y: Block)
    requires i < |b|
  {
    Core8(XorBlock(if i == 0 then b[|b| - 1] else Y(b, i - 1), b[i]))
  }

  /** B' = (Y[0], Y[2], ..., Y[2r-2], Y[1], Y[3], ..., Y[2r-1]). */
  function Mixed(b: Blocks): (m: Blocks)
    requires |b| % 2 == 0
    ensures |m| == |b|
  {
    seq<Block>(|b|, k requires 0 <= k < |b| => MixedAt(b, k))
  }

  function MixedAt(b: Blocks, k: nat): (y: Block)
    requires |b| % 2 == 0 && k < |b|
  {
    var r := |b| / 2;
    if k < r then Y(b, 2 * k) else Y(b, 2 * (k - r) + 1)
  }

  function XorBlocks(x: Blocks, y: Blocks): (z: Blocks)
    requires |x| == |y|
    ensures |z| == |x|
  {
    seq<Block>(|x|, i requires 0 <= i < |x| => XorBlock(x[i], y[i]))
  }

  /** The block that absorbs b[i]: the one before in the list, and the last input block at first. */
  function Before(b: Blocks, ys: Blocks, i: nat): Block
    requires i < |b| == |ys|
  {
    if i == 0 then b[|b| - 1] else ys[i - 1]
  }

  predicate Absorbed(b: Blocks, ys: Blocks) {
    |ys| == |b| && forall i :: 0 <= i < |b| ==> ys[i] == Core8(XorBlock(Before(b, ys, i), b[i]))
  }

  /** Whatever list of blocks meets the recurrence of the RFC, B' is its even blocks and then its odd ones. */
  lemma MixedIsShuffled(b: Blocks, ys: Blocks)
    requires |b| % 2 == 0 && Absorbed(b, ys)
    ensures forall k :: 0 <= k < |b| / 2 ==> Mixed(b)[k] == ys[2 * k] && Mixed(b)[|b| / 2 + k] == ys[2 * k + 1]
  {
    hide Core8, XorBlock, Y;
    forall i | 0 <= i < |b| ensures Y(b, i) == ys[i] {
      YIsAbsorbed(b, ys, i);
    }
    hide Absorbed;
    forall k | 0 <= k < |b| / 2 ensures Mixed(b)[k] == ys[2 * k] && Mixed(b)[|b| / 2 + k] == ys[2 * k + 1] {
      assert Mixed(b)[k] == MixedAt(b, k) && Mixed(b)[|b| / 2 + k] == MixedAt(b, |b| / 2 + k);
    }
  }

  lemma {:induction false} YIsAbsorbed(b: Blocks, ys: Blocks, i: nat)
    requires Absorbed(b, ys) && i < |b|
    ensures Y(b, i) == ys[i]
    decreases i
  {
    hide Core8, XorBlock;
    if i > 0 {
      YIsAbsorbed(b, ys, i - 1);
    }
    assert Y(b, i) == Core8(XorBlock(Before(b, ys, i), b[i]));
  }

  // ---------------------------------------------------------- blocks laid out as words

  function BlocksOf(ws: seq<Word>): (b: Blocks)
    ensures |b| == |ws| / 16 && 16 * |b| <= |ws| < 16 * |b| + 16
  {
    seq<Block>(|ws| / 16, k requires 0 <= k < |ws| / 16 => ws[16 * k..16 * k + 16])
  }

  function Flat(b: Blocks): (ws: seq<Word>)
    ensures |ws| == 16 * |b|
  {
    seq(16 * |b|, i requires 0 <= i < 16 * |b| => b[i / 16][i % 16])
  }

  lemma FlatBlocks(ws: seq<Word>)
    requires |ws| % 16 == 0
    ensures Flat(BlocksOf(ws)) == ws
  {
    var again := Flat(BlocksOf(ws));
    forall i | 0 <= i < |ws| ensures again[i] == ws[i] {
      assert BlocksOf(ws)[i / 16][i % 16] == ws[16 * (i / 16) + i % 16];
    }
  }

  lemma BlocksFlat(b: Blocks)
    ensures BlocksOf(Flat(b)) == b
  {
    var again := BlocksOf(Flat(b));
    forall k | 0 <= k < |b| ensures again[k] == b[k] {
      forall i | 0 <= i < 16 ensures again[k][i] == b[k][i] {
        assert (16 * k + i) / 16 == k && (16 * k + i) % 16 == i;
      }
    }
  }

  // ---------------------------------------------------------- the code

  /** web/auth.go `blockXor` on two stretches of words. */
  method BlockXor(dst: array<Word>, dstOff: nat, src: array<Word>, srcOff: nat, count: nat)
    requires dst != src && dstOff + count <= dst.Length && srcOff + count <= src.Length
    requires count % 16 == 0
    modifies dst
    ensures dst[..dstOff] == old(dst[..dstOff]) && dst[dstOff + count..] == old(dst[dstOff + count..])
    ensures BlocksOf(dst[dstOff..dstOff + count])
         == XorBlocks(BlocksOf(old(dst[dstOff..dstOff + count])), BlocksOf(src[srcOff..srcOff + count]))
  {
    hide Xor;
    var i := 0;
    while i < count
      invariant 0 <= i <= count
      invariant forall k :: 0 <= k < dst.Length && !(dstOff <= k < dstOff + i) ==> dst[k] == old(dst[k])
      invariant forall k :: dstOff <= k < dstOff + i ==> dst[k] == Xor(old(dst[k]), src[k - dstOff + srcOff])
    {
      dst[dstOff + i] := Xor(dst[dstOff + i], src[srcOff + i]);
      i := i + 1;
    }
    assert dst[..dstOff] == old(dst[..dstOff]) && dst[dstOff + count..] == old(dst[dstOff + count..]);
    XorByWords(dst[dstOff..dstOff + count], old(dst[dstOff..dstOff + count]), src[srcOff..srcOff + count]);
  }

  lemma XorByWords(z: seq<Word>, x: seq<Word>, y: seq<Word>)
    requires |x| == |y| == |z| && |x| % 16 == 0
    requires forall k :: 0 <= k < |z| ==> z[k] == Xor(x[k], y[k])
    ensures BlocksOf(z) == XorBlocks(BlocksOf(x), BlocksOf(y))
  {
    hide Xor;
    var (zs, xs, ys) := (BlocksOf(z), BlocksOf(x), BlocksOf(y));
    forall k | 0 <= k < |zs| ensures zs[k] == XorBlock(xs[k], ys[k]) {
      assert forall i :: 0 <= i < 16 ==> zs[k][i] == z[16 * k + i];
    }
  }

  /** The place of Y[i] in B': even blocks in the first half, odd blocks in the second. */
  function Place(i: nat, r: nat): nat {
    if i % 2 == 0 then i / 2 else i / 2 + r
  }

  function Slot(ws: seq<Word>, off: nat): Block
    requires off + 16 <= |ws|
  {
    ws[off..off + 16]
  }

  /** The first `count` of Y[0], Y[1], ... have been written to their places. */
  ghost predicate Placed(output: seq<Word>, b: Blocks, count: nat) {
    && |b| % 2 == 0 && |output| == 16 * |b| && count <= |b|
    && forall i {:trigger Y(b, i)} :: 0 <= i < count ==> Slot(output, 16 * Place(i, |b| / 2)) == Y(b, i)
  }

  /** Every block of B' is Y[i] for some i, so storing each at its place makes B'. */
  lemma AllPlaced(output: seq<Word>, b: Blocks)
    requires Placed(output, b, |b|)
    ensures BlocksOf(output) == Mixed(b)
  {
    hide Y;
    var r := |b| / 2;
    forall k | 0 <= k < |b| ensures BlocksOf(output)[k] == Mixed(b)[k] {
      var i := if k < r then 2 * k else 2 * (k - r) + 1;
      assert Place(i, r) == k;
      assert Slot(output, 16 * Place(i, r)) == Y(b, i);
    }
  }

  lemma SlotKept(before: seq<Word>, after: seq<Word>, written: nat, off: nat)
    requires |before| == |after| && written + 16 <= |before| && off + 16 <= |before|
    requires off + 16 <= written || written + 16 <= off
    requires SameOutside(before, after, written, written + 16)
    ensures Slot(after, off) == Slot(before, off)
  {}

  lemma PlacesDiffer(i: nat, j: nat, r: nat)
    requires j < i < 2 * r
    ensures Place(i, r) != Place(j, r) && Place(i, r) < 2 * r && Place(j, r) < 2 * r
  {}

  lemma OneMorePlaced(before: seq<Word>, after: seq<Word>, b: Blocks, i: nat)
    requires Placed(before, b, i) && i < |b| && |after| == |before|
    requires SameOutside(before, after, 16 * Place(i, |b| / 2), 16 * Place(i, |b| / 2) + 16)
    requires Slot(after, 16 * Place(i, |b| / 2)) == Y(b, i)
    ensures Placed(after, b, i + 1)
  {
    hide Y;
    var r := |b| / 2;
    forall j {:trigger Y(b, j)} | 0 <= j < i ensures Slot(after, 16 * Place(j, r)) == Y(b, j) {
      PlacesDiffer(i, j, r);
      SlotKept(before, after, 16 * Place(i, r), 16 * Place(j, r));
    }
  }

  lemma StoredWithin(before: seq<Word>, after: seq<Word>, outOff: nat, r: nat, place: nat, b: Blocks, i: nat)
    requires |b| == 2 * r && i < 2 * r && place == Place(i, r) && outOff + 32 * r <= |before|
    requires SameOutside(before, after, outOff + 16 * place, outOff + 16 * place + 16)
    requires after[outOff + 16 * place..outOff + 16 * place + 16] == Y(b, i)
    requires Placed(before[outOff..outOff + 32 * r], b, i)
    ensures SameOutside(before, after, outOff, outOff + 32 * r)
    ensures Placed(after[outOff..outOff + 32 * r], b, i + 1)
  {
    hide Y;
    var (was, now) := (before[outOff..outOff + 32 * r], after[outOff..outOff + 32 * r]);
    SliceOfSlice(after, outOff, outOff + 32 * r, 16 * place, 16 * place + 16);
    OneMorePlaced(was, now, b, i);
  }

  lemma SliceOfSlice(ws: seq<Word>, lo: nat, hi: nat, from: nat, to: nat)
    requires from <= to <= hi - lo && hi <= |ws|
    ensures ws[lo..hi][from..to] == ws[lo + from..lo + to]
  {
    var (a, b) := (ws[lo..hi][from..to], ws[lo + from..lo + to]);
    forall k | 0 <= k < to - from ensures a[k] == b[k] {
      assert a[k] == ws[lo..hi][from + k];
    }
  }

  lemma BlockWithin(ws: seq<Word>, off: nat, r: nat, i: nat)
    requires off + 32 * r <= |ws| && i < 2 * r
    ensures BlocksOf(ws[off..off + 32 * r])[i] == ws[off + i * 16..off + i * 16 + 16]
  {
    var part := ws[off..off + 32 * r];
    assert part[16 * i..16 * i + 16] == ws[off + i * 16..off + i * 16 + 16];
  }

  lemma NothingPlaced(output: seq<Word>, b: Blocks)
    requires |b| % 2 == 0 && |output| == 16 * |b|
    ensures Placed(output, b, 0)
  {}

  lemma Unchanged(ws: seq<Word>, lo: nat, hi: nat)
    ensures SameOutside(ws, ws, lo, hi)
  {}

  /** Writes to the output stretch compose, and leave the input stretch alone. */
  lemma StillSame(start: seq<Word>, before: seq<Word>, after: seq<Word>, inOff: nat, outOff: nat, r: nat)
    requires SameOutside(start, before, outOff, outOff + 32 * r)
    requires SameOutside(before, after, outOff, outOff + 32 * r)
    requires inOff + 32 * r <= |start| && (inOff + 32 * r <= outOff || outOff + 32 * r <= inOff)
    ensures SameOutside(start, after, outOff, outOff + 32 * r)
    ensures after[inOff..inOff + 32 * r] == before[inOff..inOff + 32 * r]
  {}

  /**
   * web/auth.go `scryptBlockMix`. Its two slices are stretches of one buffer,
   * `in` at inOff and `out` at outOff, which do not overlap.
   */
  method ScryptBlockMix(buf: array<Word>, inOff: nat, outOff: nat, r: nat)
    requires r > 0 && inOff + 32 * r <= buf.Length && outOff + 32 * r <= buf.Length
    requires inOff + 32 * r <= outOff || outOff + 32 * r <= inOff
    modifies buf
    ensures SameOutside(old(buf[..]), buf[..], outOff, outOff + 32 * r)
    ensures BlocksOf(buf[outOff..outOff + 32 * r]) == Mixed(BlocksOf(old(buf[inOff..inOff + 32 * r])))
  {
    hide Y, Xor, Core8, BlocksOf, Mixed, Placed, SameOutside;
    ghost var start := buf[..];
    ghost var input := buf[inOff..inOff + 32 * r];
    ghost var b := BlocksOf(input);
    var x := new Word[16];
    var tmp := new Word[16];
    CopyWords(x, 0, buf, inOff + (2 * r - 1) * 16, 16);
    BlockWithin(start, inOff, r, 2 * r - 1);
    assert x[..] == x[0..16] == b[2 * r - 1];
    NothingPlaced(start[outOff..outOff + 32 * r], b);
    Unchanged(start, outOff, outOff + 32 * r);
    assert buf[..] == start;
    var i := 0;
    while i < 2 * r
      invariant 0 <= i <= 2 * r
      invariant x[..] == if i == 0 then b[2 * r - 1] else Y(b, i - 1)
      invariant Midway(start, buf[..], inOff, outOff, r, b, i)
    {
      Turn(buf, inOff, outOff, r, i, x, tmp, start, b);
      i := i + 1;
    }
    AllPlaced(buf[outOff..outOff + 32 * r], b);
  }

  /** What the loop has done after `count` turns: the input stands, and `count` outputs are in place. */
  ghost predicate Midway(
    start: seq<Word>, now: seq<Word>, inOff: nat, outOff: nat, r: nat, b: Blocks, count: nat)
  {
    && |now| == |start| && inOff + 32 * r <= |start| && outOff + 32 * r <= |start| && |b| == 2 * r
    && (inOff + 32 * r <= outOff || outOff + 32 * r <= inOff)
    && now[inOff..inOff + 32 * r] == start[inOff..inOff + 32 * r] && BlocksOf(start[inOff..inOff + 32 * r]) == b
    && SameOutside(start, now, outOff, outOff + 32 * r)
    && Placed(now[outOff..outOff + 32 * r], b, count)
  }

  /** One turn of the loop. */
  method Turn(
      buf: array<Word>, inOff: nat, outOff: nat, r: nat, i: nat, x: array<Word>, tmp: array<Word>,
      ghost start: seq<Word>, ghost b: Blocks)
    requires x.Length == tmp.Length == 16 && x != tmp && x != buf && tmp != buf && i < 2 * r
    requires Midway(start, buf[..], inOff, outOff, r, b, i)
    requires x[..] == if i == 0 then b[2 * r - 1] else Y(b, i - 1)
    modifies buf, x, tmp
    ensures Midway(start, buf[..], inOff, outOff, r, b, i + 1) && x[..] == Y(b, i)
  {
    hide Y, Xor, Core8, BlocksOf, Placed, SameOutside;
    ghost var before := buf[..];
    BlockWithin(before, inOff, r, i);
    assert before[inOff + i * 16..inOff + i * 16 + 16] == buf[inOff + i * 16..inOff + i * 16 + 16];
    MixStep(buf, inOff + i * 16, x, tmp, b, i);
    Store(buf, outOff, i, r, x, b);
    StillSame(start, before, buf[..], inOff, outOff, r);
  }

  /** One absorption: x ^= in[i], then x = salsa20Core8(x). */
  method MixStep(buf: array<Word>, off: nat, x: array<Word>, tmp: array<Word>, ghost b: Blocks, ghost i: nat)
    requires x.Length == tmp.Length == 16 && x != tmp && x != buf && tmp != buf
    requires off + 16 <= buf.Length && i < |b| && buf[off..off + 16] == b[i]
    requires x[..] == if i == 0 then b[|b| - 1] else Y(b, i - 1)
    modifies x, tmp
    ensures x[..] == Y(b, i)
  {
    hide Xor, Core8;
    XorInto(x, buf, off);
    Salsa20Core8(tmp, x);
    CopyWords(x, 0, tmp, 0, 16);
    assert x[..] == x[0..16] == tmp[0..16] == tmp[..];
  }

  /** Even i goes to the first half of out, odd i to the second half. */
  method Store(buf: array<Word>, outOff: nat, i: nat, r: nat, x: array<Word>, ghost b: Blocks)
    requires x.Length == 16 && x != buf && i < 2 * r == |b| && outOff + 32 * r <= buf.Length
    requires x[..] == Y(b, i)
    requires Placed(buf[outOff..outOff + 32 * r], b, i)
    modifies buf
    ensures SameOutside(old(buf[..]), buf[..], outOff, outOff + 32 * r)
    ensures Placed(buf[outOff..outOff + 32 * r], b, i + 1)
  {
    hide Y, Placed, SameOutside;
    ghost var before := buf[..];
    if i % 2 == 0 {
      CopyWords(buf, outOff + (i / 2) * 16, x, 0, 16);
    } else {
      CopyWords(buf, outOff + (i / 2 + r) * 16, x, 0, 16);
    }
    assert x[0..16] == x[..];
    StoredWithin(before, buf[..], outOff, r, Place(i, r), b, i);
  }

  /** Go's `copy`, within one array or between two. */
  method CopyWords(dst: array<Word>, dstOff: nat, src: array<Word>, srcOff: nat, count: nat)
    requires dstOff + count <= dst.Length && srcOff + count <= src.Length
    modifies dst
    ensures dst[dstOff..dstOff + count] == old(src[srcOff..srcOff + count])
    ensures SameOutside(old(dst[..]), dst[..], dstOff, dstOff + count)
  {
    forall k | 0 <= k < count {
      dst[dstOff + k] := src[srcOff + k];
    }
  }

  /** The inner loop of `scryptBlockMix`: x[k] ^= in[i*16+k]. */
  method XorInto(x: array<Word>, buf: array<Word>, off: nat)
    requires x.Length == 16 && x != buf && off + 16 <= buf.Length
    modifies x
    ensures x[..] == XorBlock(old(x[..]), buf[off..off + 16])
  {
    hide Xor;
    var k := 0;
    while k < 16
      invariant 0 <= k <= 16
      invariant forall j :: 0 <= j < k ==> x[j] == Xor(old(x[j]), buf[off + j])
      invariant forall j :: k <= j < 16 ==> x[j] == old(x[j])
    {
      x[k] := Xor(x[k], buf[off + k]);
      k := k + 1;
    }
    assert x[..] == XorBlock(old(x[..]), buf[off..off + 16]);
  }
}
