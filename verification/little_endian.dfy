/** Little-endian byte strings: the encoding/binary calls of web/auth.go. */
module LittleEndian {
  import opened Words

  /** LittleEndian.Uint32 of encoding/binary. */
  function Pack(b0: Byte, b1: Byte, b2: Byte, b3: Byte): Word {
    (b0 as Word) | ((b1 as Word) << 8) | ((b2 as Word) << 16) | ((b3 as Word) << 24)
  }

  /** Byte k of LittleEndian.PutUint32. */
  function ByteOf(w: Word, k: nat): Byte
    requires k < 4
  {
    if k == 0 then Low(w) else if k == 1 then Low(w >> 8) else if k == 2 then Low(w >> 16) else Low(w >> 24)
  }

  function Low(w: Word): Byte {
    LowByte(w) as Byte
  }

  function WordsOf(bs: seq<Byte>): (ws: seq<Word>)
    requires |bs| % 4 == 0
    ensures |ws| == |bs| / 4
  {
    seq(|bs| / 4, i requires 0 <= i < |bs| / 4 => Pack(bs[4 * i], bs[4 * i + 1], bs[4 * i + 2], bs[4 * i + 3]))
  }

  function BytesOf(ws: seq<Word>): (bs: seq<Byte>)
    ensures |bs| == 4 * |ws|
  {
    seq(4 * |ws|, i requires 0 <= i < 4 * |ws| => ByteOf(ws[i / 4], i % 4))
  }

  lemma PackBytes(w: Word)
    ensures Pack(ByteOf(w, 0), ByteOf(w, 1), ByteOf(w, 2), ByteOf(w, 3)) == w
  {}

  lemma BytesPack(b0: Byte, b1: Byte, b2: Byte, b3: Byte, k: nat)
    requires k < 4
    ensures ByteOf(Pack(b0, b1, b2, b3), k) == [b0, b1, b2, b3][k]
  {
    BytesPack0(b0, b1, b2, b3);
    BytesPack1(b0, b1, b2, b3);
    BytesPack2(b0, b1, b2, b3);
    BytesPack3(b0, b1, b2, b3);
    hide Low, Pack;
  }

  lemma BytesPack0(b0: Byte, b1: Byte, b2: Byte, b3: Byte)
    ensures Low(Pack(b0, b1, b2, b3)) == b0
  {}

  lemma BytesPack1(b0: Byte, b1: Byte, b2: Byte, b3: Byte)
    ensures Low(Pack(b0, b1, b2, b3) >> 8) == b1
  {}

  lemma BytesPack2(b0: Byte, b1: Byte, b2: Byte, b3: Byte)
    ensures Low(Pack(b0, b1, b2, b3) >> 16) == b2
  {}

  lemma BytesPack3(b0: Byte, b1: Byte, b2: Byte, b3: Byte)
    ensures Low(Pack(b0, b1, b2, b3) >> 24) == b3
  {}

  /** Writing words as bytes and reading them back changes nothing, in either order. */
  lemma WordsRoundTrip(ws: seq<Word>)
    ensures WordsOf(BytesOf(ws)) == ws
  {
    hide Pack, ByteOf;
    var again := WordsOf(BytesOf(ws));
    forall i | 0 <= i < |ws| ensures again[i] == ws[i] {
      hide BytesOf;
      ByteAt(ws, i, 0);
      ByteAt(ws, i, 1);
      ByteAt(ws, i, 2);
      ByteAt(ws, i, 3);
      PackBytes(ws[i]);
    }
  }

  lemma BytesPush(ws: seq<Word>, w: Word)
    ensures BytesOf(ws + [w]) == BytesOf(ws) + BytesOf([w])
  {
    hide ByteOf;
    var (all, front, last) := (BytesOf(ws + [w]), BytesOf(ws), BytesOf([w]));
    forall k | 0 <= k < 4 * |ws| ensures all[k] == front[k] {
      assert (ws + [w])[k / 4] == ws[k / 4];
    }
    forall k | 0 <= k < 4 ensures all[4 * |ws| + k] == last[k] {
      ByteAt(ws + [w], |ws|, k);
      ByteAt([w], 0, k);
    }
  }

  lemma ByteAt(ws: seq<Word>, i: nat, k: nat)
    requires i < |ws| && k < 4
    ensures BytesOf(ws)[4 * i + k] == ByteOf(ws[i], k)
  {
    hide ByteOf;
    assert (4 * i + k) / 4 == i && (4 * i + k) % 4 == k;
  }

  lemma BytesRoundTrip(bs: seq<Byte>)
    requires |bs| % 4 == 0
    ensures BytesOf(WordsOf(bs)) == bs
  {
    hide Pack, ByteOf;
    var again := BytesOf(WordsOf(bs));
    forall i | 0 <= i < |bs| ensures again[i] == bs[i] {
      var j := 4 * (i / 4);
      BytesPack(bs[j], bs[j + 1], bs[j + 2], bs[j + 3], i % 4);
      assert bs[i] == [bs[j], bs[j + 1], bs[j + 2], bs[j + 3]][i % 4];
    }
  }

  // ---------------------------------------------------------- byte strings as numbers

  /** The integer whose little-endian form is bs. */
  function Value(bs: seq<Byte>): nat {
    if bs == [] then 0 else ToNat(bs[0] as Word) + 256 * Value(bs[1..])
  }

  lemma LowByteValue(w: Word)
    ensures ToNat(Low(w) as Word) == ToNat(LowByte(w))
  {
    assert (Low(w) as Word) == LowByte(w);
  }

  lemma WordValue(w: Word)
    ensures ToNat(w) == ToNat(ByteOf(w, 0) as Word) + 0x100 * ToNat(ByteOf(w, 1) as Word)
      + 0x1_0000 * ToNat(ByteOf(w, 2) as Word) + 0x100_0000 * ToNat(ByteOf(w, 3) as Word)
  {
    ToNatBytes(w);
    ToNatBytes(HighBytes(w));
    ToNatBytes(HighBytes(HighBytes(w)));
    ToNatBytes(HighBytes(HighBytes(HighBytes(w))));
    ByteShifts(w);
    LowByteValue(w);
    LowByteValue(w >> 8);
    LowByteValue(w >> 16);
    LowByteValue(w >> 24);
    assert ToNat(0) == 0;
    hide ToNat, LowByte, HighBytes, Low;
  }

  lemma ByteShifts(w: Word)
    ensures HighBytes(w) == w >> 8 && HighBytes(HighBytes(w)) == w >> 16
      && HighBytes(HighBytes(HighBytes(w))) == w >> 24
    ensures HighBytes(HighBytes(HighBytes(HighBytes(w)))) == 0
  {}

  lemma FourBytes(bs: seq<Byte>)
    requires |bs| >= 4
    ensures Value(bs) == ToNat(bs[0] as Word) + 0x100 * ToNat(bs[1] as Word)
      + 0x1_0000 * ToNat(bs[2] as Word) + 0x100_0000 * ToNat(bs[3] as Word) + TWO_TO_32 * Value(bs[4..])
  {
    hide ToNat;
    var (b1, b2, b3) := (bs[1..], bs[2..], bs[3..]);
    assert b1[1..] == b2 && b2[1..] == b3 && b3[1..] == bs[4..];
  }

  /** Four bytes at a time: the first word is the value modulo 2^32. */
  lemma ValueByWords(ws: seq<Word>)
    requires ws != []
    ensures Value(BytesOf(ws)) == ToNat(ws[0]) + TWO_TO_32 * Value(BytesOf(ws[1..]))
  {
    hide ByteOf, ToNat, Value;
    var bs := BytesOf(ws);
    assert bs[4..] == BytesOf(ws[1..]);
    FourBytes(bs);
    WordValue(ws[0]);
  }
}
