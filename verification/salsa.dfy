/** Salsa20/8: section 3 of RFC 7914, and web/auth.go `salsa20Core8`. */
module Salsa {
  import opened Words

  type Block = s: seq<Word> | |s| == 16 witness seq(16, _ => 0)
  type Index = i: int | 0 <= i < 16

  /** Four different positions of the 4x4 state. */
  predicate Distinct(a: Index, b: Index, c: Index, d: Index) {
    a != b && a != c && a != d && b != c && b != d && c != d
  }

  // ---------------------------------------------------------- reference

  /** The quarter round on the words at positions a, b, c and d. */
  function Quarter(x: Block, a: Index, b: Index, c: Index, d: Index): Block {
    var x1 := x[b := Arx(x[b], x[a], x[d], 7)];
    var x2 := x1[c := Arx(x1[c], x1[b], x1[a], 9)];
    var x3 := x2[d := Arx(x2[d], x2[c], x2[b], 13)];
    x3[a := Arx(x3[a], x3[d], x3[c], 18)]
  }

  function RowRound(x: Block): Block {
    Quarter(Quarter(Quarter(Quarter(x, 0, 1, 2, 3), 5, 6, 7, 4), 10, 11, 8, 9), 15, 12, 13, 14)
  }

  function ColumnRound(x: Block): Block {
    Quarter(Quarter(Quarter(Quarter(x, 0, 4, 8, 12), 5, 9, 13, 1), 10, 14, 2, 6), 15, 3, 7, 11)
  }

  function Rounds(x: Block, doubleRounds: nat): Block {
    if doubleRounds == 0 then x else RowRound(ColumnRound(Rounds(x, doubleRounds - 1)))
  }

  function Add(x: Block, y: Block): Block {
    seq(16, i requires 0 <= i < 16 => Plus(x[i], y[i]))
  }

  /** The Salsa20/8 core: eight rounds, then the input added back in. */
  function Core8(x: Block): Block {
    Add(Rounds(x, 4), x)
  }

  // ---------------------------------------------------------- a round, word by word

  /** The four words of a row or column before and after its quarter round: each is changed once. */
  predicate Quartered(x: Block, y: Block, a: Index, b: Index, c: Index, d: Index) {
    && y[b] == Arx(x[b], x[a], x[d], 7) && y[c] == Arx(x[c], y[b], x[a], 9)
    && y[d] == Arx(x[d], y[c], y[b], 13) && y[a] == Arx(x[a], y[d], y[c], 18)
  }

  function ColumnOf(): Index -> int {
    (i: Index) => i % 4
  }

  function RowOf(): Index -> int {
    (i: Index) => i / 4
  }

  /** A quarter round changes one line, each of its words once. */
  lemma QuarterOfLine(x: Block, y: Block, z: Block, a: Index, b: Index, c: Index, d: Index, line: Index -> int)
    requires Distinct(a, b, c, d) && Quartered(x, y, a, b, c, d)
    requires z[a] == x[a] && z[b] == x[b] && z[c] == x[c] && z[d] == x[d]
    requires forall i: Index :: line(i) == line(a) <==> i == a || i == b || i == c || i == d
    ensures forall i: Index :: Quarter(z, a, b, c, d)[i] == if line(i) == line(a) then y[i] else z[i]
  {
    hide Arx;
  }

  lemma FourLines(x: Block, y: Block, z1: Block, z2: Block, z3: Block, z4: Block, line: Index -> int)
    requires forall i: Index :: z1[i] == if line(i) == 0 then y[i] else x[i]
    requires forall i: Index :: z2[i] == if line(i) == 1 then y[i] else z1[i]
    requires forall i: Index :: z3[i] == if line(i) == 2 then y[i] else z2[i]
    requires forall i: Index :: z4[i] == if line(i) == 3 then y[i] else z3[i]
    requires forall i: Index :: 0 <= line(i) < 4
    ensures z4 == y
  {
    assert forall i: Index :: z4[i] == y[i];
  }

  /** A column round, word by word. */
  lemma ColumnRoundIs(x: Block, y: Block)
    requires Quartered(x, y, 0, 4, 8, 12) && Quartered(x, y, 5, 9, 13, 1)
    requires Quartered(x, y, 10, 14, 2, 6) && Quartered(x, y, 15, 3, 7, 11)
    ensures ColumnRound(x) == y
  {
    hide Quartered, Quarter;
    var z1 := Quarter(x, 0, 4, 8, 12);
    var z2 := Quarter(z1, 5, 9, 13, 1);
    var z3 := Quarter(z2, 10, 14, 2, 6);
    QuarterOfLine(x, y, x, 0, 4, 8, 12, ColumnOf());
    QuarterOfLine(x, y, z1, 5, 9, 13, 1, ColumnOf());
    QuarterOfLine(x, y, z2, 10, 14, 2, 6, ColumnOf());
    QuarterOfLine(x, y, z3, 15, 3, 7, 11, ColumnOf());
    FourLines(x, y, z1, z2, z3, Quarter(z3, 15, 3, 7, 11), ColumnOf());
  }

  /** A row round, word by word. */
  lemma RowRoundIs(x: Block, y: Block)
    requires Quartered(x, y, 0, 1, 2, 3) && Quartered(x, y, 5, 6, 7, 4)
    requires Quartered(x, y, 10, 11, 8, 9) && Quartered(x, y, 15, 12, 13, 14)
    ensures RowRound(x) == y
  {
    hide Quartered, Quarter;
    var z1 := Quarter(x, 0, 1, 2, 3);
    var z2 := Quarter(z1, 5, 6, 7, 4);
    var z3 := Quarter(z2, 10, 11, 8, 9);
    QuarterOfLine(x, y, x, 0, 1, 2, 3, RowOf());
    QuarterOfLine(x, y, z1, 5, 6, 7, 4, RowOf());
    QuarterOfLine(x, y, z2, 10, 11, 8, 9, RowOf());
    QuarterOfLine(x, y, z3, 15, 12, 13, 14, RowOf());
    FourLines(x, y, z1, z2, z3, Quarter(z3, 15, 12, 13, 14), RowOf());
  }

  // ---------------------------------------------------------- rows are transposed columns

  function Mirror(i: Index): Index {
    4 * (i % 4) + i / 4
  }

  function Transpose(x: Block): Block {
    seq(16, i requires 0 <= i < 16 => x[Mirror(i)])
  }

  lemma MirrorTwice(i: Index)
    ensures Mirror(Mirror(i)) == i
  {}

  lemma TransposeTwice(x: Block)
    ensures Transpose(Transpose(x)) == x
  {
    var twice := Transpose(Transpose(x));
    forall i | 0 <= i < 16 ensures twice[i] == x[i] {
      MirrorTwice(i);
    }
  }

  lemma TransposeUpdate(x: Block, i: Index, w: Word)
    ensures Transpose(x)[i := w] == Transpose(x[Mirror(i) := w])
  {
    var (after, before) := (Transpose(x)[i := w], Transpose(x[Mirror(i) := w]));
    forall j | 0 <= j < 16 ensures after[j] == before[j] {
      MirrorTwice(i);
      MirrorTwice(j);
    }
  }

  lemma QuarterTransposed(x: Block, a: Index, b: Index, c: Index, d: Index)
    requires Distinct(a, b, c, d)
    ensures Quarter(Transpose(x), a, b, c, d) == Transpose(Quarter(x, Mirror(a), Mirror(b), Mirror(c), Mirror(d)))
  {
    hide Arx, Transpose;
    var (ma, mb, mc, md) := (Mirror(a), Mirror(b), Mirror(c), Mirror(d));
    MirroredDistinct(a, b, c, d);
    TransposeAt(x);
    var x1 := x[mb := Arx(x[mb], x[ma], x[md], 7)];
    var x2 := x1[mc := Arx(x1[mc], x1[mb], x1[ma], 9)];
    var x3 := x2[md := Arx(x2[md], x2[mc], x2[mb], 13)];
    TransposeUpdate(x, b, x1[mb]);
    TransposeUpdate(x1, c, x2[mc]);
    TransposeUpdate(x2, d, x3[md]);
    TransposeUpdate(x3, a, Arx(x3[ma], x3[md], x3[mc], 18));
    hide Mirror;
  }

  lemma MirroredDistinct(a: Index, b: Index, c: Index, d: Index)
    requires Distinct(a, b, c, d)
    ensures Distinct(Mirror(a), Mirror(b), Mirror(c), Mirror(d))
  {
    MirrorTwice(a);
    MirrorTwice(b);
    MirrorTwice(c);
    MirrorTwice(d);
  }

  lemma TransposeAt(x: Block)
    ensures forall i: Index :: Transpose(x)[i] == x[Mirror(i)]
  {}

  lemma RowRoundIsTransposedColumnRound(x: Block)
    ensures RowRound(x) == Transpose(ColumnRound(Transpose(x)))
  {
    hide Quarter;
    var c0 := Quarter(Transpose(x), 0, 4, 8, 12);
    var c1 := Quarter(c0, 5, 9, 13, 1);
    var c2 := Quarter(c1, 10, 14, 2, 6);
    TransposeTwice(x);
    QuarterTransposed(Transpose(x), 0, 1, 2, 3);
    QuarterTransposed(c0, 5, 6, 7, 4);
    QuarterTransposed(c1, 10, 11, 8, 9);
    QuarterTransposed(c2, 15, 12, 13, 14);
    hide Transpose;
  }

  // ---------------------------------------------------------- the rounds are a bijection

  function QuarterInverse(z: Block, a: Index, b: Index, c: Index, d: Index): Block {
    var z3 := z[a := Arx(z[a], z[d], z[c], 18)];
    var z2 := z3[d := Arx(z3[d], z3[c], z3[b], 13)];
    var z1 := z2[c := Arx(z2[c], z2[b], z2[a], 9)];
    z1[b := Arx(z1[b], z1[a], z1[d], 7)]
  }

  function RowRoundInverse(z: Block): Block {
    QuarterInverse(QuarterInverse(QuarterInverse(QuarterInverse(z, 15, 12, 13, 14), 10, 11, 8, 9), 5, 6, 7, 4),
      0, 1, 2, 3)
  }

  function ColumnRoundInverse(z: Block): Block {
    QuarterInverse(QuarterInverse(QuarterInverse(QuarterInverse(z, 15, 3, 7, 11), 10, 14, 2, 6), 5, 9, 13, 1),
      0, 4, 8, 12)
  }

  function RoundsInverse(z: Block, doubleRounds: nat): Block
    decreases doubleRounds
  {
    if doubleRounds == 0 then z
    else RoundsInverse(ColumnRoundInverse(RowRoundInverse(z)), doubleRounds - 1)
  }

  lemma QuarterUndone(x: Block, a: Index, b: Index, c: Index, d: Index)
    requires Distinct(a, b, c, d)
    ensures QuarterInverse(Quarter(x, a, b, c, d), a, b, c, d) == x
  {
    hide Arx;
    var z := Quarter(x, a, b, c, d);
    ArxCancels(x[a], z[d], z[c], 18);
    ArxCancels(x[d], z[c], z[b], 13);
    ArxCancels(x[c], z[b], x[a], 9);
    ArxCancels(x[b], x[a], x[d], 7);
  }

  lemma QuarterRedone(z: Block, a: Index, b: Index, c: Index, d: Index)
    requires Distinct(a, b, c, d)
    ensures Quarter(QuarterInverse(z, a, b, c, d), a, b, c, d) == z
  {
    hide Arx;
    var y := QuarterInverse(z, a, b, c, d);
    ArxCancels(z[b], y[a], y[d], 7);
    ArxCancels(z[c], z[b], y[a], 9);
    ArxCancels(z[d], z[c], z[b], 13);
    ArxCancels(z[a], z[d], z[c], 18);
  }

  lemma RowRoundInverts(x: Block)
    ensures RowRoundInverse(RowRound(x)) == x && RowRound(RowRoundInverse(x)) == x
  {
    hide Quarter, QuarterInverse;
    var z0 := Quarter(x, 0, 1, 2, 3);
    var z1 := Quarter(z0, 5, 6, 7, 4);
    var z2 := Quarter(z1, 10, 11, 8, 9);
    QuarterUndone(x, 0, 1, 2, 3);
    QuarterUndone(z0, 5, 6, 7, 4);
    QuarterUndone(z1, 10, 11, 8, 9);
    QuarterUndone(z2, 15, 12, 13, 14);
    var y3 := QuarterInverse(x, 15, 12, 13, 14);
    var y2 := QuarterInverse(y3, 10, 11, 8, 9);
    var y1 := QuarterInverse(y2, 5, 6, 7, 4);
    QuarterRedone(x, 15, 12, 13, 14);
    QuarterRedone(y3, 10, 11, 8, 9);
    QuarterRedone(y2, 5, 6, 7, 4);
    QuarterRedone(y1, 0, 1, 2, 3);
  }

  lemma ColumnRoundInverts(x: Block)
    ensures ColumnRoundInverse(ColumnRound(x)) == x && ColumnRound(ColumnRoundInverse(x)) == x
  {
    hide Quarter, QuarterInverse;
    var z0 := Quarter(x, 0, 4, 8, 12);
    var z1 := Quarter(z0, 5, 9, 13, 1);
    var z2 := Quarter(z1, 10, 14, 2, 6);
    QuarterUndone(x, 0, 4, 8, 12);
    QuarterUndone(z0, 5, 9, 13, 1);
    QuarterUndone(z1, 10, 14, 2, 6);
    QuarterUndone(z2, 15, 3, 7, 11);
    var y3 := QuarterInverse(x, 15, 3, 7, 11);
    var y2 := QuarterInverse(y3, 10, 14, 2, 6);
    var y1 := QuarterInverse(y2, 5, 9, 13, 1);
    QuarterRedone(x, 15, 3, 7, 11);
    QuarterRedone(y3, 10, 14, 2, 6);
    QuarterRedone(y2, 5, 9, 13, 1);
    QuarterRedone(y1, 0, 4, 8, 12);
  }

  /** However many double rounds are run, they can be undone and every state is reached. */
  lemma {:induction false} RoundsAreABijection(x: Block, doubleRounds: nat)
    ensures RoundsInverse(Rounds(x, doubleRounds), doubleRounds) == x
    ensures Rounds(RoundsInverse(x, doubleRounds), doubleRounds) == x
    decreases doubleRounds
  {
    hide RowRound, ColumnRound, RowRoundInverse, ColumnRoundInverse;
    if doubleRounds == 0 {
    } else {
      var before := Rounds(x, doubleRounds - 1);
      RowRoundInverts(ColumnRound(before));
      ColumnRoundInverts(before);
      RoundsAreABijection(x, doubleRounds - 1);
      var undone := RowRoundInverse(x);
      RowRoundInverts(x);
      ColumnRoundInverts(undone);
      RoundsAreABijection(ColumnRoundInverse(undone), doubleRounds - 1);
    }
  }

  // ---------------------------------------------------------- the code

  /** Four assignments of `salsa20Core8`, on one row or column of x. */
  method QuarterInPlace(x: array<Word>, a: Index, b: Index, c: Index, d: Index)
    requires x.Length == 16 && Distinct(a, b, c, d)
    modifies x
    ensures x[..] == Quarter(old(x[..]), a, b, c, d)
  {
    hide Arx;
    x[b] := Arx(x[b], x[a], x[d], 7);
    x[c] := Arx(x[c], x[b], x[a], 9);
    x[d] := Arx(x[d], x[c], x[b], 13);
    x[a] := Arx(x[a], x[d], x[c], 18);
  }

  /** The loop of `salsa20Core8`: four column rounds, each followed by a row round. */
  method EightRoundsInPlace(x: array<Word>)
    requires x.Length == 16
    modifies x
    ensures x[..] == Rounds(old(x[..]), 4)
  {
    hide Quarter;
    ghost var start := x[..];
    var i := 0;
    while i < 8
      invariant 0 <= i <= 8 && i % 2 == 0
      invariant x[..] == Rounds(start, i / 2)
    {
      QuarterInPlace(x, 0, 4, 8, 12);
      QuarterInPlace(x, 5, 9, 13, 1);
      QuarterInPlace(x, 10, 14, 2, 6);
      QuarterInPlace(x, 15, 3, 7, 11);

      QuarterInPlace(x, 0, 1, 2, 3);
      QuarterInPlace(x, 5, 6, 7, 4);
      QuarterInPlace(x, 10, 11, 8, 9);
      QuarterInPlace(x, 15, 12, 13, 14);
      i := i + 2;
    }
  }

  /** web/auth.go `salsa20Core8`: output = input + rounds(input). */
  method Salsa20Core8(output: array<Word>, input: array<Word>)
    requires output.Length == input.Length == 16 && output != input
    modifies output
    ensures output[..] == Core8(input[..])
  {
    hide Rounds, Plus;
    var x := new Word[16];
    var i := 0;
    while i < 16
      invariant 0 <= i <= 16
      invariant forall j :: 0 <= j < i ==> x[j] == input[j]
    {
      x[i] := input[i];
      i := i + 1;
    }
    assert x[..] == input[..];
    EightRoundsInPlace(x);
    ghost var mixed := x[..];
    i := 0;
    while i < 16
      invariant 0 <= i <= 16 && x[..] == mixed
      invariant forall j :: 0 <= j < i ==> output[j] == Plus(x[j], input[j])
    {
      output[i] := Plus(x[i], input[i]);
      i := i + 1;
    }
    assert output[..] == Add(mixed, input[..]);
  }
}
