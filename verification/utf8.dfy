/** UTF-8 as Go reads it, and strings.ToValidUTF8. Text is bytes: characters below 256. */
module Utf8 {
  import opened Fields
  import opened Octets

  predicate Between(c: char, lo: int, hi: int) {
    lo <= c as int <= hi
  }

  predicate Continues(c: char) {
    Between(c, 0x80, 0xbf)
  }

  /** How long the rune at the front is, or 0 when no valid rune is there. */
  function RuneWidth(s: string): (n: nat)
    ensures n <= |s|
  {
    if s == "" then 0
    else if Between(s[0], 0, 0x7f) then 1
    else if |s| >= 2 && Between(s[0], 0xc2, 0xdf) && Continues(s[1]) then 2
    else if |s| >= 3 && Between(s[0], 0xe0, 0xef) && SecondOfThree(s[0], s[1]) && Continues(s[2]) then 3
    else if |s| < 4 || !Between(s[0], 0xf0, 0xf4) || !SecondOfFour(s[0], s[1]) then 0
    else if Continues(s[2]) && Continues(s[3]) then 4
    else 0
  }

  /** No overlong forms, and no surrogates. */
  predicate SecondOfThree(a: char, b: char) {
    if a as int == 0xe0 then Between(b, 0xa0, 0xbf)
    else if a as int == 0xed then Between(b, 0x80, 0x9f)
    else Continues(b)
  }

  /** No overlong forms, and nothing above U+10FFFF. */
  predicate SecondOfFour(a: char, b: char) {
    if a as int == 0xf0 then Between(b, 0x90, 0xbf)
    else if a as int == 0xf4 then Between(b, 0x80, 0x8f)
    else Continues(b)
  }

  predicate ValidUtf8(s: string)
    decreases |s|
  {
    s == "" || (RuneWidth(s) > 0 && ValidUtf8(s[RuneWidth(s)..]))
  }

  /** U+FFFD. */
  const REPLACEMENT: string := [0xef as char, 0xbf as char, 0xbd as char]

  /** The loop of strings.ToValidUTF8; `bad` says that the byte before was replaced. */
  function RepairFrom(s: string, bad: bool): string
    decreases |s|
  {
    if s == "" then ""
    else if RuneWidth(s) > 0 then s[..RuneWidth(s)] + RepairFrom(s[RuneWidth(s)..], false)
    else (if bad then "" else REPLACEMENT) + RepairFrom(s[1..], true)
  }

  function Repair(s: string): string {
    RepairFrom(s, false)
  }

  predicate Ascii(c: char) {
    c as int < 0x80
  }

  // Valid text

  /** Whether a rune is there depends on its own bytes only. */
  lemma SameRune(s: string, n: nat, rest: string)
    requires 0 < n == RuneWidth(s)
    ensures RuneWidth(s[..n] + rest) == n
  {}

  lemma {:induction false} RepairIsValid(s: string, bad: bool)
    ensures ValidUtf8(RepairFrom(s, bad))
    decreases |s|
  {
    if s != "" {
      var n := RuneWidth(s);
      if n > 0 {
        var rest := RepairFrom(s[n..], false);
        RepairIsValid(s[n..], false);
        SameRune(s, n, rest);
        assert (s[..n] + rest)[n..] == rest;
        hide RuneWidth;
      } else {
        var rest := RepairFrom(s[1..], true);
        RepairIsValid(s[1..], true);
        ReplacementBefore(rest);
        assert "" + rest == rest;
        hide RuneWidth;
      }
    }
  }

  lemma ReplacementBefore(rest: string)
    requires ValidUtf8(rest)
    ensures ValidUtf8(REPLACEMENT + rest)
  {
    assert (REPLACEMENT + rest)[3..] == rest;
    assert RuneWidth(REPLACEMENT + rest) == 3;
  }

  lemma {:induction false} ValidIsKept(s: string, bad: bool)
    requires ValidUtf8(s)
    ensures RepairFrom(s, bad) == s
    decreases |s|
  {
    hide RuneWidth;
    if s != "" {
      ValidIsKept(s[RuneWidth(s)..], false);
    }
  }

  /** Repairing leaves a text alone exactly when it is valid. */
  lemma RepairKeepsExactly(s: string)
    ensures Repair(s) == s <==> ValidUtf8(s)
  {
    RepairIsValid(s, false);
    if ValidUtf8(s) {
      ValidIsKept(s, false);
    }
    hide ValidUtf8, RepairFrom;
  }

  lemma RepairNothing(s: string)
    ensures Repair(s) == "" <==> s == ""
  {
    assert RuneWidth(s) > 0 ==> s[..RuneWidth(s)] != "";
    hide RuneWidth;
  }

  // Cutting at ASCII

  lemma AsciiBehind(s: string, c: char, rest: string)
    requires s != "" && Ascii(c)
    ensures RuneWidth(s + [c] + rest) == RuneWidth(s)
  {}

  /** One step of the repair: a rune is kept, a bad byte is replaced or dropped. */
  lemma RepairStep(s: string, bad: bool)
    requires s != ""
    ensures var n := RuneWidth(s);
            RepairFrom(s, bad) == if n > 0 then s[..n] + RepairFrom(s[n..], false)
                                  else (if bad then "" else REPLACEMENT) + RepairFrom(s[1..], true)
  {}

  /** An ASCII character separates what is repaired before it from what is repaired behind it. */
  lemma {:induction false} RepairAround(a: string, c: char, b: string, bad: bool)
    requires Ascii(c)
    ensures RepairFrom(a + [c] + b, bad) == RepairFrom(a, bad) + [c] + Repair(b)
    decreases |a|
  {
    if a == "" {
      LoneAscii(c, b, bad);
      assert a + [c] + b == [c] + b && RepairFrom(a, bad) + [c] + Repair(b) == [c] + Repair(b);
    } else {
      var n := RuneWidth(a);
      var m := if n > 0 then n else 1;
      RepairStep(a + [c] + b, bad);
      RepairStep(a, bad);
      AsciiBehind(a, c, b);
      hide RuneWidth, RepairFrom;
      CutFront(a, m, c, b);
      RepairAround(a[m..], c, b, n == 0);
      var front := if n > 0 then a[..m] else if bad then "" else REPLACEMENT;
      RegroupAround(front, RepairFrom(a[m..], n == 0), c, Repair(b));
    }
  }

  lemma LoneAscii(c: char, b: string, bad: bool)
    requires Ascii(c)
    ensures RepairFrom([c] + b, bad) == [c] + Repair(b)
  {
    var s := [c] + b;
    assert s[..1] == [c] && s[1..] == b && RuneWidth(s) == 1;
  }

  lemma CutFront(a: string, m: nat, c: char, b: string)
    requires m <= |a|
    ensures (a + [c] + b)[..m] == a[..m] && (a + [c] + b)[m..] == a[m..] + [c] + b
  {}

  lemma RegroupAround(front: string, mid: string, c: char, back: string)
    ensures front + (mid + [c] + back) == (front + mid) + [c] + back
  {}

  lemma {:induction false} NoNewAscii(s: string, bad: bool, c: char)
    requires Ascii(c)
    ensures c in RepairFrom(s, bad) <==> c in s
    decreases |s|
  {
    hide RuneWidth;
    if s != "" {
      var n := RuneWidth(s);
      if n > 0 {
        NoNewAscii(s[n..], false, c);
        assert s == s[..n] + s[n..];
      } else {
        NoNewAscii(s[1..], true, c);
        NotAscii(s);
        assert s == [s[0]] + s[1..];
        assert c !in REPLACEMENT;
      }
    }
  }

  lemma NotAscii(s: string)
    ensures s != "" && RuneWidth(s) == 0 ==> !Ascii(s[0])
  {}

  /** A text of ASCII characters is what it is repaired from. */
  lemma AsciiFromItself(s: string, t: string)
    requires !HasHigh(t)
    ensures Repair(s) == t <==> s == t
  {
    hide RepairFrom, ValidUtf8;
    AsciiIsValid(t);
    RepairKeepsExactly(t);
    RepairKeepsExactly(s);
    RepairsShow(s);
  }

  predicate HasHigh(t: string) {
    exists i :: 0 <= i < |t| && !Ascii(t[i])
  }

  lemma {:induction false} AsciiIsValid(t: string)
    requires !HasHigh(t)
    ensures ValidUtf8(t)
    decreases |t|
  {
    if t != "" {
      assert forall i :: 0 <= i < |t[1..]| ==> t[1..][i] == t[i + 1];
      AsciiIsValid(t[1..]);
    }
  }

  /** A repair shows: it leaves a character that is not ASCII. */
  lemma {:induction false} RepairsShow(s: string)
    ensures ValidUtf8(s) || HasHigh(Repair(s))
    decreases |s|
  {
    hide RuneWidth;
    if s != "" {
      RepairStep(s, false);
      hide RepairFrom;
      var n := RuneWidth(s);
      if n > 0 {
        RepairsShow(s[n..]);
        HighBehind(s[..n], Repair(s[n..]));
      } else {
        assert !Ascii(Repair(s)[0]);
      }
    }
  }

  lemma HighBehind(front: string, back: string)
    ensures HasHigh(back) ==> HasHigh(front + back)
  {
    if i :| 0 <= i < |back| && !Ascii(back[i]) {
      assert (front + back)[|front| + i] == back[i];
    }
  }

  // Fields and lines

  function RepairAll(ss: seq<string>): (rs: seq<string>)
    ensures |rs| == |ss| && forall i :: 0 <= i < |ss| ==> rs[i] == Repair(ss[i])
  {
    seq(|ss|, i requires 0 <= i < |ss| => Repair(ss[i]))
  }

  /** Splitting at an ASCII character and repairing commute. */
  lemma {:induction false} SplitRepaired(s: string, c: char)
    requires Ascii(c)
    ensures Split(Repair(s), c) == RepairAll(Split(s, c))
    decreases |s|
  {
    hide Split, RuneWidth, RepairFrom;
    var k := Find(s, c);
    if k == |s| {
      NoNewAscii(s, false, c);
      NothingSplit(s, c);
      NothingSplit(Repair(s), c);
    } else {
      var (first, rest) := (s[..k], s[k + 1..]);
      assert s == first + [c] + rest;
      SplitRepaired(rest, c);
      RepairAround(first, c, rest, false);
      NoNewAscii(first, false, c);
      SplitFirst(first, rest, c);
      SplitFirst(Repair(first), Repair(rest), c);
      assert RepairAll([first] + Split(rest, c)) == [Repair(first)] + RepairAll(Split(rest, c));
    }
  }

  // What the widths mean

  /** The code points that have a form in UTF-8: all but the surrogates. */
  predicate Scalar(cp: nat) {
    cp < 0xd800 || 0xe000 <= cp < 0x11_0000
  }

  /** The form of a code point, section 3 of RFC 3629. */
  function Encode(cp: nat): (b: Key)
    requires Scalar(cp)
    ensures 1 <= |b| <= 4
  {
    if cp < 0x80 then [cp]
    else if cp < 0x800 then [0xc0 + cp / 0x40, 0x80 + cp % 0x40]
    else if cp < 0x1_0000 then [0xe0 + cp / 0x1000, 0x80 + cp / 0x40 % 0x40, 0x80 + cp % 0x40]
    else [0xf0 + cp / 0x4_0000, 0x80 + cp / 0x1000 % 0x40, 0x80 + cp / 0x40 % 0x40, 0x80 + cp % 0x40]
  }

  function Text(b: Key): (s: string)
    ensures |s| == |b|
  {
    seq(|b|, i requires 0 <= i < |b| => b[i] as char)
  }

  /** The code point of the rune at the front. */
  function Decode(s: string): nat
    requires RuneWidth(s) > 0
  {
    var b := (i: int) requires 0 <= i < |s| => s[i] as int;
    match RuneWidth(s)
    case 1 => b(0)
    case 2 => (b(0) - 0xc0) * 0x40 + (b(1) - 0x80)
    case 3 => (b(0) - 0xe0) * 0x1000 + (b(1) - 0x80) * 0x40 + (b(2) - 0x80)
    case _ => (b(0) - 0xf0) * 0x4_0000 + (b(1) - 0x80) * 0x1000 + (b(2) - 0x80) * 0x40 + (b(3) - 0x80)
  }

  lemma EncodedIsRune(cp: nat, rest: string)
    requires Scalar(cp)
    ensures RuneWidth(Text(Encode(cp)) + rest) == |Encode(cp)|
  {
    var s := Text(Encode(cp)) + rest;
    assert forall i :: 0 <= i < |Encode(cp)| ==> s[i] as int == Encode(cp)[i];
    if cp < 0x800 {
    } else if cp < 0x1_0000 {
      ThreeBytes(cp);
    } else {
      FourBytes(cp);
    }
    hide Text;
  }

  lemma ThreeBytes(cp: nat)
    requires Scalar(cp) && 0x800 <= cp < 0x1_0000
    ensures var (a, b) := (Encode(cp)[0] as int, Encode(cp)[1] as int);
            && 0xe0 <= a <= 0xef && 0x80 <= b <= 0xbf && (a == 0xe0 ==> b >= 0xa0) && (a == 0xed ==> b <= 0x9f)
  {}

  lemma FourBytes(cp: nat)
    requires Scalar(cp) && 0x1_0000 <= cp
    ensures var (a, b) := (Encode(cp)[0] as int, Encode(cp)[1] as int);
            && 0xf0 <= a <= 0xf4 && 0x80 <= b <= 0xbf && (a == 0xf0 ==> b >= 0x90) && (a == 0xf4 ==> b <= 0x8f)
  {}

  lemma Six(high: nat, low: nat)
    requires low < 0x40
    ensures (high * 0x40 + low) / 0x40 == high && (high * 0x40 + low) % 0x40 == low
  {}

  lemma RuneIsEncoded(s: string)
    requires RuneWidth(s) > 0
    ensures Scalar(Decode(s)) && Text(Encode(Decode(s))) == s[..RuneWidth(s)]
  {
    match RuneWidth(s)
    case 1 =>
    case 2 => Six(s[0] as int - 0xc0, s[1] as int - 0x80);
    case 3 => ThreeIsEncoded(s);
    case _ => FourIsEncoded(s);
  }

  lemma ThreeIsEncoded(s: string)
    requires RuneWidth(s) == 3
    ensures Scalar(Decode(s)) && Text(Encode(Decode(s))) == s[..3]
  {
    var (a, b, c) := (s[0] as int - 0xe0, s[1] as int - 0x80, s[2] as int - 0x80);
    Six(a, b);
    Six(a * 0x40 + b, c);
    assert Decode(s) == (a * 0x40 + b) * 0x40 + c;
    assert 0x800 <= Decode(s) < 0x1_0000;
    assert Decode(s) / 0x1000 == Decode(s) / 0x40 / 0x40;
  }

  lemma FourIsEncoded(s: string)
    requires RuneWidth(s) == 4
    ensures Scalar(Decode(s)) && Text(Encode(Decode(s))) == s[..4]
  {
    var (a, b, c, d) := (s[0] as int - 0xf0, s[1] as int - 0x80, s[2] as int - 0x80, s[3] as int - 0x80);
    Six(a, b);
    Six(a * 0x40 + b, c);
    Six((a * 0x40 + b) * 0x40 + c, d);
    assert Decode(s) == ((a * 0x40 + b) * 0x40 + c) * 0x40 + d;
    assert 0x1_0000 <= Decode(s) < 0x11_0000;
    assert Decode(s) / 0x1000 == Decode(s) / 0x40 / 0x40;
    assert Decode(s) / 0x4_0000 == Decode(s) / 0x40 / 0x40 / 0x40;
  }

  /** A rune is read exactly where the form of some code point stands, and is as long as that form. */
  lemma RuneWidthExactly(s: string, n: nat)
    requires n > 0
    ensures RuneWidth(s) == n <==> exists cp :: Scalar(cp) && |Encode(cp)| == n <= |s| && s[..n] == Text(Encode(cp))
  {
    hide RuneWidth, Decode, Encode;
    if RuneWidth(s) == n {
      RuneIsEncoded(s);
    }
    if cp :| Scalar(cp) && |Encode(cp)| == n <= |s| && s[..n] == Text(Encode(cp)) {
      EncodedIsRune(cp, s[n..]);
      assert s == s[..n] + s[n..];
    }
  }

  // What a repair does

  /** U+FFFD, the replacement character. */
  lemma ReplacementIsEncoded()
    ensures REPLACEMENT == Text(Encode(0xfffd))
  {}

  /** Valid text at the front is kept. */
  lemma {:induction false} ValidFrontIsKept(front: string, rest: string)
    requires ValidUtf8(front)
    ensures Repair(front + rest) == front + Repair(rest)
    decreases |front|
  {
    hide RuneWidth, RepairFrom;
    if front == "" {
      assert front + rest == rest;
    } else {
      var n := RuneWidth(front);
      var (all, left) := (front + rest, front[n..] + rest);
      SameRune(front, n, left);
      assert all == front[..n] + left;
      RepairStep(all, false);
      assert all[..n] == front[..n] && all[n..] == left;
      ValidFrontIsKept(front[n..], rest);
      assert front[..n] + (front[n..] + Repair(rest)) == front + Repair(rest);
    }
  }

  /** No rune starts at any of the bytes of `bad` in front of `rest`. */
  predicate AllBad(bad: string, rest: string) {
    forall i :: 0 <= i < |bad| ==> RuneWidth(bad[i..] + rest) == 0
  }

  lemma {:induction false} BadRun(bad: string, rest: string)
    requires AllBad(bad, rest)
    ensures RepairFrom(bad + rest, true) == RepairFrom(rest, true)
    decreases |bad|
  {
    hide RuneWidth;
    if bad == "" {
      assert bad + rest == rest;
    } else {
      assert RuneWidth(bad[0..] + rest) == 0 && bad[0..] == bad;
      assert (bad + rest)[1..] == bad[1..] + rest;
      RepairStep(bad + rest, true);
      assert forall i :: 0 <= i < |bad[1..]| ==> bad[1..][i..] == bad[i + 1..];
      BadRun(bad[1..], rest);
    }
  }

  /** A stretch of bytes that start no rune becomes one replacement character, however long it is. */
  lemma BadRunIsReplacedOnce(bad: string, rest: string)
    requires bad != "" && AllBad(bad, rest) && (rest == "" || RuneWidth(rest) > 0)
    ensures Repair(bad + rest) == REPLACEMENT + Repair(rest)
  {
    hide RuneWidth;
    assert RuneWidth(bad[0..] + rest) == 0 && bad[0..] == bad;
    assert (bad + rest)[1..] == bad[1..] + rest;
    RepairStep(bad + rest, false);
    assert forall i :: 0 <= i < |bad[1..]| ==> bad[1..][i..] == bad[i + 1..];
    BadRun(bad[1..], rest);
    if rest != "" {
      RepairStep(rest, true);
      RepairStep(rest, false);
    }
  }
}
