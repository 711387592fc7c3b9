/** inputmon/inputmon.go `reprSingle`, and the reader that undoes it. A char is a rune. */
module Repr {
  import opened Bits
  import opened Options

  // ---------------------------------------------------------- hexadecimal

  function HexDigit(d: nat): char
    requires d < 16
  {
    if d < 10 then ('0' as nat + d) as char else ('a' as nat + d - 10) as char
  }

  /** %0<w>x for a number of at most w digits. */
  function Hex(n: nat, w: nat): (s: string)
    requires n < Pow(16, w)
    ensures |s| == w
    ensures forall i :: 0 <= i < |s| ==> s[i] >= '0'
  {
    if w == 0 then "" else Hex(n / 16, w - 1) + [HexDigit(n % 16)]
  }

  function DigitValue(c: char): Option<nat> {
    if '0' <= c <= '9' then Some(c as nat - '0' as nat)
    else if 'a' <= c <= 'f' then Some(c as nat - 'a' as nat + 10)
    else None
  }

  function HexValue(s: string): Option<nat> {
    if s == "" then Some(0)
    else match (HexValue(s[..|s| - 1]), DigitValue(s[|s| - 1]))
      case (Some(high), Some(low)) => Some(16 * high + low)
      case _ => None
  }

  lemma DigitRoundTrip(d: nat)
    requires d < 16
    ensures DigitValue(HexDigit(d)) == Some(d)
  {}

  lemma HexStep(n: nat, w: nat)
    requires w > 0 && n < Pow(16, w)
    ensures n / 16 < Pow(16, w - 1) && Hex(n, w) == Hex(n / 16, w - 1) + [HexDigit(n % 16)]
  {}

  lemma {:induction false} HexRoundTrip(n: nat, w: nat)
    requires n < Pow(16, w)
    ensures HexValue(Hex(n, w)) == Some(n)
    decreases w
  {
    if w == 0 {
      assert HexValue("") == Some(0);
    } else {
      hide Hex, HexDigit, DigitValue, HexValue, Pow;
      HexStep(n, w);
      HexRoundTrip(n / 16, w - 1);
      DigitRoundTrip(n % 16);
      HexValuePush(Hex(n / 16, w - 1), HexDigit(n % 16), n / 16, n % 16);
    }
  }

  lemma HexValuePush(s: string, c: char, high: nat, low: nat)
    requires HexValue(s) == Some(high) && DigitValue(c) == Some(low)
    ensures HexValue(s + [c]) == Some(16 * high + low)
  {
    hide DigitValue;
    assert (s + [c])[..|s|] == s;
  }

  lemma Widths()
    ensures Pow(16, 2) == 0x100 && Pow(16, 4) == 0x1_0000 && Pow(16, 8) == 0x1_0000_0000
  {
    assert Pow(16, 3) == 0x1000;
    assert Pow(16, 5) == 0x10_0000;
    assert Pow(16, 6) == 0x100_0000;
    assert Pow(16, 7) == 0x1000_0000;
  }

  // ---------------------------------------------------------- the printer

  /** What one rune becomes; isPrint stands for unicode.IsPrint, whatever it answers. */
  function Escape(r: char, quote: char, isPrint: char -> bool): string {
    Widths();
    if r == quote || r == '\\' then ['\\', r]
    else if r == '\t' then "\\t"
    else if r == '\n' then "\\n"
    else if r == '\r' then "\\r"
    else if isPrint(r) then [r]
    else if r as nat <= 0xff then "\\x" + Hex(r as nat, 2)
    else if r as nat <= 0xffff then "\\u" + Hex(r as nat, 4)
    else "\\U" + Hex(r as nat, 8)
  }

  function Body(s: string, quote: char, isPrint: char -> bool): string {
    if s == "" then "" else Escape(s[0], quote, isPrint) + Body(s[1..], quote, isPrint)
  }

  function Quote(s: string): char {
    if '\'' in s && '"' !in s then '"' else '\''
  }

  function Printed(s: string, isPrint: char -> bool): string {
    [Quote(s)] + Body(s, Quote(s), isPrint) + [Quote(s)]
  }

  predicate Plain(r: char, quote: char, isPrint: char -> bool) {
    isPrint(r) && r != quote && r != '\\' && r != '\t' && r != '\n' && r != '\r'
  }

  /** A rune stands for itself exactly when it is printable and not special, and takes the shortest form otherwise. */
  lemma EscapeForms(r: char, quote: char, isPrint: char -> bool)
    requires quote == '\'' || quote == '"'
    ensures var e := Escape(r, quote, isPrint);
            && (e == [r] <==> Plain(r, quote, isPrint))
            && |e| == (if Plain(r, quote, isPrint) then 1
                       else if r == quote || r == '\\' || r == '\t' || r == '\n' || r == '\r' then 2
                       else if r as nat < 0x100 then 4 else if r as nat < 0x1_0000 then 6 else 10)
  {
    Widths();
  }

  /** A text is printed as itself between quotes exactly when each of its runes is. */
  lemma {:induction false} PlainText(s: string, quote: char, isPrint: char -> bool)
    requires quote == '\'' || quote == '"'
    ensures |Body(s, quote, isPrint)| >= |s|
    ensures Body(s, quote, isPrint) == s <==> forall i :: 0 <= i < |s| ==> Plain(s[i], quote, isPrint)
    decreases |s|
  {
    hide Escape, Plain;
    if s != "" {
      PlainText(s[1..], quote, isPrint);
      EscapeForms(s[0], quote, isPrint);
      var (e, rest) := (Escape(s[0], quote, isPrint), Body(s[1..], quote, isPrint));
      assert s == [s[0]] + s[1..];
      assert |e| == 1 ==> (e + rest)[1..] == rest && e == [e[0]];
      assert forall i :: 0 <= i < |s[1..]| ==> s[1..][i] == s[i + 1];
    }
  }

  /** Double quotes surround a text that holds single quotes only; so a quote is escaped in a text with both only. */
  lemma QuoteChoice(s: string, isPrint: char -> bool)
    ensures Quote(s) == '"' <==> '\'' in s && '"' !in s
    ensures Quote(s) in s <==> '\'' in s && '"' in s
    ensures Printed(s, isPrint)[0] == Quote(s) == Printed(s, isPrint)[|Printed(s, isPrint)| - 1]
  {}

  lemma {:induction false} BodyPush(s: string, r: char, quote: char, isPrint: char -> bool)
    ensures Body(s + [r], quote, isPrint) == Body(s, quote, isPrint) + Escape(r, quote, isPrint)
    decreases |s|
  {
    hide Escape;
    if s == "" {
      assert (s + [r])[1..] == "";
    } else {
      BodyPush(s[1..], r, quote, isPrint);
      assert (s + [r])[1..] == s[1..] + [r];
    }
  }

  /** The switch of `reprSingle`. */
  method WriteRune(b: string, r: char, quote: char, isPrint: char -> bool) returns (out: string)
    ensures out == b + Escape(r, quote, isPrint)
  {
    Widths();
    if r == quote || r == '\\' {
      out := b + ['\\'] + [r];
    } else if r == '\t' {
      out := b + "\\t";
    } else if r == '\n' {
      out := b + "\\n";
    } else if r == '\r' {
      out := b + "\\r";
    } else if isPrint(r) {
      out := b + [r];
    } else if r as nat <= 0xff {
      out := b + ("\\x" + Hex(r as nat, 2));
    } else if r as nat <= 0xffff {
      out := b + ("\\u" + Hex(r as nat, 4));
    } else {
      out := b + ("\\U" + Hex(r as nat, 8));
    }
  }

  /** inputmon/inputmon.go `reprSingle`. */
  method ReprSingle(s: string, isPrint: char -> bool) returns (out: string)
    ensures out == Printed(s, isPrint)
  {
    hide Escape;
    var quote := '\'';
    if '\'' in s && '"' !in s {
      quote := '"';
    }
    var b := [quote];
    var i := 0;
    while i < |s|
      invariant 0 <= i <= |s| && b == [quote] + Body(s[..i], quote, isPrint)
    {
      var r := s[i];
      assert s[..i + 1] == s[..i] + [r];
      BodyPush(s[..i], r, quote, isPrint);
      b := WriteRune(b, r, quote, isPrint);
      i := i + 1;
    }
    assert s[..i] == s;
    out := b + [quote];
  }

  // ---------------------------------------------------------- the reader

  predicate Scalar(n: nat) {
    n < 0xd800 || 0xe000 <= n < 0x11_0000
  }

  /** The rune of a hex escape. */
  function Coded(digits: string): Option<char> {
    match HexValue(digits)
    case Some(n) => if Scalar(n) then Some(n as char) else None
    case None => None
  }

  function Prepend(r: Option<char>, rest: Option<string>): Option<string> {
    match (r, rest)
    case (Some(c), Some(s)) => Some([c] + s)
    case _ => None
  }

  /** Reads the text between the quotes. */
  function Unescape(t: string): Option<string>
    decreases |t|
  {
    if t == "" then Some("")
    else if t[0] != '\\' then Prepend(Some(t[0]), Unescape(t[1..]))
    else if |t| < 2 then None
    else if t[1] == 't' then Prepend(Some('\t'), Unescape(t[2..]))
    else if t[1] == 'n' then Prepend(Some('\n'), Unescape(t[2..]))
    else if t[1] == 'r' then Prepend(Some('\r'), Unescape(t[2..]))
    else if t[1] == 'x' then (if |t| < 4 then None else Prepend(Coded(t[2..4]), Unescape(t[4..])))
    else if t[1] == 'u' then (if |t| < 6 then None else Prepend(Coded(t[2..6]), Unescape(t[6..])))
    else if t[1] == 'U' then (if |t| < 10 then None else Prepend(Coded(t[2..10]), Unescape(t[10..])))
    else Prepend(Some(t[1]), Unescape(t[2..]))
  }

  function Parse(t: string): Option<string> {
    if |t| >= 2 then Unescape(t[1..|t| - 1]) else None
  }

  lemma CodedHex(r: char, w: nat)
    requires r as nat < Pow(16, w)
    ensures Coded(Hex(r as nat, w)) == Some(r)
  {
    HexRoundTrip(r as nat, w);
  }

  lemma UnescapeOne(r: char, quote: char, isPrint: char -> bool, rest: string)
    requires quote == '\'' || quote == '"'
    ensures Unescape(Escape(r, quote, isPrint) + rest) == Prepend(Some(r), Unescape(rest))
  {
    hide Coded, Hex;
    Widths();
    var t := Escape(r, quote, isPrint) + rest;
    if r == quote || r == '\\' || r == '\t' || r == '\n' || r == '\r' {
      assert t[2..] == rest;
    } else if isPrint(r) {
      assert t[1..] == rest;
    } else {
      var w := if r as nat <= 0xff then 2 else if r as nat <= 0xffff then 4 else 8;
      CodedHex(r, w);
      UnescapeHex(r, if w == 2 then 'x' else if w == 4 then 'u' else 'U', Hex(r as nat, w), rest);
      assert t == ['\\', t[1]] + Hex(r as nat, w) + rest;
    }
  }

  lemma UnescapeHex(r: char, kind: char, digits: string, rest: string)
    requires Coded(digits) == Some(r)
    requires |digits| == if kind == 'x' then 2 else if kind == 'u' then 4 else 8
    requires kind == 'x' || kind == 'u' || kind == 'U'
    ensures Unescape(['\\', kind] + digits + rest) == Prepend(Some(r), Unescape(rest))
  {
    hide Coded;
    var t := ['\\', kind] + digits + rest;
    assert t[2..2 + |digits|] == digits && t[2 + |digits|..] == rest;
  }

  lemma {:induction false} UnescapeBody(s: string, quote: char, isPrint: char -> bool)
    requires quote == '\'' || quote == '"'
    ensures Unescape(Body(s, quote, isPrint)) == Some(s)
    decreases |s|
  {
    if s == "" {
    } else {
      hide Escape, Unescape;
      UnescapeOne(s[0], quote, isPrint, Body(s[1..], quote, isPrint));
      UnescapeBody(s[1..], quote, isPrint);
      assert s == [s[0]] + s[1..];
    }
  }

  /** Every name can be read back from its printed form, whichever runes count as printable. */
  lemma PrintedParses(s: string, isPrint: char -> bool)
    ensures Parse(Printed(s, isPrint)) == Some(s)
  {
    var t := Printed(s, isPrint);
    UnescapeBody(s, Quote(s), isPrint);
    assert t[1..|t| - 1] == Body(s, Quote(s), isPrint);
  }

  lemma EscapeIsInline(r: char, quote: char, isPrint: char -> bool)
    requires quote == '\'' || quote == '"'
    ensures var e := Escape(r, quote, isPrint); '\t' !in e && '\n' !in e && '\r' !in e
  {
    Widths();
  }

  lemma {:induction false} BodyIsInline(s: string, quote: char, isPrint: char -> bool)
    requires quote == '\'' || quote == '"'
    ensures var b := Body(s, quote, isPrint); '\t' !in b && '\n' !in b && '\r' !in b
    decreases |s|
  {
    hide Escape;
    if s != "" {
      EscapeIsInline(s[0], quote, isPrint);
      BodyIsInline(s[1..], quote, isPrint);
    }
  }

  /** The printed form never breaks a tab-separated line, whatever the device calls itself. */
  lemma PrintedIsInline(s: string, isPrint: char -> bool)
    ensures var t := Printed(s, isPrint); '\t' !in t && '\n' !in t && '\r' !in t
  {
    BodyIsInline(s, Quote(s), isPrint);
  }
}
