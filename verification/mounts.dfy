/** storage/store.go: reading mount targets out of /proc/mounts. Text is bytes. */
module Mounts {
  import opened Octets
  import Utf8

  const BACKSLASH: Octet := 92

  /** strconv.ParseUint(_, 8, 8) on three bytes: octal digits, and a value that fits a byte. */
  predicate IsOctal(a: Octet, b: Octet, c: Octet)
    ensures IsOctal(a, b, c) ==> 0 <= OctalValue(a, b, c) < 256
  {
    48 <= a < 56 && 48 <= b < 56 && 48 <= c < 56 && OctalValue(a, b, c) < 256
  }

  function OctalValue(a: Octet, b: Octet, c: Octet): int {
    (a as int - 48) * 64 + (b as int - 48) * 8 + (c as int - 48)
  }

  predicate EscapeAt(s: Key) {
    |s| > 3 && s[0] == BACKSLASH && IsOctal(s[1], s[2], s[3])
  }

  function Unescape(s: Key): Key {
    if s == [] then []
    else if EscapeAt(s) then [OctalValue(s[1], s[2], s[3])] + Unescape(s[4..])
    else [s[0]] + Unescape(s[1..])
  }

  lemma {:induction false} NoBackslash(s: Key)
    requires BACKSLASH !in s
    ensures Unescape(s) == s
  {
    if s != [] {
      NoBackslash(s[1..]);
    }
  }

  lemma UnescapeStep(s: Key, i: nat)
    requires i < |s|
    ensures Unescape(s[i..]) ==
      if s[i] == BACKSLASH && i + 3 < |s| && IsOctal(s[i + 1], s[i + 2], s[i + 3])
      then [OctalValue(s[i + 1], s[i + 2], s[i + 3])] + Unescape(s[i + 4..])
      else [s[i]] + Unescape(s[i + 1..])
  {
    hide IsOctal;
    var left := s[i..];
    assert left[1..] == s[i + 1..];
    assert |left| > 3 ==> left[4..] == s[i + 4..];
  }

  lemma Regroup(text: Key, b: Octet, rest: Key)
    ensures text + ([b] + rest) == (text + [b]) + rest
  {}

  /** The decoder: an index that advances by one byte or by one escape. */
  method UnescapeMount(s: Key) returns (text: Key)
    ensures text == Unescape(s)
  {
    if BACKSLASH !in s {
      NoBackslash(s);
      return s;
    }
    text := [];
    var i := 0;
    while i < |s|
      invariant 0 <= i <= |s|
      invariant Unescape(s) == text + Unescape(s[i..])
    {
      hide Unescape, IsOctal, OctalValue;
      UnescapeStep(s, i);
      if s[i] == BACKSLASH && i + 3 < |s| {
        if IsOctal(s[i + 1], s[i + 2], s[i + 3]) {
          var b: Octet := OctalValue(s[i + 1], s[i + 2], s[i + 3]);
          Regroup(text, b, Unescape(s[i + 4..]));
          text := text + [b];
          i := i + 4;
          continue;
        }
      }
      Regroup(text, s[i], Unescape(s[i + 1..]));
      text := text + [s[i]];
      i := i + 1;
    }
  }

  // What the kernel writes

  function Octal(b: Octet): Key {
    [BACKSLASH, 48 + b / 64, 48 + b / 8 % 8, 48 + b % 8]
  }

  /** A name with some bytes escaped. */
  function Escape(t: Key, special: set<Octet>): Key {
    if t == [] then [] else (if t[0] in special then Octal(t[0]) else [t[0]]) + Escape(t[1..], special)
  }

  lemma OctalRead(b: Octet, rest: Key)
    ensures var s := Octal(b) + rest; EscapeAt(s) && OctalValue(s[1], s[2], s[3]) == b && s[4..] == rest
  {}

  lemma ThreeDigits(a: nat, b: nat, c: nat, v: nat)
    requires a < 8 && b < 8 && c < 8 && v == a * 64 + b * 8 + c
    ensures v / 64 == a && v / 8 % 8 == b && v % 8 == c
  {}

  lemma DigitsAreOctal(a: Octet, b: Octet, c: Octet)
    requires IsOctal(a, b, c)
    ensures Octal(OctalValue(a, b, c)) == [BACKSLASH, a, b, c]
  {
    ThreeDigits(a as int - 48, b as int - 48, c as int - 48, OctalValue(a, b, c));
  }

  lemma EscapeIsOctal(s: Key)
    requires EscapeAt(s)
    ensures s[..4] == Octal(OctalValue(s[1], s[2], s[3]))
  {
    DigitsAreOctal(s[1], s[2], s[3]);
    hide Octal, OctalValue;
  }

  lemma OctalIsEscape(s: Key, b: Octet)
    requires |s| >= 4 && s[..4] == Octal(b)
    ensures EscapeAt(s)
  {
    OctalRead(b, s[4..]);
    assert s == Octal(b) + s[4..];
  }

  /** An escape is read exactly where the octal form of some byte stands. */
  lemma EscapeExactly(s: Key)
    ensures EscapeAt(s) <==> |s| >= 4 && exists b: Octet :: s[..4] == Octal(b)
  {
    if EscapeAt(s) {
      EscapeIsOctal(s);
    }
    hide EscapeAt, Octal, OctalValue;
    if |s| >= 4 {
      if b: Octet :| s[..4] == Octal(b) {
        OctalIsEscape(s, b);
      }
    }
  }

  /**
   * No raw backslash can be taken for an escape: it is escaped itself, or so is every digit an escape can
   * start with.
   */
  predicate Unambiguous(special: set<Octet>) {
    BACKSLASH in special || forall d: Octet :: 48 <= d < 52 ==> d in special
  }

  lemma {:induction false} UnescapeRestores(t: Key, special: set<Octet>)
    requires Unambiguous(special)
    ensures Unescape(Escape(t, special)) == t
  {
    if t != [] {
      var rest := Escape(t[1..], special);
      UnescapeRestores(t[1..], special);
      if t[0] in special {
        OctalRead(t[0], rest);
      } else {
        assert ([t[0]] + rest)[1..] == rest;
        assert rest != [] ==> rest[0] == BACKSLASH || rest[0] !in special;
      }
    }
  }

  lemma RawEscape(d: Octet, special: set<Octet>)
    requires 48 <= d < 52 && d !in special && BACKSLASH !in special
    ensures var t: Key := [BACKSLASH, d, d, d]; Unescape(Escape(t, special)) != t
  {
    var t: Key := [BACKSLASH, d, d, d];
    NothingEscaped(t, special);
    assert Unescape(t)[0] == OctalValue(d, d, d);
  }

  lemma {:induction false} NothingEscaped(t: Key, special: set<Octet>)
    requires forall b :: b in t ==> b !in special
    ensures Escape(t, special) == t
  {
    if t != [] {
      NothingEscaped(t[1..], special);
    }
  }

  /** Decoding undoes the escaping of every name exactly when the escaped bytes are unambiguous. */
  lemma UnescapeRestoresExactly(special: set<Octet>)
    ensures (forall t :: Unescape(Escape(t, special)) == t) <==> Unambiguous(special)
  {
    if Unambiguous(special) {
      forall t ensures Unescape(Escape(t, special)) == t {
        UnescapeRestores(t, special);
      }
    } else {
      var d: Octet :| 48 <= d < 52 && d !in special;
      RawEscape(d, special);
    }
  }

  // Words

  predicate WideSpace(a: Octet, b: Octet, c: Octet) {
    || (a == 0xe1 && b == 0x9a && c == 0x80)
    || (a == 0xe2 && b == 0x80 && (0x80 <= c <= 0x8a || c == 0xa8 || c == 0xa9 || c == 0xaf))
    || (a == 0xe2 && b == 0x81 && c == 0x9f)
    || (a == 0xe3 && b == 0x80 && c == 0x80)
  }

  /** How many bytes of white space a text starts with: unicode.IsSpace of its first rune, in UTF-8. */
  function SpaceWidth(s: Key): (n: nat)
    ensures n <= |s|
  {
    if s == [] then 0
    else if s[0] == 32 || 9 <= s[0] <= 13 then 1
    else if |s| >= 2 && s[0] == 0xc2 && (s[1] == 0x85 || s[1] == 0xa0) then 2
    else if |s| >= 3 && WideSpace(s[0], s[1], s[2]) then 3
    else 0
  }

  /** The code points that unicode.IsSpace accepts, the Unicode property White_Space. */
  predicate WhiteSpace(cp: nat) {
    || 0x09 <= cp <= 0x0d || cp == 0x20 || cp == 0x85 || cp == 0xa0 || cp == 0x1680 || 0x2000 <= cp <= 0x200a
    || cp == 0x2028 || cp == 0x2029 || cp == 0x202f || cp == 0x205f || cp == 0x3000
  }

  /** The code point whose form is white space of the given width. */
  function SpaceAt(s: Key): (cp: nat)
    requires SpaceWidth(s) > 0
  {
    match SpaceWidth(s)
    case 1 => s[0]
    case 2 => (s[0] as int - 0xc0) * 0x40 + (s[1] as int - 0x80)
    case _ => (s[0] as int - 0xe0) * 0x1000 + (s[1] as int - 0x80) * 0x40 + (s[2] as int - 0x80)
  }

  lemma SpaceIsEncoded(s: Key)
    requires SpaceWidth(s) > 0
    ensures WhiteSpace(SpaceAt(s)) && Utf8.Encode(SpaceAt(s)) == s[..SpaceWidth(s)]
  {}

  lemma EncodedIsSpace(cp: nat, rest: Key)
    requires WhiteSpace(cp)
    ensures SpaceWidth(Utf8.Encode(cp) + rest) == |Utf8.Encode(cp)|
  {}

  /** White space is found exactly where the UTF-8 form of a white-space code point stands, and is as long as it. */
  lemma SpaceWidthExactly(s: Key, n: nat)
    requires n > 0
    ensures SpaceWidth(s) == n <==>
            exists cp :: WhiteSpace(cp) && |Utf8.Encode(cp)| == n <= |s| && s[..n] == Utf8.Encode(cp)
  {
    hide SpaceWidth, SpaceAt, Utf8.Encode;
    if SpaceWidth(s) == n {
      SpaceIsEncoded(s);
    }
    if cp :| WhiteSpace(cp) && |Utf8.Encode(cp)| == n <= |s| && s[..n] == Utf8.Encode(cp) {
      EncodedIsSpace(cp, s[n..]);
      assert s == s[..n] + s[n..];
    }
  }

  /** White space never starts inside a rune, so looking at every byte finds what looking at every rune finds. */
  lemma NoSpaceInsideRunes(s: Key)
    ensures s != [] && 0x80 <= s[0] < 0xc0 ==> SpaceWidth(s) == 0
  {}

  /** The length of the leading word. */
  function WordLength(s: Key): (n: nat)
    ensures n <= |s|
  {
    if s == [] || SpaceWidth(s) > 0 then 0 else 1 + WordLength(s[1..])
  }

  /** strings.Fields. */
  function FieldsOf(s: Key): seq<Key>
    decreases |s|
  {
    if s == [] then []
    else if SpaceWidth(s) > 0 then FieldsOf(s[SpaceWidth(s)..])
    else [s[..WordLength(s)]] + FieldsOf(s[WordLength(s)..])
  }

  /** A blank behind a text completes no multi-byte white space. */
  lemma BlankBehind(s: Key, rest: Key)
    requires s != []
    ensures SpaceWidth(s + [32] + rest) == SpaceWidth(s)
  {}

  lemma LeadingBlank(s: Key)
    ensures s != [] && s[0] == 32 ==> SpaceWidth(s) == 1 && WordLength(s) == 0 && FieldsOf(s) == FieldsOf(s[1..])
  {}

  /** A word and a blank in front of a text are its first field. */
  lemma FirstField(s: Key, n: nat)
    requires 0 < n == WordLength(s)
    ensures FieldsOf(s) == [s[..n]] + FieldsOf(s[n..])
  {}

  // The scan

  predicate Mounted(line: Key, target: Key) {
    var fields := FieldsOf(line);
    |fields| >= 2 && Unescape(fields[1]) == target
  }

  /**
   * The scan: `readable` says whether /proc/mounts could be opened, `lines` what the scanner delivered, and `intact`
   * that it ended without an error.
   */
  method MountpointFromProc(readable: bool, lines: seq<Key>, intact: bool, target: Key)
    returns (matched: bool, found: bool)
    ensures matched <==> readable && exists i :: 0 <= i < |lines| && Mounted(lines[i], target)
    ensures found <==> matched || (readable && intact)
  {
    if !readable {
      return false, false;
    }
    for i := 0 to |lines|
      invariant forall j :: 0 <= j < i ==> !Mounted(lines[j], target)
    {
      var fields := FieldsOf(lines[i]);
      if |fields| < 2 {
        continue;
      }
      var text := UnescapeMount(fields[1]);
      if text == target {
        assert Mounted(lines[i], target);
        return true, true;
      }
    }
    if !intact {
      return false, false;
    }
    return false, true;
  }

  // What a rendered line names

  /** White space at the front of a name that survives the escaping. */
  predicate RawSpace(t: Key, special: set<Octet>) {
    SpaceWidth(t) > 0 && forall i :: 0 <= i < SpaceWidth(t) ==> t[i] !in special
  }

  /** The length of a name up to its first white space that survives the escaping. */
  function Cut(t: Key, special: set<Octet>): (n: nat)
    ensures n <= |t|
  {
    if t == [] || RawSpace(t, special) then 0 else 1 + Cut(t[1..], special)
  }

  lemma EscapeHead(t: Key, special: set<Octet>)
    requires t != []
    ensures Escape(t, special) != []
    ensures t[0] in special ==> Escape(t, special) == Octal(t[0]) + Escape(t[1..], special)
    ensures t[0] !in special ==> Escape(t, special) == [t[0]] + Escape(t[1..], special)
    ensures Escape(t, special)[0] == if t[0] in special then BACKSLASH else t[0]
  {}

  /** An escaped name starts with white space exactly when the name does and none of it is escaped. */
  lemma SpaceSurvives(t: Key, special: set<Octet>)
    ensures SpaceWidth(Escape(t, special)) == if RawSpace(t, special) then SpaceWidth(t) else 0
  {
    if t != [] {
      var t1 := t[1..];
      var e := Escape(t, special);
      EscapeHead(t, special);
      if t1 != [] {
        EscapeHead(t1, special);
        if t1[1..] != [] {
          EscapeHead(t1[1..], special);
        }
      }
      hide Escape;
      if t[0] !in special && |t| > 1 {
        assert e[1] == if t[1] in special then BACKSLASH else t[1];
        if t[1] !in special && |t| > 2 {
          assert e[2] == if t[2] in special then BACKSLASH else t[2];
        }
      }
    }
  }

  predicate WordIsCut(t: Key, special: set<Octet>, rest: Key) {
    var (word, s) := (Escape(t[..Cut(t, special)], special), Escape(t, special) + [32] + rest);
    |word| <= |s| && WordLength(s) == |word| && s[..|word|] == word
  }

  /** The first word of an escaped name is the escaped name up to its cut. */
  lemma {:induction false} WordOfName(t: Key, special: set<Octet>, rest: Key)
    ensures WordIsCut(t, special, rest)
    decreases |t|
  {
    var e := Escape(t, special);
    if t == [] {
      LeadingBlank(e + [32] + rest);
    } else if RawSpace(t, special) {
      SpaceSurvives(t, special);
      hide SpaceWidth, Escape;
      BlankBehind(e, rest);
      NoWord(e + [32] + rest);
      NothingEscaped([], special);
    } else {
      hide WordIsCut;
      WordOfName(t[1..], special, rest);
      WordStep(t, special, rest);
    }
  }

  lemma WordStep(t: Key, special: set<Octet>, rest: Key)
    requires t != [] && !RawSpace(t, special) && WordIsCut(t[1..], special, rest)
    ensures WordIsCut(t, special, rest)
  {
    hide SpaceWidth, WordLength, Octal, RawSpace, Escape;
    var (n, t1) := (Cut(t, special), t[1..]);
    var (e1, word1) := (Escape(t1, special), Escape(t1[..n - 1], special));
    var front := if t[0] in special then Octal(t[0]) else [t[0]];
    SpaceSurvives(t, special);
    EscapeHead(t, special);
    EscapeHead(t[..n], special);
    assert t[..n][1..] == t1[..n - 1];
    BlankBehind(Escape(t, special), rest);
    LongerWord(t[0], t[0] in special, e1 + [32] + rest, |word1|);
    assert Escape(t, special) + [32] + rest == front + (e1 + [32] + rest);
  }

  /** One more byte of a name in front of a word: an octal escape, or the byte itself when it starts no white space. */
  lemma LongerWord(b: Octet, escaped: bool, s: Key, n: nat)
    requires WordLength(s) == n <= |s|
    ensures var front := if escaped then Octal(b) else [b];
            && (SpaceWidth(front + s) == 0 ==> WordLength(front + s) == |front| + n)
            && (front + s)[..|front| + n] == front + s[..n]
  {
    if escaped {
      OctalInWord(b, s);
    } else {
      ByteInWord(b, s);
    }
  }

  lemma NoWord(s: Key)
    requires SpaceWidth(s) > 0
    ensures WordLength(s) == 0
  {}

  lemma ByteInWord(b: Octet, s: Key)
    ensures SpaceWidth([b] + s) == 0 ==> WordLength([b] + s) == 1 + WordLength(s)
  {
    assert ([b] + s)[1..] == s;
  }

  lemma OctalInWord(b: Octet, s: Key)
    ensures |Octal(b)| == 4 && WordLength(Octal(b) + s) == 4 + WordLength(s)
  {
    var o := Octal(b);
    assert o + s == [o[0]] + ([o[1]] + ([o[2]] + ([o[3]] + s)));
    ByteInWord(o[0], [o[1]] + ([o[2]] + ([o[3]] + s)));
    ByteInWord(o[1], [o[2]] + ([o[3]] + s));
    ByteInWord(o[2], [o[3]] + s);
    ByteInWord(o[3], s);
  }

  // The fields of a rendered line

  /** The stretches of a name between the white space that survives the escaping. */
  function Pieces(t: Key, special: set<Octet>): seq<Key>
    decreases |t|
  {
    if t == [] then []
    else if RawSpace(t, special) then Pieces(t[SpaceWidth(t)..], special)
    else [t[..Cut(t, special)]] + Pieces(t[Cut(t, special)..], special)
  }

  function EscapeAll(ts: seq<Key>, special: set<Octet>): (es: seq<Key>)
    ensures |es| == |ts| && forall i :: 0 <= i < |ts| ==> es[i] == Escape(ts[i], special)
  {
    seq(|ts|, i requires 0 <= i < |ts| => Escape(ts[i], special))
  }

  function UnescapeAll(ts: seq<Key>): (us: seq<Key>)
    ensures |us| == |ts| && forall i :: 0 <= i < |ts| ==> us[i] == Unescape(ts[i])
  {
    seq(|ts|, i requires 0 <= i < |ts| => Unescape(ts[i]))
  }

  lemma {:induction false} EscapeSplits(t: Key, n: nat, special: set<Octet>)
    requires n <= |t|
    ensures Escape(t, special) == Escape(t[..n], special) + Escape(t[n..], special)
    decreases n
  {
    hide Escape, Octal;
    if n == 0 {
      assert t[..n] == [] && t[n..] == t;
      NothingEscaped([], special);
    } else {
      var t1 := t[1..];
      EscapeSplits(t1, n - 1, special);
      EscapeHead(t, special);
      EscapeHead(t[..n], special);
      assert t[..n][1..] == t1[..n - 1] && t1[n - 1..] == t[n..] && t[..n][0] == t[0];
      var front := if t[0] in special then Octal(t[0]) else [t[0]];
      assert front + (Escape(t1[..n - 1], special) + Escape(t[n..], special))
        == front + Escape(t1[..n - 1], special) + Escape(t[n..], special);
    }
  }

  lemma LeadingSpace(s: Key)
    requires SpaceWidth(s) > 0
    ensures FieldsOf(s) == FieldsOf(s[SpaceWidth(s)..])
  {}

  /** Splitting a rendered name gives its escaped pieces, and then the fields of what follows. */
  lemma {:induction false} FieldsOfName(t: Key, special: set<Octet>, rest: Key)
    ensures FieldsOf(Escape(t, special) + [32] + rest) == EscapeAll(Pieces(t, special), special) + FieldsOf(rest)
    decreases |t|
  {
    hide FieldsOf, WordLength, Unescape;
    var s := Escape(t, special) + [32] + rest;
    if t == [] {
      LeadingBlank(s);
      assert s[1..] == rest;
    } else if RawSpace(t, special) {
      FieldsOfName(t[SpaceWidth(t)..], special, rest);
      SpaceStep(t, special, rest);
    } else {
      FieldsOfName(t[Cut(t, special)..], special, rest);
      PieceStep(t, special, rest);
    }
  }

  lemma SpaceStep(t: Key, special: set<Octet>, rest: Key)
    requires RawSpace(t, special)
    ensures FieldsOf(Escape(t, special) + [32] + rest) == FieldsOf(Escape(t[SpaceWidth(t)..], special) + [32] + rest)
  {
    hide FieldsOf, Escape;
    var (e, w) := (Escape(t, special), SpaceWidth(t));
    SpaceSurvives(t, special);
    EscapeSplits(t, w, special);
    NothingEscaped(t[..w], special);
    hide SpaceWidth;
    BlankBehind(e, rest);
    LeadingSpace(e + [32] + rest);
    assert (e + [32] + rest)[w..] == Escape(t[w..], special) + [32] + rest;
  }

  lemma PieceStep(t: Key, special: set<Octet>, rest: Key)
    requires t != [] && !RawSpace(t, special)
    ensures var n := Cut(t, special);
            FieldsOf(Escape(t, special) + [32] + rest) ==
              [Escape(t[..n], special)] + FieldsOf(Escape(t[n..], special) + [32] + rest)
  {
    var n := Cut(t, special);
    hide FieldsOf, Escape, WordLength;
    var (s, word) := (Escape(t, special) + [32] + rest, Escape(t[..n], special));
    WordOfName(t, special, rest);
    EscapeHead(t[..n], special);
    FirstField(s, |word|);
    EscapeSplits(t, n, special);
    assert s[|word|..] == Escape(t[n..], special) + [32] + rest;
  }

  lemma UnescapeEscaped(ts: seq<Key>, special: set<Octet>)
    requires Unambiguous(special)
    ensures UnescapeAll(EscapeAll(ts, special)) == ts
  {
    var us := UnescapeAll(EscapeAll(ts, special));
    forall i | 0 <= i < |ts| ensures us[i] == ts[i] {
      UnescapeRestores(ts[i], special);
    }
  }

  /** A piece of a name is one piece. */
  lemma {:induction false} PiecesAreWhole(t: Key, special: set<Octet>)
    ensures forall i :: 0 <= i < |Pieces(t, special)| ==>
      Pieces(Pieces(t, special)[i], special) == [Pieces(t, special)[i]]
    decreases |t|
  {
    hide RawSpace, SpaceWidth;
    if t == [] {
    } else if RawSpace(t, special) {
      RawSpaceIsWide(t, special);
      PiecesAreWhole(t[SpaceWidth(t)..], special);
    } else {
      var n := Cut(t, special);
      PiecesAreWhole(t[n..], special);
      CutTwice(t, special);
      ShorterSpace(t, n, special);
      WholePiece(t[..n], special);
      hide Pieces, Cut;
    }
  }

  lemma RawSpaceIsWide(t: Key, special: set<Octet>)
    ensures RawSpace(t, special) ==> SpaceWidth(t) > 0
  {}

  lemma WholePiece(t: Key, special: set<Octet>)
    requires Cut(t, special) == |t| > 0
    ensures Pieces(t, special) == [t]
  {
    assert t[..|t|] == t && t[|t|..] == [];
  }

  /** A name is its own first piece exactly when it is its only piece. */
  lemma {:induction false} FirstPiece(t: Key, special: set<Octet>)
    ensures forall i :: 0 <= i < |Pieces(t, special)| ==> |Pieces(t, special)[i]| <= |t|
    ensures |Pieces(t, special)| > 0 ==> (Pieces(t, special)[0] == t <==> Pieces(t, special) == [t])
    decreases |t|
  {
    if t != [] {
      if RawSpace(t, special) {
        FirstPiece(t[SpaceWidth(t)..], special);
        hide SpaceWidth;
      } else {
        var n := Cut(t, special);
        FirstPiece(t[n..], special);
        hide SpaceWidth, RawSpace;
        if n == |t| {
          WholePiece(t, special);
        }
      }
    }
  }

  /** What is left of a name after the cut holds no raw white space. */
  lemma {:induction false} CutTwice(t: Key, special: set<Octet>)
    ensures var n := Cut(t, special); Cut(t[..n], special) == n
  {
    var n := Cut(t, special);
    if n > 0 {
      CutTwice(t[1..], special);
      assert t[..n][1..] == t[1..][..n - 1];
      ShorterSpace(t, n, special);
    }
  }

  lemma ShorterSpace(t: Key, n: nat, special: set<Octet>)
    requires 0 < n <= |t| && !RawSpace(t, special)
    ensures !RawSpace(t[..n], special)
  {
    var s := t[..n];
    assert s[0] == t[0] && (n > 1 ==> s[1] == t[1]) && (n > 2 ==> s[2] == t[2]);
    assert SpaceWidth(s) > 0 ==> SpaceWidth(t) == SpaceWidth(s);
  }

  // The table

  /** One line of the table: the escaped device, the escaped target, and the rest. */
  datatype Mount = Mount(device: Key, target: Key, rest: Key) {
    function Line(special: set<Octet>): Key {
      Escape(device, special) + [32] + Escape(target, special) + [32] + rest
    }

    /** What the scan sees of the line. */
    function Seen(special: set<Octet>): seq<Key> {
      Pieces(device, special) + Pieces(target, special) + UnescapeAll(FieldsOf(rest))
    }

    /** What it takes the target to be: the second thing it sees. */
    predicate Names(special: set<Octet>, target: Key) {
      |Seen(special)| >= 2 && Seen(special)[1] == target
    }

    /** The device is one word, and the target has one: the kernel's start with a slash. */
    predicate OneWordDevice(special: set<Octet>) {
      |Pieces(device, special)| == 1 && Pieces(target, special) != []
    }

    /** No white space of the target survives the escaping. */
    predicate Clean(special: set<Octet>) {
      Pieces(target, special) == [target]
    }
  }

  /** A rendered line names exactly the second piece of its device and its target. */
  lemma LineNames(m: Mount, special: set<Octet>, target: Key)
    requires Unambiguous(special)
    ensures Mounted(m.Line(special), target) <==> m.Names(special, target)
  {
    hide FieldsOf, Escape, Unescape, Pieces;
    var tail := Escape(m.target, special) + [32] + m.rest;
    FieldsOfName(m.device, special, tail);
    FieldsOfName(m.target, special, m.rest);
    assert m.Line(special) == Escape(m.device, special) + [32] + tail;
    var (ds, ts) := (Pieces(m.device, special), Pieces(m.target, special));
    UnescapeEscaped(ds, special);
    UnescapeEscaped(ts, special);
    var fields := FieldsOf(m.Line(special));
    assert fields == EscapeAll(ds, special) + EscapeAll(ts, special) + FieldsOf(m.rest);
    assert UnescapeAll(fields) == m.Seen(special);
  }

  /** A line with a one-word device names its own target exactly when none of its white space is left raw. */
  lemma LineNamesItselfExactly(m: Mount, special: set<Octet>)
    requires Unambiguous(special)
    ensures Mounted(m.Line(special), m.target) <==> m.Names(special, m.target)
    ensures m.OneWordDevice(special) ==> (Mounted(m.Line(special), m.target) <==> m.Clean(special))
    ensures |Pieces(m.device, special)| > 1 ==>
      (Mounted(m.Line(special), m.target) <==> Pieces(m.device, special)[1] == m.target)
  {
    LineNames(m, special, m.target);
    FirstPiece(m.target, special);
    hide Mounted, Pieces;
  }

  function LinesOf(mounts: seq<Mount>, special: set<Octet>): (lines: seq<Key>)
    ensures |lines| == |mounts| && forall i :: 0 <= i < |mounts| ==> lines[i] == mounts[i].Line(special)
  {
    seq(|mounts|, i requires 0 <= i < |mounts| => mounts[i].Line(special))
  }

  predicate SomeLineNames(mounts: seq<Mount>, special: set<Octet>, target: Key) {
    exists i :: 0 <= i < |mounts| && Mounted(LinesOf(mounts, special)[i], target)
  }

  predicate SomeMountHas(mounts: seq<Mount>, target: Key) {
    exists i :: 0 <= i < |mounts| && mounts[i].target == target
  }

  predicate SomeMountNames(mounts: seq<Mount>, special: set<Octet>, target: Key) {
    exists i :: 0 <= i < |mounts| && mounts[i].Names(special, target)
  }

  /** In a rendered table some line names the target exactly when it is the second piece of some mount. */
  lemma TableNames(mounts: seq<Mount>, special: set<Octet>, target: Key)
    requires Unambiguous(special)
    ensures SomeLineNames(mounts, special, target) <==> SomeMountNames(mounts, special, target)
  {
    forall i | 0 <= i < |mounts|
      ensures Mounted(LinesOf(mounts, special)[i], target) <==> mounts[i].Names(special, target)
    {
      LineNames(mounts[i], special, target);
    }
    hide Mounted, Mount.Names;
    if i :| 0 <= i < |mounts| && mounts[i].Names(special, target) {
      assert Mounted(LinesOf(mounts, special)[i], target);
    }
  }

  /** The scan is right about every target. */
  ghost predicate ScanIsRight(mounts: seq<Mount>, special: set<Octet>) {
    forall target :: SomeLineNames(mounts, special, target) <==> SomeMountHas(mounts, target)
  }

  /** It is exactly when the lines name targets of the table only, and every one of them. */
  lemma ScanIsRightExactly(mounts: seq<Mount>, special: set<Octet>)
    requires Unambiguous(special)
    ensures ScanIsRight(mounts, special) <==>
      && (forall i :: 0 <= i < |mounts| && |mounts[i].Seen(special)| >= 2 ==>
        SomeMountHas(mounts, mounts[i].Seen(special)[1]))
      && (forall i :: 0 <= i < |mounts| ==> SomeMountNames(mounts, special, mounts[i].target))
  {
    hide Mount.Seen, SomeLineNames;
    forall target ensures SomeLineNames(mounts, special, target) <==> SomeMountNames(mounts, special, target) {
      TableNames(mounts, special, target);
    }
    if ScanIsRight(mounts, special) {
      forall i | 0 <= i < |mounts| ensures SomeMountNames(mounts, special, mounts[i].target) {
        assert SomeMountHas(mounts, mounts[i].target);
      }
      forall i | 0 <= i < |mounts| && |mounts[i].Seen(special)| >= 2
        ensures SomeMountHas(mounts, mounts[i].Seen(special)[1])
      {
        assert mounts[i].Names(special, mounts[i].Seen(special)[1]);
      }
    }
  }

  /** With one-word devices it is exactly when no target holds white space that is left raw. */
  lemma ScanIsRightForWords(mounts: seq<Mount>, special: set<Octet>)
    requires Unambiguous(special) && forall i :: 0 <= i < |mounts| ==> mounts[i].OneWordDevice(special)
    ensures ScanIsRight(mounts, special) <==> forall i :: 0 <= i < |mounts| ==> mounts[i].Clean(special)
  {
    hide Pieces, Mount.Seen, Mount.Names, Mount.Clean, Mount.OneWordDevice, ScanIsRight;
    ScanIsRightExactly(mounts, special);
    forall i | 0 <= i < |mounts|
      ensures |mounts[i].Seen(special)| >= 2
      ensures mounts[i].Names(special, mounts[i].target) <==> mounts[i].Clean(special)
      ensures mounts[i].Clean(special) ==> mounts[i].Seen(special)[1] == mounts[i].target
    {
      WordsSeen(mounts[i], special);
    }
    forall i, j | 0 <= i < |mounts| && 0 <= j < |mounts| && mounts[j].Names(special, mounts[i].target)
      ensures mounts[i].Clean(special)
    {
      NamedIsClean(mounts[j], mounts[i], special);
    }
  }

  lemma WordsSeen(m: Mount, special: set<Octet>)
    requires m.OneWordDevice(special)
    ensures |m.Seen(special)| >= 2 && m.Seen(special)[1] == Pieces(m.target, special)[0]
    ensures m.Names(special, m.target) <==> m.Clean(special)
    ensures m.Clean(special) ==> m.Seen(special)[1] == m.target
  {
    hide Pieces;
    FirstPiece(m.target, special);
  }

  /** A target that some line with a one-word device names holds no raw white space. */
  lemma NamedIsClean(line: Mount, m: Mount, special: set<Octet>)
    requires line.OneWordDevice(special) && line.Names(special, m.target)
    ensures m.Clean(special)
  {
    hide Pieces;
    WordsSeen(line, special);
    PiecesAreWhole(line.target, special);
  }

  // Two misread lines

  /** Blank, tab, newline and backslash: the bytes /proc/mounts escapes. */
  const PROC_ESCAPES: set<Octet> := {32, 9, 10, BACKSLASH}

  /** White space that survives, between two words. */
  lemma ReturnBetween(front: Key, back: Key)
    requires Cut(front, PROC_ESCAPES) == |front| > 0 && Cut(back, PROC_ESCAPES) == |back| > 0
    requires Cut(front + [13] + back, PROC_ESCAPES) == |front|
    ensures Pieces(front + [13] + back, PROC_ESCAPES) == [front, back]
  {
    var t := front + [13] + back;
    assert t[..|front|] == front && t[|front|..] == [13] + back;
    assert ([13] + back)[1..] == back && SpaceWidth([13] + back) == 1;
    WholePiece(back, PROC_ESCAPES);
    assert Pieces([13] + back, PROC_ESCAPES) == [back];
  }

  /** A mount at slash, carriage return, b: its line names the root directory instead. */
  lemma RawReturnIsMisread()
    ensures var m := Mount([100], [47, 13, 98], [116]);
            && Unambiguous(PROC_ESCAPES) && m.OneWordDevice(PROC_ESCAPES)
            && !Mounted(m.Line(PROC_ESCAPES), m.target) && Mounted(m.Line(PROC_ESCAPES), [47])
  {
    var m := Mount([100], [47, 13, 98], [116]);
    ShortCuts();
    WholePiece([100], PROC_ESCAPES);
    ReturnBetween([47], [98]);
    assert [47] + [13] + [98] == m.target;
    LineNames(m, PROC_ESCAPES, [47]);
    LineNames(m, PROC_ESCAPES, m.target);
    hide Mounted, Pieces;
  }

  /** A device x, carriage return, /f makes /f look mounted instead of the target /g, which is clean. */
  lemma DeviceReturnIsMisread()
    ensures var m := Mount([120, 13, 47, 102], [47, 103], [116]);
            && m.Clean(PROC_ESCAPES)
            && !Mounted(m.Line(PROC_ESCAPES), m.target) && Mounted(m.Line(PROC_ESCAPES), [47, 102])
  {
    var m := Mount([120, 13, 47, 102], [47, 103], [116]);
    ShortCuts();
    WholePiece([47, 103], PROC_ESCAPES);
    ReturnBetween([120], [47, 102]);
    assert [120] + [13] + [47, 102] == m.device;
    LineNames(m, PROC_ESCAPES, [47, 102]);
    LineNames(m, PROC_ESCAPES, m.target);
    hide Mounted, Pieces;
  }

  lemma ShortCuts()
    ensures Cut([100], PROC_ESCAPES) == 1 && Cut([47], PROC_ESCAPES) == 1 && Cut([98], PROC_ESCAPES) == 1
    ensures Cut([120], PROC_ESCAPES) == 1 && Cut([47, 102], PROC_ESCAPES) == 2 && Cut([47, 103], PROC_ESCAPES) == 2
    ensures Cut([47] + [13] + [98], PROC_ESCAPES) == 1 && Cut([120] + [13] + [47, 102], PROC_ESCAPES) == 1
  {
    LastByte(100);
    LastByte(47);
    LastByte(98);
    LastByte(120);
    LastByte(102);
    LastByte(103);
    assert [47, 102][1..] == [102] && [47, 103][1..] == [103];
    assert ([47] + [13] + [98])[1..] == [13, 98] && SpaceWidth([13, 98]) == 1;
    assert ([120] + [13] + [47, 102])[1..] == [13, 47, 102] && SpaceWidth([13, 47, 102]) == 1;
  }

  lemma LastByte(b: Octet)
    requires b > 32
    ensures Cut([b], PROC_ESCAPES) == 1
  {
    assert [b][1..] == [];
  }
}
