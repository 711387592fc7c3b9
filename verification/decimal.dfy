/** web/netmon/netlink.go `itoa`: decimal text of a 64-bit integer. */
module Decimal {
  import opened Bits
  import opened Options

  const MIN_INT: int := -0x8000_0000_0000_0000
  const MAX_INT: int := 0x7fff_ffff_ffff_ffff

  function Digit(d: nat): char
    requires d < 10
  {
    '0' + d as char
  }

  /** The digits of n without leading zeros; none for zero. */
  function Digits(n: nat): string {
    if n == 0 then "" else Digits(n / 10) + [Digit(n % 10)]
  }

  /** The text `itoa` returns. */
  function Itoa(n: int): string {
    if n == 0 then "0"
    else if n == MIN_INT then "-"
    else if n < 0 then "-" + Digits(-n)
    else Digits(n)
  }

  /** The number a text of decimal digits writes down. */
  function Number(s: string): Option<int> {
    if s == "" then Some(0)
    else
      var c := s[|s| - 1] as int - '0' as int;
      if !(0 <= c <= 9) then None
      else match Number(s[..|s| - 1]) case None => None case Some(front) => Some(10 * front + c)
  }

  /** Reading a decimal integer: an optional minus sign and at least one digit. */
  function ParseInt(s: string): Option<int> {
    if s == "" || s == "-" then None
    else if s[0] != '-' then Number(s)
    else match Number(s[1..]) case None => None case Some(m) => Some(-m)
  }

  lemma {:induction false} DigitsRead(n: nat)
    ensures Number(Digits(n)) == Some(n)
    ensures n > 0 ==> |Digits(n)| > 0 && '1' <= Digits(n)[0] <= '9'
  {
    if n > 0 {
      DigitsRead(n / 10);
      assert Digits(n)[..|Digits(n)| - 1] == Digits(n / 10);
    }
  }

  /** Every 64-bit integer reads back from its text, except the most negative one. */
  lemma ItoaReadsBackExactly(n: int)
    requires MIN_INT <= n <= MAX_INT
    ensures ParseInt(Itoa(n)) == Some(n) <==> n != MIN_INT
  {
    hide Digits;
    if n == 0 {
      assert "0"[..0] == "";
    } else if n < 0 && n != MIN_INT {
      hide Number;
      DigitsRead(-n);
      assert Itoa(n)[1..] == Digits(-n);
    } else if n > 0 {
      hide Number;
      DigitsRead(n);
    }
  }

  lemma NineteenDigits()
    ensures Pow(10, 19) == 10000000000000000000
  {
    assert Pow(10, 5) == 100000;
    assert Pow(10, 10) == 10000000000;
    assert Pow(10, 15) == 1000000000000000;
  }

  /** Two's-complement negation of a 64-bit integer. */
  function Negate(n: int): (m: int)
    requires MIN_INT <= n <= MAX_INT
    ensures MIN_INT <= m <= MAX_INT
  {
    if n == MIN_INT then MIN_INT else -n
  }

  lemma DigitsStep(n: nat, tail: string, room: nat)
    requires 0 < n < Pow(10, room)
    ensures room > 0 && n / 10 < Pow(10, room - 1)
    ensures Digits(n) + tail == Digits(n / 10) + ([Digit(n % 10)] + tail)
  {}

  /** One turn of the loop: the last digit goes in front of the text so far. */
  method PutDigit(buf: array<char>, i: nat, n: nat)
    requires 0 < i <= buf.Length
    modifies buf
    ensures buf[i - 1..] == [Digit(n % 10)] + old(buf[i..])
  {
    ghost var tail := buf[i..];
    buf[i - 1] := Digit(n % 10);
    assert buf[i - 1..] == [Digit(n % 10)] + tail;
  }

  /** The digits are written from the back of a 20-byte buffer, which is always long enough. */
  method FormatInt(number: int) returns (s: string)
    requires MIN_INT <= number <= MAX_INT
    ensures s == Itoa(number)
  {
    if number == 0 {
      return "0";
    }
    NineteenDigits();
    hide Digits, Pow, Digit;
    var n := number;
    var neg := n < 0;
    if neg {
      n := Negate(n);
    }
    ghost var magnitude := n;
    var buf := new char[20];
    var i := 20;
    assert buf[i..] == "";
    assert n > 0 ==> Digits(n) + "" == Digits(n);
    while n > 0
      invariant 1 <= i <= 20
      invariant n < Pow(10, i - 1)
      invariant magnitude > 0 ==> n >= 0 && Digits(magnitude) == Digits(n) + buf[i..]
      invariant magnitude <= 0 ==> n == magnitude && i == 20
    {
      DigitsStep(n, buf[i..], i - 1);
      PutDigit(buf, i, n);
      i := i - 1;
      n := n / 10;
    }
    NoDigits();
    if neg {
      i := i - 1;
      ghost var tail := buf[i + 1..];
      buf[i] := '-';
      assert buf[i..] == ['-'] + tail;
    }
    s := buf[i..];
  }

  lemma NoDigits()
    ensures Digits(0) == ""
  {}
}
