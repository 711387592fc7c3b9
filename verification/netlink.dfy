/** web/netmon/netlink.go: the nested length-prefixed decoder of a sock_diag dump. */
module Netlink {
  import opened Bits
  import opened Decimal
  import opened Octets
  import opened Options
  import RangeRows

  /** LittleEndian.Uint16, Uint32 and Uint64. */
  function Le(b: Key): nat {
    if b == [] then 0 else b[0] + 256 * Le(b[1..])
  }

  function LeBytes(v: nat, width: nat): (b: Key)
    ensures |b| == width
    decreases width
  {
    if width == 0 then [] else [v % 256] + LeBytes(v / 256, width - 1)
  }

  function BeBytes(v: nat): (b: Key)
    requires v < 0x10000
    ensures |b| == 2
  {
    [v / 256, v % 256]
  }

  lemma {:induction false} LeRoundTrip(v: nat, width: nat)
    requires v < Pow(256, width)
    ensures Le(LeBytes(v, width)) == v
    decreases width
  {
    if width > 0 {
      LeRoundTrip(v / 256, width - 1);
      assert LeBytes(v, width)[1..] == LeBytes(v / 256, width - 1);
    }
  }

  lemma BeRoundTrip(v: nat)
    requires v < 0x10000
    ensures Value(BeBytes(v)) == v
  {
    var low: Key := [v % 256];
    assert low[1..] == [] && Value(low) == v % 256;
    assert Pow(256, 1) == 256 && BeBytes(v)[1..] == low;
  }

  /** Rounding up to a multiple of four. */
  function Align4(n: nat): (r: nat)
    ensures n <= r < n + 4 && r % 4 == 0
  {
    (n + 3) / 4 * 4
  }

  /** What is left of a stream after skipping n bytes: nothing when the padding is cut off. */
  function Skip(b: Key, n: nat): Key {
    if n <= |b| then b[n..] else []
  }

  // Route attributes

  const INFO := 2
  const INFO_MIN := 136

  datatype Attr = Attr(kind: nat, body: Key)

  /** The attributes a list holds before its first malformed or cut-off one. */
  function Attrs(b: Key): seq<Attr>
    decreases |b|
  {
    if |b| < 4 then [] else
      var len := Le(b[..2]);
      if len < 4 || len > |b| then [] else [Attr(Le(b[2..4]), b[4..len])] + Attrs(Skip(b, Align4(len)))
  }

  predicate Counts(a: Attr) {
    a.kind == INFO && |a.body| >= INFO_MIN
  }

  function Sent(a: Attr): nat
    requires Counts(a)
  {
    Le(a.body[120..128])
  }

  function Received(a: Attr): nat
    requires Counts(a)
  {
    Le(a.body[128..136])
  }

  /** The last attribute that carries byte counters. */
  function LastInfo(attrs: seq<Attr>): (last: Option<Attr>)
    ensures last.Some? ==> Counts(last.value)
  {
    if attrs == [] then None
    else if Counts(attrs[|attrs| - 1]) then Some(attrs[|attrs| - 1])
    else LastInfo(attrs[..|attrs| - 1])
  }

  lemma {:induction false} LastInfoMeaning(attrs: seq<Attr>)
    ensures match LastInfo(attrs)
            case None => forall i :: 0 <= i < |attrs| ==> !Counts(attrs[i])
            case Some(a) =>
              && Counts(a)
              && exists i :: 0 <= i < |attrs| && attrs[i] == a && forall j :: i < j < |attrs| ==> !Counts(attrs[j])
    decreases |attrs|
  {
    if attrs != [] && !Counts(attrs[|attrs| - 1]) {
      var front := attrs[..|attrs| - 1];
      LastInfoMeaning(front);
      if LastInfo(front).Some? {
        var i :| 0 <= i < |front| && front[i] == LastInfo(front).value
          && forall j :: i < j < |front| ==> !Counts(front[j]);
        assert attrs[i] == front[i] && forall j :: i < j < |front| ==> attrs[j] == front[j];
      }
    }
  }

  // Sockets

  const AF_INET := 2
  const MESSAGE_LENGTH := 72

  datatype Socket = Socket(
    family: nat, state: nat, srcIP: Key, srcPort: nat, dstIP: Key, dstPort: nat,
    inode: nat, rx: Option<nat>, tx: Option<nat>)

  function DecodeIP(b: Key, family: nat): Key
    requires |b| == 16
  {
    if family == AF_INET then b[..4]
    else match RangeRows.To4(b) case Some(v4) => v4 case None => b
  }

  /** The two ways the kernel writes an IPv4 address: its own field, or IPv4-mapped. */
  function FieldOfV4(ip: Key, rest: Key): Key
    requires |ip| == 4 && |rest| == 12
  {
    ip + rest
  }

  /** An IPv4 peer is the same four bytes under either family; any other IPv6 field stays itself. */
  lemma DecodeIPMeaning(ip: Key, rest: Key, field: Key, family: nat)
    requires |ip| == 4 && |rest| == 12 && |field| == 16 && family != AF_INET
    ensures DecodeIP(FieldOfV4(ip, rest), AF_INET) == ip == DecodeIP(RangeRows.Mapped(ip), family)
    ensures DecodeIP(field, family) == field || field == RangeRows.Mapped(DecodeIP(field, family))
  {
    assert RangeRows.Mapped(ip)[12..] == ip;
    if DecodeIP(field, family) != field {
      var v4 := field[12..];
      assert field == RangeRows.Mapped(v4);
    }
  }

  function WithCounters(s: Socket, info: Option<Attr>): Socket
    requires info.Some? ==> Counts(info.value)
  {
    match info
    case None => s
    case Some(a) => s.(tx := Some(Sent(a)), rx := Some(Received(a)))
  }

  /** The fixed part of an inet_diag_msg. */
  function Fixed(p: Key): Socket
    requires |p| >= MESSAGE_LENGTH
  {
    Socket(p[0], p[1], DecodeIP(p[8..24], p[0]), Value(p[4..6]), DecodeIP(p[24..40], p[0]), Value(p[6..8]),
           Le(p[68..72]), None, None)
  }

  function Message(p: Key): seq<Socket> {
    if |p| < MESSAGE_LENGTH then [] else
      [WithCounters(Fixed(p), LastInfo(Attrs(p[MESSAGE_LENGTH..])))]
  }

  // Datagrams

  const HEADER := 16
  const ERROR := 2
  const DONE := 3
  const ERRNO_PREFIX: string := "netlink error: errno "

  /** The calls of fn in order, and what parseDatagram returns. */
  datatype Walk = Walk(calls: seq<Socket>, done: bool, error: Option<string>)

  /** A 32-bit pattern read as a signed number. */
  function Signed(n: nat): int
    requires n < 0x1_0000_0000
  {
    if n < 0x8000_0000 then n else n - 0x1_0000_0000
  }

  /** int32 negation. */
  function Negated(code: int): int {
    if code == -0x8000_0000 then code else -code
  }

  /** The signed code at the front of an ERROR payload. */
  function Code(p: Key): (code: int)
    requires |p| >= 4
    ensures -0x8000_0000 <= code < 0x8000_0000
  {
    LeBound(p[..4]);
    Signed(Le(p[..4]))
  }

  function ErrorOf(p: Key): Option<string> {
    if |p| < 4 || Code(p) == 0 then None else Some(ERRNO_PREFIX + Itoa(Negated(Code(p))))
  }

  /** Every error text ends in the negated code: the 32-bit codes never reach the one integer itoa gets wrong. */
  lemma ErrorTextReadsBack(p: Key)
    requires |p| >= 4
    ensures match ErrorOf(p)
            case None => Code(p) == 0
            case Some(text) =>
              && Code(p) != 0 && |text| >= |ERRNO_PREFIX| && text[..|ERRNO_PREFIX|] == ERRNO_PREFIX
              && ParseInt(text[|ERRNO_PREFIX|..]) == Some(Negated(Code(p)))
  {
    hide Code, Itoa, ParseInt;
    ItoaReadsBackExactly(Negated(Code(p)));
    var digits := Itoa(Negated(Code(p)));
    assert (ERRNO_PREFIX + digits)[|ERRNO_PREFIX|..] == digits;
    assert (ERRNO_PREFIX + digits)[..|ERRNO_PREFIX|] == ERRNO_PREFIX;
  }

  lemma {:induction false} LeBound(b: Key)
    ensures Le(b) < Pow(256, |b|)
    ensures |b| == 4 ==> Le(b) < 0x1_0000_0000
    decreases |b|
  {
    if b != [] {
      LeBound(b[1..]);
    }
    assert Pow(256, 4) == 0x1_0000_0000;
  }

  function Datagram(data: Key): Walk
    decreases |data|
  {
    if |data| < HEADER then Walk([], false, None) else
      var (len, kind) := (Le(data[..4]), Le(data[4..6]));
      if len < HEADER || len > |data| then Walk([], false, None)
      else if kind == DONE then Walk([], true, None)
      else if kind == ERROR then Walk([], true, ErrorOf(data[HEADER..len]))
      else Joined(Message(data[HEADER..len]), Datagram(Skip(data, Align4(len))))
  }

  function Joined(first: seq<Socket>, rest: Walk): Walk {
    rest.(calls := first + rest.calls)
  }

  lemma SkipTwice(b: Key, n: nat, m: nat)
    ensures Skip(Skip(b, n), m) == Skip(b, n + m)
  {}

  lemma SkipNone(b: Key)
    ensures Skip(b, 0) == b
  {}

  /** The attribute at an offset, or the reason the walk stops there. */
  lemma AttrsStep(b: Key, off: nat)
    requires off + 4 <= |b|
    ensures var len := Le(b[off..off + 2]);
            if len < 4 || off + len > |b| then Attrs(Skip(b, off)) == []
            else
              var attr := Attr(Le(b[off + 2..off + 4]), b[off + 4..off + len]);
              Attrs(Skip(b, off)) == [attr] + Attrs(Skip(b, off + Align4(len)))
  {
    hide Le;
    var left := b[off..];
    var len := Le(b[off..off + 2]);
    assert left[..2] == b[off..off + 2] && left[2..4] == b[off + 2..off + 4];
    if 4 <= len <= |left| {
      assert left[4..len] == b[off + 4..off + len];
      SkipTwice(b, off, Align4(len));
    }
  }

  lemma AttrsEnd(b: Key, off: nat)
    requires off + 4 > |b|
    ensures Attrs(Skip(b, off)) == []
  {}

  class DiagSocket {
    var family: nat
    var state: nat
    var srcIP: Key
    var srcPort: nat
    var dstIP: Key
    var dstPort: nat
    var inode: nat
    var rxOK: bool
    var rx: nat
    var txOK: bool
    var tx: nat

    function View(): Socket
      reads this
    {
      Socket(family, state, srcIP, srcPort, dstIP, dstPort, inode,
             if rxOK then Some(rx) else None, if txOK then Some(tx) else None)
    }

    constructor ()
      ensures View() == Socket(0, 0, [], 0, [], 0, 0, None, None)
    {
      family, state, srcIP, srcPort, dstIP, dstPort := 0, 0, [], 0, [], 0;
      inode, rxOK, rx, txOK, tx := 0, false, 0, false, 0;
    }

    /** The walk over the attributes; a later INFO overwrites an earlier one. */
    method ParseRtattrs(attrs: Key)
      modifies this
      ensures View() == WithCounters(old(View()), LastInfo(Attrs(attrs)))
    {
      hide Le, Attrs, Align4, Skip;
      ghost var found: seq<Attr> := [];
      var off := 0;
      SkipNone(attrs);
      while off + 4 <= |attrs|
        invariant off >= 0
        invariant Attrs(attrs) == found + Attrs(Skip(attrs, off))
        invariant View() == WithCounters(old(View()), LastInfo(found))
        decreases |attrs| - off
      {
        AttrsStep(attrs, off);
        var rtaLen := Le(attrs[off..off + 2]);
        var rtaType := Le(attrs[off + 2..off + 4]);
        if rtaLen < 4 || off + rtaLen > |attrs| {
          break;
        }
        var body := attrs[off + 4..off + rtaLen];
        if rtaType == INFO {
          if |body| >= INFO_MIN {
            tx, txOK := Le(body[120..128]), true;
            rx, rxOK := Le(body[128..136]), true;
          }
        }
        ghost var a := Attr(rtaType, body);
        assert (found + [a])[..|found|] == found;
        found := found + [a];
        off := off + Align4(rtaLen);
      }
      if off + 4 > |attrs| {
        AttrsEnd(attrs, off);
      }
      assert found + [] == found;
    }
  }

  method ParseDiagMsg(payload: Key) returns (s: DiagSocket?)
    ensures s == null <==> Message(payload) == []
    ensures s != null ==> fresh(s) && Message(payload) == [s.View()]
  {
    if |payload| < MESSAGE_LENGTH {
      return null;
    }
    var d := new DiagSocket();
    d.family := payload[0];
    d.state := payload[1];
    d.srcPort := Value(payload[4..6]);
    d.dstPort := Value(payload[6..8]);
    d.srcIP := DecodeIP(payload[8..24], d.family);
    d.dstIP := DecodeIP(payload[24..40], d.family);
    d.inode := Le(payload[68..72]);
    assert d.View() == Fixed(payload);
    d.ParseRtattrs(payload[MESSAGE_LENGTH..]);
    s := d;
  }

  /** The datagram walk: `calls` collects what fn is given. */
  method ParseDatagram(data: Key) returns (calls: seq<Socket>, done: bool, error: Option<string>)
    ensures Walk(calls, done, error) == Datagram(data)
  {
    hide Message, ErrorOf, Le, Datagram, Skip, Align4;
    calls := [];
    var off := 0;
    SkipNone(data);
    while off + HEADER <= |data|
      invariant off >= 0
      invariant Datagram(data) == Joined(calls, Datagram(Skip(data, off)))
      decreases |data| - off
    {
      DatagramStep(data, off);
      var msgLen := Le(data[off..off + 4]);
      var msgType := Le(data[off + 4..off + 6]);
      if msgLen < HEADER || off + msgLen > |data| {
        break;
      }
      var payload := data[off + HEADER..off + msgLen];
      if msgType == DONE {
        return calls, true, None;
      } else if msgType == ERROR {
        return calls, true, ErrorOf(payload);
      } else {
        var s := ParseDiagMsg(payload);
        JoinedTwice(calls, Message(payload), Datagram(Skip(data, off + Align4(msgLen))));
        if s != null {
          calls := calls + [s.View()];
        } else {
          assert calls + Message(payload) == calls;
        }
      }
      off := off + Align4(msgLen);
    }
    if off + HEADER > |data| {
      DatagramEnd(data, off);
    }
    return calls, false, None;
  }

  /** The message at an offset, or the reason the walk stops there. */
  lemma DatagramStep(data: Key, off: nat)
    requires off + HEADER <= |data|
    ensures var (len, kind, rest) := (Le(data[off..off + 4]), Le(data[off + 4..off + 6]), Datagram(Skip(data, off)));
            if len < HEADER || off + len > |data| then rest == Walk([], false, None)
            else
              var payload := data[off + HEADER..off + len];
              rest == if kind == DONE then Walk([], true, None)
                      else if kind == ERROR then Walk([], true, ErrorOf(payload))
                      else Joined(Message(payload), Datagram(Skip(data, off + Align4(len))))
  {
    hide Message, ErrorOf, Le;
    var left := data[off..];
    var len := Le(data[off..off + 4]);
    assert left[..4] == data[off..off + 4] && left[4..6] == data[off + 4..off + 6];
    if HEADER <= len <= |left| {
      assert left[HEADER..len] == data[off + HEADER..off + len];
      SkipTwice(data, off, Align4(len));
    }
  }

  lemma DatagramEnd(data: Key, off: nat)
    requires off + HEADER > |data|
    ensures Datagram(Skip(data, off)) == Walk([], false, None)
  {
    hide Message, ErrorOf, Le;
  }

  lemma JoinedTwice(a: seq<Socket>, b: seq<Socket>, rest: Walk)
    ensures Joined(a, Joined(b, rest)) == Joined(a + b, rest)
  {
    assert a + (b + rest.calls) == a + b + rest.calls;
  }

  // The receive loop

  datatype Receipt = Interrupted | Broken(error: string) | Bytes(data: Key)

  /** The calls of a dump, and how it stands: still waiting, ended, or ended by an error. */
  datatype Dump = Dump(calls: seq<Socket>, ended: bool, error: Option<string>)

  function DumpOf(receipts: seq<Receipt>): Dump {
    if receipts == [] then Dump([], false, None)
    else match receipts[0]
      case Interrupted => DumpOf(receipts[1..])
      case Broken(e) => Dump([], true, Some(e))
      case Bytes(data) =>
        if data == [] then Dump([], true, None) else
          var w := Datagram(data);
          if w.done || w.error.Some? then Dump(w.calls, true, w.error)
          else
            var rest := DumpOf(receipts[1..]);
            rest.(calls := w.calls + rest.calls)
  }

  method NetlinkDump(receipts: seq<Receipt>) returns (calls: seq<Socket>, ended: bool, error: Option<string>)
    ensures Dump(calls, ended, error) == DumpOf(receipts)
  {
    hide Datagram;
    calls := [];
    var k := 0;
    assert receipts[0..] == receipts;
    while k < |receipts|
      invariant 0 <= k <= |receipts|
      invariant DumpOf(receipts) == var rest := DumpOf(receipts[k..]); rest.(calls := calls + rest.calls)
    {
      assert receipts[k..][1..] == receipts[k + 1..];
      match receipts[k] {
        case Interrupted =>
        case Broken(e) =>
          return calls, true, Some(e);
        case Bytes(data) =>
          if |data| <= 0 {
            return calls, true, None;
          }
          var got, done, perr := ParseDatagram(data);
          ghost var rest := DumpOf(receipts[k + 1..]);
          assert calls + (got + rest.calls) == calls + got + rest.calls;
          calls := calls + got;
          if perr.Some? {
            return calls, true, perr;
          }
          if done {
            return calls, true, None;
          }
      }
      k := k + 1;
    }
    return calls, false, None;
  }
}
