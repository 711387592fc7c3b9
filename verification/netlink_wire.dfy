/** The kernel's side of a sock_diag dump, and what decoding its messages gives. */
module NetlinkWire {
  import opened Bits
  import opened Decimal
  import opened Netlink
  import opened Octets
  import opened Options

  // The kernel's own numbers for what the decoder tells apart
  const NLMSG_ERROR := 2
  const NLMSG_DONE := 3
  const INET_DIAG_INFO := 2

  /** Padding up to the next multiple of four, with whatever bytes it happens to hold. */
  predicate Pads(pad: Key, len: nat) {
    |pad| == Align4(len) - len
  }

  datatype WireAttr = WireAttr(kind: nat, body: Key, pad: Key) {
    predicate Valid() {
      kind < 0x10000 && 4 + |body| < 0x10000 && Pads(pad, 4 + |body|)
    }

    function Bytes(): Key {
      LeBytes(4 + |body|, 2) + LeBytes(kind, 2) + body + pad
    }
  }

  /** One inet_diag_msg with its attributes. */
  datatype Diag = Diag(
    family: Octet, state: Octet, timer: Key, srcPort: nat, dstPort: nat, src: Key, dst: Key, middle: Key,
    inode: nat, attrs: seq<WireAttr>)
  {
    predicate Valid() {
      && |timer| == 2 && srcPort < 0x10000 && dstPort < 0x10000 && |src| == 16 && |dst| == 16 && |middle| == 28
      && inode < 0x1_0000_0000 && forall i :: 0 <= i < |attrs| ==> attrs[i].Valid()
    }

    function Head(): Key
      requires Valid()
    {
      [family, state] + timer + BeBytes(srcPort) + BeBytes(dstPort) + src + dst + middle + LeBytes(inode, 4)
    }

    function Bytes(): Key
      requires Valid()
    {
      Head() + AttrBytes(attrs)
    }

    function Expected(): Socket
      requires Valid()
    {
      WithCounters(
        Socket(family, state, DecodeIP(src, family), srcPort, DecodeIP(dst, family), dstPort, inode, None, None),
        LastInfo(Plain(attrs)))
    }
  }

  function AttrBytes(attrs: seq<WireAttr>): Key {
    if attrs == [] then [] else attrs[0].Bytes() + AttrBytes(attrs[1..])
  }

  function Plain(attrs: seq<WireAttr>): (plain: seq<Attr>)
    ensures |plain| == |attrs|
  {
    if attrs == [] then [] else [Attr(attrs[0].kind, attrs[0].body)] + Plain(attrs[1..])
  }

  /** A netlink message: its type, the rest of its header, its payload and its padding. */
  datatype Msg = Msg(kind: nat, rest: Key, payload: Key, pad: Key) {
    predicate Valid() {
      kind < 0x10000 && |rest| == 10 && HEADER + |payload| < 0x1_0000_0000 && Pads(pad, HEADER + |payload|)
    }

    function Bytes(): Key {
      LeBytes(HEADER + |payload|, 4) + LeBytes(kind, 2) + rest + payload + pad
    }
  }

  predicate AllValid(msgs: seq<Msg>) {
    forall i :: 0 <= i < |msgs| ==> msgs[i].Valid()
  }

  function StreamOf(msgs: seq<Msg>): Key {
    if msgs == [] then [] else msgs[0].Bytes() + StreamOf(msgs[1..])
  }

  /** What a list of messages means: one call a socket message, up to the first DONE or ERROR. */
  function Meaning(msgs: seq<Msg>): Walk {
    if msgs == [] then Walk([], false, None)
    else if msgs[0].kind == NLMSG_DONE then Walk([], true, None)
    else if msgs[0].kind == NLMSG_ERROR then Walk([], true, ErrorOf(msgs[0].payload))
    else Joined(Message(msgs[0].payload), Meaning(msgs[1..]))
  }

  /** Going on with a second walk unless the first one ended the dump. */
  function Then(first: Walk, second: Walk): Walk {
    if first.done then first else Joined(first.calls, second)
  }

  // Attributes

  lemma AttrParts(a: WireAttr, tail: Key)
    requires a.Valid()
    ensures var b := a.Bytes() + tail;
            && |b| >= 4 && Le(b[..2]) == 4 + |a.body| <= |b| && Le(b[2..4]) == a.kind
            && b[4..4 + |a.body|] == a.body && Skip(b, Align4(4 + |a.body|)) == tail
  {
    hide Le, LeBytes;
    var b := a.Bytes() + tail;
    assert Pow(256, 2) == 0x10000;
    LeRoundTrip(4 + |a.body|, 2);
    LeRoundTrip(a.kind, 2);
    assert b[..2] == LeBytes(4 + |a.body|, 2);
    assert b[2..4] == LeBytes(a.kind, 2);
  }

  /** The attribute walk inverts the attribute encoder. */
  lemma {:induction false} AttrsRoundTrip(attrs: seq<WireAttr>)
    requires forall i :: 0 <= i < |attrs| ==> attrs[i].Valid()
    ensures Attrs(AttrBytes(attrs)) == Plain(attrs)
  {
    if attrs != [] {
      AttrParts(attrs[0], AttrBytes(attrs[1..]));
      AttrsRoundTrip(attrs[1..]);
    }
  }

  // Sockets

  lemma HeadParts(d: Diag)
    requires d.Valid()
    ensures var h := d.Head();
            && |h| == MESSAGE_LENGTH && h[0] == d.family && h[1] == d.state
            && h[4..6] == BeBytes(d.srcPort) && h[6..8] == BeBytes(d.dstPort)
            && h[8..24] == d.src && h[24..40] == d.dst && h[68..72] == LeBytes(d.inode, 4)
  {
    hide LeBytes, BeBytes;
  }

  /** Decoding an encoded socket message gives its fields and the counters of its last INFO attribute. */
  lemma DiagRoundTrip(d: Diag)
    requires d.Valid()
    ensures Message(d.Bytes()) == [d.Expected()]
  {
    hide Le, LeBytes, BeBytes, Attrs, Value, LastInfo;
    var (p, h) := (d.Bytes(), d.Head());
    HeadParts(d);
    PrefixParts(h, AttrBytes(d.attrs));
    assert Pow(256, 4) == 0x1_0000_0000;
    LeRoundTrip(d.inode, 4);
    BeRoundTrip(d.srcPort);
    BeRoundTrip(d.dstPort);
    AttrsRoundTrip(d.attrs);
    hide Pow, AttrBytes, Plain, DecodeIP;
  }

  /** An attribute with the byte counters: bytes_acked and bytes_received stand at 120 and 128 of a tcp_info. */
  predicate Reports(a: WireAttr, sent: nat, received: nat) {
    && a.kind == INET_DIAG_INFO && |a.body| >= 136
    && a.body[120..128] == LeBytes(sent, 8) && a.body[128..136] == LeBytes(received, 8)
  }

  predicate NoReport(a: WireAttr) {
    a.kind != INET_DIAG_INFO || |a.body| < 136
  }

  /** The last report of a message gives what was sent and received; without one neither is known. */
  lemma CountersArrive(d: Diag, i: nat, sent: nat, received: nat)
    requires d.Valid() && i <= |d.attrs| && forall j :: i < j < |d.attrs| ==> NoReport(d.attrs[j])
    requires i < |d.attrs| ==> Reports(d.attrs[i], sent, received)
    requires sent < 0x1_0000_0000_0000_0000 && received < 0x1_0000_0000_0000_0000
    ensures |Message(d.Bytes())| == 1
    ensures var s := Message(d.Bytes())[0];
            if i < |d.attrs| then s.tx == Some(sent) && s.rx == Some(received)
            else (forall j :: 0 <= j < |d.attrs| ==> NoReport(d.attrs[j])) ==> s.tx == None && s.rx == None
  {
    hide Le, LeBytes, Attrs, DecodeIP;
    DiagRoundTrip(d);
    var plain := Plain(d.attrs);
    PlainAt(d.attrs);
    LastInfoMeaning(plain);
    assert Pow(256, 4) == 0x1_0000_0000;
    assert Pow(256, 8) == 0x1_0000_0000_0000_0000;
    LeRoundTrip(sent, 8);
    LeRoundTrip(received, 8);
    hide Plain, Message, LastInfo, Pow;
    if i < |d.attrs| {
      assert Counts(plain[i]);
      assert forall j :: i < j < |plain| ==> !Counts(plain[j]);
    }
  }

  lemma {:induction false} PlainAt(attrs: seq<WireAttr>)
    ensures forall i :: 0 <= i < |attrs| ==> Plain(attrs)[i] == Attr(attrs[i].kind, attrs[i].body)
  {
    if attrs != [] {
      PlainAt(attrs[1..]);
    }
  }

  lemma PrefixParts(h: Key, tail: Key)
    requires |h| == MESSAGE_LENGTH
    ensures var p := h + tail;
            && p[0] == h[0] && p[1] == h[1] && p[4..6] == h[4..6] && p[6..8] == h[6..8] && p[8..24] == h[8..24]
            && p[24..40] == h[24..40] && p[68..72] == h[68..72] && p[MESSAGE_LENGTH..] == tail
  {}

  // Streams

  lemma MsgParts(m: Msg, tail: Key)
    requires m.Valid()
    ensures var (b, len) := (m.Bytes() + tail, HEADER + |m.payload|);
            && HEADER <= len <= |b| && Le(b[..4]) == len && Le(b[4..6]) == m.kind && b[HEADER..len] == m.payload
            && Skip(b, Align4(len)) == tail
  {
    hide Le, LeBytes;
    var (b, len) := (m.Bytes() + tail, HEADER + |m.payload|);
    assert Pow(256, 2) == 0x10000 && Pow(256, 4) == 0x1_0000_0000;
    LeRoundTrip(len, 4);
    LeRoundTrip(m.kind, 2);
    assert b[..4] == LeBytes(len, 4);
    assert b[4..6] == LeBytes(m.kind, 2);
  }

  /** A stream decodes message by message, whatever bytes follow it. */
  lemma {:induction false} StreamThenTail(msgs: seq<Msg>, tail: Key)
    requires AllValid(msgs)
    ensures Datagram(StreamOf(msgs) + tail) == Then(Meaning(msgs), Datagram(tail))
    decreases |msgs|
  {
    hide Message, ErrorOf, Le, Align4, Skip;
    if msgs == [] {
      assert StreamOf(msgs) + tail == tail;
    } else {
      var more := StreamOf(msgs[1..]) + tail;
      assert StreamOf(msgs) + tail == msgs[0].Bytes() + more;
      MsgParts(msgs[0], more);
      StreamThenTail(msgs[1..], tail);
      JoinedTwice(Message(msgs[0].payload), Meaning(msgs[1..]).calls, Datagram(tail));
    }
  }

  /** A cut-off or malformed last message is dropped without disturbing the ones before it. */
  lemma BadTailIsIgnored(msgs: seq<Msg>, tail: Key)
    requires AllValid(msgs)
    requires |tail| < HEADER || Le(tail[..4]) < HEADER || Le(tail[..4]) > |tail|
    ensures Datagram(StreamOf(msgs) + tail) == Meaning(msgs)
  {
    StreamThenTail(msgs, tail);
    NoMessage(tail);
    MeaningEnds(msgs);
    hide Datagram, Meaning, StreamOf;
    NothingAfter(Meaning(msgs));
  }

  /** Decoding an encoded stream calls fn once a socket message, in order. */
  lemma StreamRoundTrip(msgs: seq<Msg>)
    requires AllValid(msgs)
    ensures Datagram(StreamOf(msgs)) == Meaning(msgs)
  {
    hide Datagram, Meaning, StreamOf;
    BadTailIsIgnored(msgs, []);
    assert StreamOf(msgs) + [] == StreamOf(msgs);
  }

  lemma NoMessage(tail: Key)
    requires |tail| < HEADER || Le(tail[..4]) < HEADER || Le(tail[..4]) > |tail|
    ensures Datagram(tail) == Walk([], false, None)
  {
    hide Le, Message, ErrorOf, Skip;
  }

  lemma {:induction false} MeaningEnds(msgs: seq<Msg>)
    ensures Meaning(msgs).error.Some? ==> Meaning(msgs).done
  {
    hide Message, ErrorOf;
    if msgs != [] {
      MeaningEnds(msgs[1..]);
    }
  }

  lemma NothingAfter(w: Walk)
    requires w.error.Some? ==> w.done
    ensures Then(w, Walk([], false, None)) == w
  {
    assert w.calls + [] == w.calls;
  }

  predicate AllWellFormed(diags: seq<Diag>) {
    forall i :: 0 <= i < |diags| ==> diags[i].Valid()
  }

  predicate Carries(m: Msg, d: Diag)
    requires d.Valid()
  {
    m.kind != NLMSG_DONE && m.kind != NLMSG_ERROR && m.payload == d.Bytes()
  }

  function ExpectedAll(diags: seq<Diag>): seq<Socket>
    requires AllWellFormed(diags)
  {
    if diags == [] then [] else [diags[0].Expected()] + ExpectedAll(diags[1..])
  }

  /** fn is called once a message, in order, with the encoded fields. */
  lemma {:induction false} SocketsInOrder(msgs: seq<Msg>, diags: seq<Diag>)
    requires AllValid(msgs) && AllWellFormed(diags) && |msgs| == |diags|
    requires forall i :: 0 <= i < |msgs| ==> Carries(msgs[i], diags[i])
    ensures Datagram(StreamOf(msgs)) == Walk(ExpectedAll(diags), false, None)
    decreases |msgs|
  {
    hide Datagram, StreamOf, Message;
    StreamRoundTrip(msgs);
    if msgs != [] {
      DiagRoundTrip(diags[0]);
      StreamRoundTrip(msgs[1..]);
      SocketsInOrder(msgs[1..], diags[1..]);
    }
  }

  /** The kernel reports -errno; the text names errno, and zero is an acknowledgement. */
  lemma ErrorNamesErrno(errno: nat, rest: Key)
    requires errno < 0x8000_0000
    ensures var code := if errno == 0 then 0 else 0x1_0000_0000 - errno;
            ErrorOf(LeBytes(code, 4) + rest) ==
              if errno == 0 then None else Some("netlink error: errno " + Itoa(errno))
  {
    hide Le, LeBytes, Itoa;
    var code := if errno == 0 then 0 else 0x1_0000_0000 - errno;
    assert Pow(256, 4) == 0x1_0000_0000;
    LeRoundTrip(code, 4);
    assert (LeBytes(code, 4) + rest)[..4] == LeBytes(code, 4);
  }

  /** Any other code is negated in 32 bits, where the most negative one stays itself. */
  lemma ErrorOfOtherCode(code: nat, rest: Key)
    requires 0 < code <= 0x8000_0000
    ensures ErrorOf(LeBytes(code, 4) + rest) == Some("netlink error: errno " + Itoa(0 - code))
  {
    hide Le, LeBytes, Itoa;
    assert Pow(256, 4) == 0x1_0000_0000;
    LeRoundTrip(code, 4);
    assert (LeBytes(code, 4) + rest)[..4] == LeBytes(code, 4);
  }

  // Whole dumps

  /** All messages of a list of datagrams. */
  function AllOf(parts: seq<seq<Msg>>): seq<Msg> {
    if parts == [] then [] else parts[0] + AllOf(parts[1..])
  }

  function Receipts(parts: seq<seq<Msg>>): seq<Receipt> {
    if parts == [] then [] else [Bytes(StreamOf(parts[0]))] + Receipts(parts[1..])
  }

  lemma {:induction false} MeaningConcat(a: seq<Msg>, b: seq<Msg>)
    ensures Meaning(a + b) == Then(Meaning(a), Meaning(b))
    decreases |a|
  {
    hide Message, ErrorOf;
    if a == [] {
      assert a + b == b;
    } else {
      assert (a + b)[1..] == a[1..] + b;
      MeaningConcat(a[1..], b);
      JoinedTwice(Message(a[0].payload), Meaning(a[1..]).calls, Meaning(b));
    }
  }

  lemma StreamNotEmpty(msgs: seq<Msg>)
    requires msgs != []
    ensures StreamOf(msgs) != []
  {}

  /**
   * However the kernel cuts a dump into non-empty datagrams at message boundaries, the calls and the result
   * are the same.
   */
  lemma {:induction false} AnySplitGivesTheSameCalls(parts: seq<seq<Msg>>)
    requires forall i :: 0 <= i < |parts| ==> parts[i] != [] && AllValid(parts[i])
    ensures var (d, w) := (DumpOf(Receipts(parts)), Meaning(AllOf(parts)));
            d.calls == w.calls && d.ended == w.done && d.error == w.error
    decreases |parts|
  {
    hide Datagram, StreamOf;
    if parts != [] {
      StreamRoundTrip(parts[0]);
      StreamNotEmpty(parts[0]);
      MeaningConcat(parts[0], AllOf(parts[1..]));
      MeaningEnds(parts[0]);
      MeaningEnds(AllOf(parts[1..]));
      AnySplitGivesTheSameCalls(parts[1..]);
      assert Receipts(parts)[1..] == Receipts(parts[1..]);
      hide Meaning;
    }
  }

  /** Receipts go on where the ones before them left off, unless those ended the dump. */
  lemma {:induction false} DumpGoesOn(a: seq<Receipt>, b: seq<Receipt>)
    ensures var (d, e) := (DumpOf(a), DumpOf(b));
            DumpOf(a + b) == if d.ended then d else Dump(d.calls + e.calls, e.ended, e.error)
    decreases |a|
  {
    hide Datagram;
    if a == [] {
      assert a + b == b && [] + DumpOf(b).calls == DumpOf(b).calls;
    } else {
      assert (a + b)[1..] == a[1..] + b;
      DumpGoesOn(a[1..], b);
      if a[0].Bytes? {
        var calls := Datagram(a[0].data).calls;
        assert calls + (DumpOf(a[1..]).calls + DumpOf(b).calls) == calls + DumpOf(a[1..]).calls + DumpOf(b).calls;
      }
    }
  }

  /** An interrupted receive changes nothing. */
  lemma InterruptsAreSkipped(a: seq<Receipt>, b: seq<Receipt>)
    ensures DumpOf(a + [Interrupted] + b) == DumpOf(a + b)
  {
    assert a + [Interrupted] + b == a + ([Interrupted] + b);
    assert ([Interrupted] + b)[1..] == b;
    DumpGoesOn(a, [Interrupted] + b);
    DumpGoesOn(a, b);
    hide DumpOf;
  }

  /** A failed receive ends the dump with its error, and an empty one without; the calls so far stand. */
  lemma ReceiveEnds(a: seq<Receipt>, b: seq<Receipt>, error: string)
    requires !DumpOf(a).ended
    ensures DumpOf(a + [Broken(error)] + b) == Dump(DumpOf(a).calls, true, Some(error))
    ensures DumpOf(a + [Receipt.Bytes([])] + b) == Dump(DumpOf(a).calls, true, None)
  {
    assert a + [Broken(error)] + b == a + ([Broken(error)] + b);
    assert a + [Receipt.Bytes([])] + b == a + ([Receipt.Bytes([])] + b);
    DumpGoesOn(a, [Broken(error)] + b);
    DumpGoesOn(a, [Receipt.Bytes([])] + b);
    assert DumpOf(a).calls + [] == DumpOf(a).calls;
  }
}
