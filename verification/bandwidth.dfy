/** web/netmon/netmon.go `build`: two socket snapshots become connection rows, process rows and tallies. */
module Bandwidth {
  import opened Lists
  import opened Options
  import opened StableSort
  import opened Tallies

  const MAX_ROWS: nat := 512

  datatype ConnKey = ConnKey(localIP: string, localPort: nat, peerIP: string, peerPort: nat)

  datatype ConnState = ConnState(
    pid: int, name: string, hasProc: bool, rx: Option<nat>, tx: Option<nat>, peerIP: string, peerPort: nat,
    local: string)

  type Snap = map<ConnKey, ConnState>

  datatype Listener = Listener(proto: string, ip: string, port: nat, pid: int, name: string, hasProc: bool)
  datatype ListenRow = ListenRow(proto: string, port: nat)

  datatype ProcessRow = ProcessRow(pid: int, name: string, rx: real, tx: real, conns: nat, listen: seq<ListenRow>)

  datatype Scope = Lan | Global

  datatype ConnRow = ConnRow(
    name: string, pid: int, local: string, peer: string, port: nat, rx: real, tx: real,
    scope: Scope, host: Option<string>, country: Option<string>, asn: nat, org: string, cat: string)

  datatype Snapshot = Snapshot(
    processes: seq<ProcessRow>, connections: seq<ConnRow>, countries: map<string, nat>, categories: map<string, nat>,
    privateCount: nat)

  /** What build asks of the rest of the program: any answers will do. */
  datatype World = World(
    classify: string -> Scope,
    resolve: string -> Option<string>,
    country: string -> string,
    asnLookup: string -> (nat, string),
    categorize: (nat, string) -> string)

  // What one socket contributes

  /** web/netmon/netmon.go `satSub`. */
  function SatSub(a: nat, b: nat): (d: nat)
    ensures a >= b ==> d + b == a
    ensures a < b ==> d == 0
  {
    if a < b then 0 else a - b
  }

  /** The rate of one counter, known only when both snapshots have it and time passed. */
  function Rate(before: Option<nat>, now: Option<nat>, dt: real): real {
    if before.Some? && now.Some? && dt > 0.0 then SatSub(now.value, before.value) as real / dt else 0.0
  }

  function RxBefore(prev: Snap, key: ConnKey): Option<nat> {
    if key in prev then prev[key].rx else None
  }

  function TxBefore(prev: Snap, key: ConnKey): Option<nat> {
    if key in prev then prev[key].tx else None
  }

  function CountryOf(w: World, peer: string): Option<string> {
    if w.classify(peer) == Global && w.country(peer) != "" then Some(w.country(peer)) else None
  }

  /** The owning network of a global peer, when the table knows one. */
  function NetworkOf(w: World, peer: string): Option<(nat, string)> {
    var (asn, org) := w.asnLookup(peer);
    if w.classify(peer) == Global && (org != "" || asn != 0) then Some((asn, org)) else None
  }

  function CategoryOf(w: World, peer: string): Option<string> {
    if w.classify(peer) != Global then None
    else match NetworkOf(w, peer)
      case None => Some("unknown")
      case Some(net) => Some(w.categorize(net.0, net.1))
  }

  /** What a row says about its peer. */
  datatype Peer = Peer(scope: Scope, host: Option<string>, country: Option<string>, asn: nat, org: string, cat: string)

  /** Only global peers are looked up; the network fields are empty when the table knows none. */
  function PeerOf(w: World, ip: string): Peer {
    var host := if w.classify(ip) == Global then w.resolve(ip) else None;
    match NetworkOf(w, ip)
    case None => Peer(w.classify(ip), host, CountryOf(w, ip), 0, "", "")
    case Some(net) => Peer(w.classify(ip), host, CountryOf(w, ip), net.0, net.1, w.categorize(net.0, net.1))
  }

  function RowOf(w: World, prev: Snap, dt: real, key: ConnKey, c: ConnState): ConnRow {
    var peer := PeerOf(w, c.peerIP);
    ConnRow(
      if c.hasProc then c.name else "?", if c.hasProc then c.pid else 0, c.local, c.peerIP, c.peerPort,
      Rate(RxBefore(prev, key), c.rx, dt), Rate(TxBefore(prev, key), c.tx, dt),
      peer.scope, peer.host, peer.country, peer.asn, peer.org, peer.cat)
  }

  /** A socket together with its connection row. */
  datatype Socket = Socket(key: ConnKey, state: ConnState, row: ConnRow)

  function SocketOf(w: World, prev: Snap, dt: real, key: ConnKey, c: ConnState): Socket {
    Socket(key, c, RowOf(w, prev, dt, key, c))
  }

  // Keys by which sockets and listeners are tallied

  function ByCountry(): Socket -> Option<string> {
    (s: Socket) => s.row.country
  }

  function ByCategory(w: World): Socket -> Option<string> {
    (s: Socket) => CategoryOf(w, s.state.peerIP)
  }

  function ByLan(): Socket -> Option<()> {
    (s: Socket) => if s.row.scope == Lan then Some(()) else None
  }

  function ByPid(): Socket -> Option<int> {
    (s: Socket) => if s.state.hasProc then Some(s.state.pid) else None
  }

  function ListenPid(): Listener -> Option<int> {
    (l: Listener) => if l.hasProc then Some(l.pid) else None
  }

  function RxRate(): Socket -> real {
    (s: Socket) => s.row.rx
  }

  function TxRate(): Socket -> real {
    (s: Socket) => s.row.tx
  }

  // The row of a process, as the sum of what belongs to it

  predicate Unnamed(name: string) {
    name == "?" || name == ""
  }

  /** A known name replaces an unknown one. */
  function Better(known: Option<string>, name: string): string {
    if known.None? || (Unnamed(known.value) && !Unnamed(name)) then name else known.value
  }

  function SocketName(socks: seq<Socket>, pid: int): Option<string> {
    if socks == [] then None else
      var (front, last) := (SocketName(socks[..|socks| - 1], pid), socks[|socks| - 1]);
      if ByPid()(last) == Some(pid) then Some(Better(front, last.state.name)) else front
  }

  function NameOf(socks: seq<Socket>, lis: seq<Listener>, pid: int): Option<string> {
    if lis == [] then SocketName(socks, pid) else
      var (front, last) := (NameOf(socks, lis[..|lis| - 1], pid), lis[|lis| - 1]);
      if ListenPid()(last) == Some(pid) then Some(Better(front, last.name)) else front
  }

  function WithoutRepeat(rows: seq<ListenRow>, row: ListenRow): seq<ListenRow> {
    if row in rows then rows else rows + [row]
  }

  function ListenOf(lis: seq<Listener>, pid: int): seq<ListenRow> {
    if lis == [] then [] else
      var (front, last) := (ListenOf(lis[..|lis| - 1], pid), lis[|lis| - 1]);
      if ListenPid()(last) == Some(pid) then WithoutRepeat(front, ListenRow(last.proto, last.port)) else front
  }

  /** The process row of a pid, if anything belongs to the pid. */
  function ProcessOf(socks: seq<Socket>, lis: seq<Listener>, pid: int): Option<ProcessRow> {
    match NameOf(socks, lis, pid)
    case None => None
    case Some(name) =>
      Some(ProcessRow(
        pid, name, Weigh(socks, ByPid(), RxRate(), pid), Weigh(socks, ByPid(), TxRate(), pid),
        Count(socks, ByPid(), pid), ListenOf(lis, pid)))
  }

  // The accumulators of the loops

  /** A tally map holds exactly the keys that occur, with how often they do. */
  ghost predicate Tallied<K(!new)>(m: map<K, nat>, xs: seq<Socket>, key: Socket -> Option<K>) {
    forall k :: (k in m <==> Count(xs, key, k) > 0) && (k in m ==> m[k] == Count(xs, key, k))
  }

  /** The aggregates hold exactly the processes something belongs to. */
  ghost predicate Aggregated(perpid: map<int, ProcessRow>, socks: seq<Socket>, lis: seq<Listener>) {
    forall pid ::
      && (pid in perpid <==> ProcessOf(socks, lis, pid).Some?)
      && (pid in perpid ==> ProcessOf(socks, lis, pid) == Some(perpid[pid]))
  }

  function Bump<K>(m: map<K, nat>, k: K): map<K, nat> {
    m[k := (if k in m then m[k] else 0) + 1]
  }

  function BumpBy<K>(m: map<K, nat>, k: Option<K>): map<K, nat> {
    match k case None => m case Some(v) => Bump(m, v)
  }

  lemma TallyPush<K(!new)>(m: map<K, nat>, xs: seq<Socket>, x: Socket, key: Socket -> Option<K>)
    requires Tallied(m, xs, key)
    ensures Tallied(BumpBy(m, key(x)), xs + [x], key)
  {
    hide Count;
    var m' := BumpBy(m, key(x));
    forall k ensures (k in m' <==> Count(xs + [x], key, k) > 0) && (k in m' ==> m'[k] == Count(xs + [x], key, k)) {
      CountPush(xs, x, key, k);
    }
  }

  /** aggFor: fetch or create the aggregate of a pid, and improve its name. */
  function AggFor(perpid: map<int, ProcessRow>, pid: int, name: string): ProcessRow {
    if pid !in perpid then ProcessRow(pid, name, 0.0, 0.0, 0, [])
    else perpid[pid].(name := Better(Some(perpid[pid].name), name))
  }

  lemma NothingYet(socks: seq<Socket>, lis: seq<Listener>, pid: int)
    requires NameOf(socks, lis, pid).None?
    ensures Count(socks, ByPid(), pid) == 0 && Weigh(socks, ByPid(), RxRate(), pid) == 0.0
    ensures Weigh(socks, ByPid(), TxRate(), pid) == 0.0 && ListenOf(lis, pid) == []
    decreases |socks| + |lis|
  {
    if lis != [] {
      NothingYet(socks, lis[..|lis| - 1], pid);
    } else if socks != [] {
      NothingYet(socks[..|socks| - 1], lis, pid);
    }
  }

  /** One attributed socket changes one aggregate. */
  lemma ProcessPushSocket(socks: seq<Socket>, s: Socket, pid: int)
    ensures ProcessOf(socks + [s], [], pid) ==
      if ByPid()(s) != Some(pid) then ProcessOf(socks, [], pid)
      else match ProcessOf(socks, [], pid)
        case None => Some(ProcessRow(pid, s.state.name, s.row.rx, s.row.tx, 1, []))
        case Some(p) =>
          var name := Better(Some(p.name), s.state.name);
          Some(p.(name := name, rx := p.rx + s.row.rx, tx := p.tx + s.row.tx, conns := p.conns + 1))
  {
    assert (socks + [s])[..|socks|] == socks;
    CountPush(socks, s, ByPid(), pid);
    WeighPush(socks, s, ByPid(), RxRate(), pid);
    WeighPush(socks, s, ByPid(), TxRate(), pid);
    if NameOf(socks, [], pid).None? {
      NothingYet(socks, [], pid);
    }
    hide Count, Weigh, ListenOf;
  }

  /** So does one attributed listener. */
  lemma ProcessPushListener(socks: seq<Socket>, lis: seq<Listener>, l: Listener, pid: int)
    ensures ProcessOf(socks, lis + [l], pid) ==
      if ListenPid()(l) != Some(pid) then ProcessOf(socks, lis, pid)
      else match ProcessOf(socks, lis, pid)
        case None => Some(ProcessRow(pid, l.name, 0.0, 0.0, 0, [ListenRow(l.proto, l.port)]))
        case Some(p) =>
          var listen := WithoutRepeat(p.listen, ListenRow(l.proto, l.port));
          Some(p.(name := Better(Some(p.name), l.name), listen := listen))
  {
    assert (lis + [l])[..|lis|] == lis;
    var row := ListenRow(l.proto, l.port);
    assert [] + [row] == [row];
    if NameOf(socks, lis, pid).None? {
      NothingYet(socks, lis, pid);
    }
    hide Count, Weigh, SocketName;
  }

  // The code

  /** An order in which a loop may meet the keys of a map. */
  ghost predicate Enumerates<K(!new), V>(order: seq<K>, m: map<K, V>) {
    NoRepeats(order) && forall k :: k in order <==> k in m
  }

  /** Ranging over a map: every key once, in any order. */
  method KeyOrder<K(!new, ==), V>(m: map<K, V>) returns (order: seq<K>)
    ensures Enumerates(order, m)
  {
    order := [];
    var todo := m.Keys;
    while todo != {}
      invariant todo <= m.Keys && NoRepeats(order)
      invariant forall k :: k in order <==> k in m.Keys - todo
      decreases |todo|
    {
      var key :| key in todo;
      assert forall i :: 0 <= i < |order| ==> order[i] in order;
      todo := todo - {key};
      order := order + [key];
    }
  }

  /** The sockets of a snapshot, in the order of a loop over it. */
  function SocketsOf(w: World, prev: Snap, cur: Snap, dt: real, order: seq<ConnKey>): (socks: seq<Socket>)
    requires forall k :: k in order ==> k in cur
    ensures |socks| == |order|
    ensures forall i :: 0 <= i < |order| ==> socks[i] == SocketOf(w, prev, dt, order[i], cur[order[i]])
  {
    seq(|order|, i requires 0 <= i < |order| => SocketOf(w, prev, dt, order[i], cur[order[i]]))
  }

  function RowsOf(socks: seq<Socket>): (rows: seq<ConnRow>)
    ensures |rows| == |socks|
    ensures forall i :: 0 <= i < |socks| ==> rows[i] == socks[i].row
  {
    seq(|socks|, i requires 0 <= i < |socks| => socks[i].row)
  }

  /** The accumulators of the socket loop. */
  datatype Totals = Totals(
    conns: seq<ConnRow>, perpid: map<int, ProcessRow>, countries: map<string, nat>, categories: map<string, nat>,
    private: nat)

  /** What they hold after some sockets. */
  ghost predicate Accounted(w: World, socks: seq<Socket>, t: Totals) {
    && t.conns == RowsOf(socks) && Aggregated(t.perpid, socks, [])
    && Tallied(t.countries, socks, ByCountry()) && Tallied(t.categories, socks, ByCategory(w))
    && t.private == CountAll(socks, ByLan())
  }

  function AddToProcess(perpid: map<int, ProcessRow>, s: Socket): map<int, ProcessRow> {
    if !s.state.hasProc then perpid else
      var a := AggFor(perpid, s.state.pid, s.state.name);
      perpid[s.state.pid := a.(rx := a.rx + s.row.rx, tx := a.tx + s.row.tx, conns := a.conns + 1)]
  }

  function Add(w: World, t: Totals, s: Socket): Totals {
    Totals(
      t.conns + [s.row], AddToProcess(t.perpid, s), BumpBy(t.countries, s.row.country),
      BumpBy(t.categories, CategoryOf(w, s.state.peerIP)), if s.row.scope == Lan then t.private + 1 else t.private)
  }

  lemma AddKeepsAccounts(w: World, socks: seq<Socket>, t: Totals, s: Socket)
    requires Accounted(w, socks, t)
    ensures Accounted(w, socks + [s], Add(w, t, s))
  {
    hide Tallied, Aggregated, AddToProcess, BumpBy;
    TallyPush(t.countries, socks, s, ByCountry());
    TallyPush(t.categories, socks, s, ByCategory(w));
    AggregatedSocket(t.perpid, socks, s);
    assert (socks + [s])[..|socks|] == socks;
  }

  /** The two rates of a socket. */
  method Rates(prev: Snap, dt: real, key: ConnKey, c: ConnState) returns (rx: real, tx: real)
    ensures rx == Rate(RxBefore(prev, key), c.rx, dt) && tx == Rate(TxBefore(prev, key), c.tx, dt)
  {
    rx, tx := 0.0, 0.0;
    if key in prev && dt > 0.0 {
      var p := prev[key];
      if c.rx.Some? && p.rx.Some? {
        rx := SatSub(c.rx.value, p.rx.value) as real / dt;
      }
      if c.tx.Some? && p.tx.Some? {
        tx := SatSub(c.tx.value, p.tx.value) as real / dt;
      }
    }
  }

  /**
   * The part of the pass that classifies the peer; only global peers are looked up, and only they have a
   * category key.
   */
  method Enrich(w: World, ip: string) returns (peer: Peer, catKey: Option<string>)
    ensures peer == PeerOf(w, ip) && catKey == CategoryOf(w, ip)
  {
    var scope := w.classify(ip);
    var host: Option<string>, cc: Option<string> := None, None;
    var asn, org, cat := 0, "", "";
    catKey := None;
    if scope == Global {
      host := w.resolve(ip);
      var code := w.country(ip);
      if code != "" {
        cc := Some(code);
      }
      var key := "unknown";
      var (foundAsn, foundOrg) := w.asnLookup(ip);
      if foundOrg != "" || foundAsn != 0 {
        asn, org := foundAsn, foundOrg;
        cat := w.categorize(asn, org);
        key := cat;
      }
      catKey := Some(key);
    }
    peer := Peer(scope, host, cc, asn, org, cat);
  }

  /** The pass over one socket: its row, its tallies, its process. */
  method AccountSocket(w: World, prev: Snap, dt: real, key: ConnKey, c: ConnState, t: Totals) returns (t': Totals)
    ensures t' == Add(w, t, SocketOf(w, prev, dt, key, c))
  {
    hide Rate, RxBefore, TxBefore, CategoryOf, PeerOf, Bump, AggFor;
    var rx, tx := Rates(prev, dt, key, c);
    var pid, name := 0, "?";
    if c.hasProc {
      pid, name := c.pid, c.name;
    }
    var peer, catKey := Enrich(w, c.peerIP);
    var conns, perpid, countries, categories, private := t.conns, t.perpid, t.countries, t.categories, t.private;
    if peer.country.Some? {
      countries := Bump(countries, peer.country.value);
    }
    if catKey.Some? {
      categories := Bump(categories, catKey.value);
    }
    if peer.scope == Lan {
      private := private + 1;
    }
    conns := conns + [ConnRow(
      name, pid, c.local, c.peerIP, c.peerPort, rx, tx, peer.scope, peer.host, peer.country, peer.asn, peer.org,
        peer.cat)];
    if c.hasProc {
      var a := AggFor(perpid, pid, name);
      perpid := perpid[pid := a.(rx := a.rx + rx, tx := a.tx + tx, conns := a.conns + 1)];
    }
    t' := Totals(conns, perpid, countries, categories, private);
  }

  lemma AggregatedSocket(perpid: map<int, ProcessRow>, socks: seq<Socket>, s: Socket)
    requires Aggregated(perpid, socks, [])
    ensures Aggregated(AddToProcess(perpid, s), socks + [s], [])
  {
    hide ProcessOf;
    var perpid' := AddToProcess(perpid, s);
    forall pid ensures
      (pid in perpid' <==> ProcessOf(socks + [s], [], pid).Some?) &&
      (pid in perpid' ==> ProcessOf(socks + [s], [], pid) == Some(perpid'[pid]))
    {
      ProcessPushSocket(socks, s, pid);
      ProcessIsNamed(socks, [], pid);
    }
  }

  lemma ProcessIsNamed(socks: seq<Socket>, lis: seq<Listener>, pid: int)
    ensures ProcessOf(socks, lis, pid).Some? ==> ProcessOf(socks, lis, pid).value.pid == pid
  {}

  lemma AggregatedListener(
      perpid: map<int, ProcessRow>, perpid': map<int, ProcessRow>, socks: seq<Socket>, lis: seq<Listener>, l: Listener)
    requires Aggregated(perpid, socks, lis)
    requires perpid' == if !l.hasProc then perpid else
               var a := AggFor(perpid, l.pid, l.name);
               perpid[l.pid := a.(listen := WithoutRepeat(a.listen, ListenRow(l.proto, l.port)))]
    ensures Aggregated(perpid', socks, lis + [l])
  {
    hide ProcessOf;
    var row := ListenRow(l.proto, l.port);
    assert WithoutRepeat([], row) == [row];
    forall pid ensures
      (pid in perpid' <==> ProcessOf(socks, lis + [l], pid).Some?) &&
      (pid in perpid' ==> ProcessOf(socks, lis + [l], pid) == Some(perpid'[pid]))
    {
      ProcessPushListener(socks, lis, l, pid);
      ProcessIsNamed(socks, lis, pid);
    }
  }

  /** The loop over the sockets, in whatever order the map yields them. */
  method AccountSockets(w: World, prev: Snap, cur: Snap, dt: real) returns (t: Totals, order: seq<ConnKey>)
    ensures Enumerates(order, cur)
    ensures Accounted(w, SocketsOf(w, prev, cur, dt, order), t)
  {
    hide Accounted, SocketOf, Add, NoRepeats;
    var keys := KeyOrder(cur);
    order := keys;
    t := Totals([], map[], map[], map[], 0);
    NothingAccounted(w);
    assert SocketsOf(w, prev, cur, dt, order[..0]) == [];
    for i := 0 to |keys|
      invariant Accounted(w, SocketsOf(w, prev, cur, dt, order[..i]), t)
    {
      ghost var s := SocketOf(w, prev, dt, keys[i], cur[keys[i]]);
      AddKeepsAccounts(w, SocketsOf(w, prev, cur, dt, order[..i]), t, s);
      NextSocket(w, prev, cur, dt, order, i);
      t := AccountSocket(w, prev, dt, keys[i], cur[keys[i]], t);
    }
    assert order[..|order|] == order;
  }

  lemma NothingAccounted(w: World)
    ensures Accounted(w, [], Totals([], map[], map[], map[], 0))
  {
    assert RowsOf([]) == [];
  }

  lemma NextSocket(w: World, prev: Snap, cur: Snap, dt: real, order: seq<ConnKey>, i: nat)
    requires i < |order| && forall k :: k in order ==> k in cur
    ensures SocketsOf(w, prev, cur, dt, order[..i + 1])
         == SocketsOf(w, prev, cur, dt, order[..i]) + [SocketOf(w, prev, dt, order[i], cur[order[i]])]
  {
    hide SocketOf;
  }

  /** The loop over the listeners. */
  method AccountListeners(perpid0: map<int, ProcessRow>, listeners: seq<Listener>, ghost socks: seq<Socket>)
    returns (perpid: map<int, ProcessRow>)
    requires Aggregated(perpid0, socks, [])
    ensures Aggregated(perpid, socks, listeners)
  {
    hide Aggregated;
    perpid := perpid0;
    assert listeners[..0] == [];
    for i := 0 to |listeners|
      invariant Aggregated(perpid, socks, listeners[..i])
    {
      var l := listeners[i];
      ghost var before := perpid;
      if l.hasProc {
        var a := AggFor(perpid, l.pid, l.name);
        var lr := ListenRow(l.proto, l.port);
        if lr !in a.listen {
          a := a.(listen := a.listen + [lr]);
        }
        perpid := perpid[l.pid := a];
      }
      assert listeners[..i + 1] == listeners[..i] + [l];
      AggregatedListener(before, perpid, socks, listeners[..i], l);
    }
    assert listeners[..|listeners|] == listeners;
  }

  /** The process rows, one a pid, in whatever order the map yields them. */
  ghost predicate OneRowEach(procs: seq<ProcessRow>, socks: seq<Socket>, lis: seq<Listener>) {
    && NoRepeats(PidsOf(procs))
    && (forall pid :: pid in PidsOf(procs) <==> ProcessOf(socks, lis, pid).Some?)
    && forall i :: 0 <= i < |procs| ==> ProcessOf(socks, lis, procs[i].pid) == Some(procs[i])
  }

  function PidsOf(procs: seq<ProcessRow>): (pids: seq<int>)
    ensures |pids| == |procs|
    ensures forall i :: 0 <= i < |procs| ==> pids[i] == procs[i].pid
  {
    seq(|procs|, i requires 0 <= i < |procs| => procs[i].pid)
  }

  method ListProcesses(perpid: map<int, ProcessRow>, ghost socks: seq<Socket>, ghost lis: seq<Listener>)
    returns (procs: seq<ProcessRow>)
    requires Aggregated(perpid, socks, lis)
    ensures OneRowEach(procs, socks, lis)
  {
    var order := KeyOrder(perpid);
    procs := [];
    for i := 0 to |order|
      invariant |procs| == i && forall j :: 0 <= j < i ==> procs[j] == perpid[order[j]]
    {
      procs := procs + [perpid[order[i]]];
    }
    hide ProcessOf;
    forall i | 0 <= i < |procs| ensures procs[i].pid == order[i] {
      ProcessIsNamed(socks, lis, order[i]);
    }
    assert PidsOf(procs) == order;
  }

  function ProcessBandwidth(): ProcessRow -> real {
    (p: ProcessRow) => -(p.rx + p.tx)
  }

  function ConnBandwidth(): ConnRow -> real {
    (c: ConnRow) => -(c.rx + c.tx)
  }

  function Cap<T>(rows: seq<T>): seq<T> {
    if |rows| > MAX_ROWS then rows[..MAX_ROWS] else rows
  }

  /** What a snapshot says about two consecutive observations. */
  ghost predicate Describes(
    w: World, prev: Snap, cur: Snap, dt: real, listeners: seq<Listener>, order: seq<ConnKey>,
    procs: seq<ProcessRow>, st: Snapshot)
  {
    && Enumerates(order, cur)
    && var socks := SocketsOf(w, prev, cur, dt, order);
    && OneRowEach(procs, socks, listeners)
    && st.connections == Cap(Sort(RowsOf(socks), ConnBandwidth()))
    && st.processes == Cap(Sort(procs, ProcessBandwidth()))
    && Tallied(st.countries, socks, ByCountry()) && Tallied(st.categories, socks, ByCategory(w))
    && st.privateCount == CountAll(socks, ByLan())
  }

  /** A snapshot of two observations, whatever orders its loops happened to take. */
  ghost predicate IsSnapshot(w: World, prev: Snap, cur: Snap, dt: real, listeners: seq<Listener>, st: Snapshot) {
    exists order, procs :: Describes(w, prev, cur, dt, listeners, order, procs, st)
  }

  method Build(w: World, prev: Snap, cur: Snap, dt: real, listeners: seq<Listener>) returns (st: Snapshot)
    ensures IsSnapshot(w, prev, cur, dt, listeners, st)
  {
    hide OneRowEach, Tallied, Aggregated, Sort, CountAll;
    var t, order := AccountSockets(w, prev, cur, dt);
    ghost var socks := SocketsOf(w, prev, cur, dt, order);
    var perpid := AccountListeners(t.perpid, listeners, socks);
    var procsList := ListProcesses(perpid, socks, listeners);
    st := Snapshot(
      Cap(Sort(procsList, ProcessBandwidth())), Cap(Sort(t.conns, ConnBandwidth())), t.countries, t.categories,
        t.private);
    assert Describes(w, prev, cur, dt, listeners, order, procsList, st);
  }
}
