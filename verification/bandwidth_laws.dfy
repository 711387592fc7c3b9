/** What every bandwidth snapshot keeps, whatever order the maps are walked in. */
module BandwidthLaws {
  import opened Bandwidth
  import opened Lists
  import opened Options
  import opened StableSort
  import opened Tallies

  function Amount<K(==)>(m: map<K, nat>): K -> real {
    k => if k in m then m[k] as real else 0.0
  }

  /** The sum over a tally, over any listing of its keys, counts the sockets that have a key. */
  lemma TallySum<K(!new)>(m: map<K, nat>, ks: seq<K>, socks: seq<Socket>, key: Socket -> Option<K>)
    requires Tallied(m, socks, key) && Enumerates(ks, m)
    ensures Sum(ks, Amount(m)) == CountAll(socks, key) as real
  {
    hide Count, CountAll, Sum;
    forall s | s in socks && key(s).Some? ensures key(s).value in ks {
      CountsItself(socks, s, key);
    }
    PartitionCounts(ks, socks, key);
    SumSame(ks, Amount(m), CountOf(socks, key));
  }

  lemma {:induction false} CountsItself<K>(socks: seq<Socket>, s: Socket, key: Socket -> Option<K>)
    requires s in socks && key(s).Some?
    ensures Count(socks, key, key(s).value) > 0
    decreases |socks|
  {
    if s != socks[|socks| - 1] {
      CountsItself(socks[..|socks| - 1], s, key);
    }
  }

  /** Every socket is either private or in a category; a country needs a category. */
  lemma {:induction false} PrivateOrCategory(w: World, socks: seq<Socket>)
    requires forall s :: s in socks ==> Matches(w, s)
    ensures CountAll(socks, ByLan()) + CountAll(socks, ByCategory(w)) == |socks|
    ensures CountAll(socks, ByCountry()) <= CountAll(socks, ByCategory(w))
    decreases |socks|
  {
    if socks != [] {
      PrivateOrCategory(w, socks[..|socks| - 1]);
      assert socks[|socks| - 1] in socks;
    }
  }

  /** The row of a socket says what the world says about its peer. */
  predicate Matches(w: World, s: Socket) {
    s.row.scope == w.classify(s.state.peerIP) && s.row.country == CountryOf(w, s.state.peerIP)
  }

  lemma RowMatches(w: World, prev: Snap, dt: real, key: ConnKey, c: ConnState)
    ensures Matches(w, SocketOf(w, prev, dt, key, c))
  {}

  lemma RowsMatch(w: World, prev: Snap, cur: Snap, dt: real, order: seq<ConnKey>)
    requires Enumerates(order, cur)
    ensures var socks := SocketsOf(w, prev, cur, dt, order);
            |socks| == |cur| && forall s :: s in socks ==> Matches(w, s)
  {
    hide SocketOf, Matches;
    ListSize(order, cur.Keys);
    hide NoRepeats;
    var socks := SocketsOf(w, prev, cur, dt, order);
    forall i | 0 <= i < |socks| ensures Matches(w, socks[i]) {
      RowMatches(w, prev, dt, order[i], cur[order[i]]);
    }
  }

  /** Private peers and categories add up to the sockets; countries never exceed categories. */
  lemma SocketsAreConserved(
      w: World, prev: Snap, cur: Snap, dt: real, lis: seq<Listener>, order: seq<ConnKey>, procs: seq<ProcessRow>,
      st: Snapshot, cats: seq<string>, codes: seq<string>)
    requires Describes(w, prev, cur, dt, lis, order, procs, st)
    requires Enumerates(cats, st.categories) && Enumerates(codes, st.countries)
    ensures st.privateCount as real + Sum(cats, Amount(st.categories)) == |cur| as real
    ensures Sum(codes, Amount(st.countries)) <= Sum(cats, Amount(st.categories))
  {
    var socks := SocketsOf(w, prev, cur, dt, order);
    RowsMatch(w, prev, cur, dt, order);
    hide CountAll, Sum, Tallied, OneRowEach, Sort;
    PrivateOrCategory(w, socks);
    TallySum(st.categories, cats, socks, ByCategory(w));
    TallySum(st.countries, codes, socks, ByCountry());
  }

  // Processes

  function Conns(): ProcessRow -> real {
    (p: ProcessRow) => p.conns as real
  }

  function Rx(): ProcessRow -> real {
    (p: ProcessRow) => p.rx
  }

  function Tx(): ProcessRow -> real {
    (p: ProcessRow) => p.tx
  }

  lemma {:induction false} SumOverPids(procs: seq<ProcessRow>, amount: ProcessRow -> real, byPid: int -> real)
    requires forall p :: p in procs ==> amount(p) == byPid(p.pid)
    ensures Sum(procs, amount) == Sum(PidsOf(procs), byPid)
    decreases |procs|
  {
    if procs != [] {
      var front := procs[..|procs| - 1];
      SumOverPids(front, amount, byPid);
      assert PidsOf(procs)[..|front|] == PidsOf(front);
    }
  }

  lemma AttributedIsListed(procs: seq<ProcessRow>, socks: seq<Socket>, lis: seq<Listener>, s: Socket)
    requires OneRowEach(procs, socks, lis) && s in socks && ByPid()(s).Some?
    ensures s.state.pid in PidsOf(procs)
  {
    hide Count, Weigh, ListenOf;
    CountsItself(socks, s, ByPid());
    if NameOf(socks, lis, s.state.pid).None? {
      NothingYet(socks, lis, s.state.pid);
    }
  }

  /** The process rows account for every attributed socket and for all of its bandwidth. */
  lemma ProcessesAreConserved(
      w: World, prev: Snap, cur: Snap, dt: real, lis: seq<Listener>, order: seq<ConnKey>, procs: seq<ProcessRow>,
      st: Snapshot)
    requires Describes(w, prev, cur, dt, lis, order, procs, st)
    ensures var socks := SocketsOf(w, prev, cur, dt, order);
            && Sum(procs, Conns()) == CountAll(socks, ByPid()) as real
            && Sum(procs, Rx()) == WeighAll(socks, ByPid(), RxRate())
            && Sum(procs, Tx()) == WeighAll(socks, ByPid(), TxRate())
  {
    var socks := SocketsOf(w, prev, cur, dt, order);
    RowSums(procs, socks, lis);
    hide OneRowEach, CountAll, WeighAll, Sum;
    forall s | s in socks && ByPid()(s).Some? ensures ByPid()(s).value in PidsOf(procs) {
      AttributedIsListed(procs, socks, lis, s);
    }
    PartitionCounts(PidsOf(procs), socks, ByPid());
    Partition(PidsOf(procs), socks, ByPid(), RxRate());
    Partition(PidsOf(procs), socks, ByPid(), TxRate());
    SumOverPids(procs, Conns(), CountOf(socks, ByPid()));
    SumOverPids(procs, Rx(), WeightOf(socks, ByPid(), RxRate()));
    SumOverPids(procs, Tx(), WeightOf(socks, ByPid(), TxRate()));
  }

  /** One row for each pid that some attributed socket or listener has; its figures are the sums over what it has. */
  lemma OneRowPerProcess(procs: seq<ProcessRow>, socks: seq<Socket>, lis: seq<Listener>)
    requires OneRowEach(procs, socks, lis)
    ensures NoRepeats(PidsOf(procs))
    ensures forall pid :: pid in PidsOf(procs) <==> exists name :: NamedBy(socks, lis, pid, name)
    ensures forall p :: p in procs ==>
      && NamedBy(socks, lis, p.pid, p.name)
      && p.conns == Count(socks, ByPid(), p.pid) && p.listen == ListenOf(lis, p.pid)
      && p.rx == Weigh(socks, ByPid(), RxRate(), p.pid) && p.tx == Weigh(socks, ByPid(), TxRate(), p.pid)
  {
    hide Count, Weigh, ListenOf, NameOf, NamedBy;
    forall pid ensures ProcessOf(socks, lis, pid).Some? <==> exists name :: NamedBy(socks, lis, pid, name) {
      NamedWhenKnown(socks, lis, pid);
    }
    forall p | p in procs ensures NamedBy(socks, lis, p.pid, p.name) {
      NamedWhenKnown(socks, lis, p.pid);
    }
    RowSums(procs, socks, lis);
  }

  lemma NamesPermuted(a: seq<Socket>, b: seq<Socket>, lis: seq<Listener>, pid: int, name: string)
    requires multiset(a) == multiset(b)
    ensures NamedBy(a, lis, pid, name) ==> NamedBy(b, lis, pid, name)
  {
    if i :| 0 <= i < |a| && ByPid()(a[i]) == Some(pid) && a[i].state.name == name {
      assert a[i] in multiset(b);
      var j :| 0 <= j < |b| && b[j] == a[i];
    }
  }

  lemma {:induction false} RowsPermuted(a: seq<Socket>, b: seq<Socket>)
    requires multiset(a) == multiset(b)
    ensures multiset(RowsOf(a)) == multiset(RowsOf(b))
    decreases |a|
  {
    if a == [] {
      assert |b| == |multiset(b)| == 0;
    } else {
      var (front, last) := (a[..|a| - 1], a[|a| - 1]);
      var i := LastInOther(a, b);
      RowsPermuted(front, b[..i] + b[i + 1..]);
      assert RowsOf(a) == RowsOf(front) + [last.row];
      assert RowsOf(b) == RowsOf(b[..i]) + [last.row] + RowsOf(b[i + 1..]);
      assert RowsOf(b[..i] + b[i + 1..]) == RowsOf(b[..i]) + RowsOf(b[i + 1..]);
    }
  }

  lemma RowSums(procs: seq<ProcessRow>, socks: seq<Socket>, lis: seq<Listener>)
    requires OneRowEach(procs, socks, lis)
    ensures NoRepeats(PidsOf(procs))
    ensures forall p :: p in procs ==>
      && p.conns == Count(socks, ByPid(), p.pid) && p.listen == ListenOf(lis, p.pid)
      && p.rx == Weigh(socks, ByPid(), RxRate(), p.pid) && p.tx == Weigh(socks, ByPid(), TxRate(), p.pid)
  {
    hide Count, Weigh, ListenOf, NameOf;
  }

  predicate ListensOn(l: Listener, pid: int, row: ListenRow) {
    l.hasProc && l.pid == pid && l.proto == row.proto && l.port == row.port
  }

  /** The listen list of a process holds each of its sockets once and nothing else. */
  lemma {:induction false} ListenListIsExact(lis: seq<Listener>, pid: int)
    ensures NoRepeats(ListenOf(lis, pid))
    ensures forall row :: row in ListenOf(lis, pid) <==> exists i :: 0 <= i < |lis| && ListensOn(lis[i], pid, row)
    decreases |lis|
  {
    if lis != [] {
      var (front, last) := (lis[..|lis| - 1], lis[|lis| - 1]);
      ListenListIsExact(front, pid);
      forall row | row in ListenOf(lis, pid) ensures exists i :: 0 <= i < |lis| && ListensOn(lis[i], pid, row) {
        if row in ListenOf(front, pid) {
          var i :| 0 <= i < |front| && ListensOn(front[i], pid, row);
          assert ListensOn(lis[i], pid, row);
        } else {
          assert ListensOn(lis[|lis| - 1], pid, row);
        }
      }
      forall row, i | 0 <= i < |lis| && ListensOn(lis[i], pid, row) ensures row in ListenOf(lis, pid) {
        if i < |front| {
          assert ListensOn(front[i], pid, row);
        }
      }
    }
  }

  // The cap

  /** Capping keeps rows that all rank at least as high as every row it drops. */
  lemma CapKeepsTheTop<T>(rows: seq<T>, key: T -> real) returns (dropped: seq<T>)
    ensures multiset(Cap(Sort(rows, key)) + dropped) == multiset(rows)
    ensures |Cap(Sort(rows, key))| == if |rows| > MAX_ROWS then MAX_ROWS else |rows|
    ensures forall kept, lost :: kept in Cap(Sort(rows, key)) && lost in dropped ==> key(kept) <= key(lost)
  {
    var sorted := Sort(rows, key);
    SortSorted(rows, key);
    dropped := sorted[|Cap(sorted)|..];
    assert sorted == Cap(sorted) + dropped;
    hide Sort;
  }

  /** No published process or connection has less bandwidth than one the cap dropped. */
  lemma PublishedRowsLead(
      w: World, prev: Snap, cur: Snap, dt: real, lis: seq<Listener>, order: seq<ConnKey>, procs: seq<ProcessRow>,
      st: Snapshot)
    returns (lostProcs: seq<ProcessRow>, lostConns: seq<ConnRow>)
    requires Describes(w, prev, cur, dt, lis, order, procs, st)
    ensures multiset(st.processes + lostProcs) == multiset(procs)
    ensures multiset(st.connections + lostConns) == multiset(RowsOf(SocketsOf(w, prev, cur, dt, order)))
    ensures forall p, q :: p in st.processes && q in lostProcs ==> p.rx + p.tx >= q.rx + q.tx
    ensures forall c, d :: c in st.connections && d in lostConns ==> c.rx + c.tx >= d.rx + d.tx
    ensures |st.processes| <= 512 && |st.connections| <= 512
    ensures lostProcs != [] ==> |st.processes| == 512
    ensures lostConns != [] ==> |st.connections| == 512
  {
    hide Sort, Cap, OneRowEach, Tallied, CountAll;
    lostProcs := CapKeepsTheTop(procs, ProcessBandwidth());
    lostConns := CapKeepsTheTop(RowsOf(SocketsOf(w, prev, cur, dt, order)), ConnBandwidth());
    SplitSizes(st.processes, lostProcs, procs);
    SplitSizes(st.connections, lostConns, RowsOf(SocketsOf(w, prev, cur, dt, order)));
    KeyOfProcess(st.processes, lostProcs);
    KeyOfConn(st.connections, lostConns);
  }

  lemma SplitSizes<T>(a: seq<T>, b: seq<T>, all: seq<T>)
    requires multiset(a + b) == multiset(all)
    ensures |a| + |b| == |all|
  {
    assert |multiset(a + b)| == |a + b| && |multiset(all)| == |all|;
  }

  lemma KeyOfProcess(kept: seq<ProcessRow>, lost: seq<ProcessRow>)
    requires forall p, q :: p in kept && q in lost ==> ProcessBandwidth()(p) <= ProcessBandwidth()(q)
    ensures forall p, q :: p in kept && q in lost ==> p.rx + p.tx >= q.rx + q.tx
  {
    forall p, q | p in kept && q in lost ensures p.rx + p.tx >= q.rx + q.tx {
      assert ProcessBandwidth()(p) <= ProcessBandwidth()(q);
    }
  }

  lemma KeyOfConn(kept: seq<ConnRow>, lost: seq<ConnRow>)
    requires forall p, q :: p in kept && q in lost ==> ConnBandwidth()(p) <= ConnBandwidth()(q)
    ensures forall p, q :: p in kept && q in lost ==> p.rx + p.tx >= q.rx + q.tx
  {
    forall p, q | p in kept && q in lost ensures p.rx + p.tx >= q.rx + q.tx {
      assert ConnBandwidth()(p) <= ConnBandwidth()(q);
    }
  }

  // Order

  lemma AlsoInOtherOrder(w: World, prev: Snap, cur: Snap, dt: real, order: seq<ConnKey>, other: seq<ConnKey>, s: Socket)
    requires Enumerates(order, cur) && Enumerates(other, cur) && s in SocketsOf(w, prev, cur, dt, order)
    ensures s in SocketsOf(w, prev, cur, dt, other)
  {
    hide SocketOf;
    var a := SocketsOf(w, prev, cur, dt, order);
    var i :| 0 <= i < |a| && a[i] == s;
    assert order[i] in other;
    var j :| 0 <= j < |other| && other[j] == order[i];
    assert SocketsOf(w, prev, cur, dt, other)[j] == s;
  }

  lemma SocketsPermuted(w: World, prev: Snap, cur: Snap, dt: real, order: seq<ConnKey>, other: seq<ConnKey>)
    requires Enumerates(order, cur) && Enumerates(other, cur)
    ensures multiset(SocketsOf(w, prev, cur, dt, order)) == multiset(SocketsOf(w, prev, cur, dt, other))
  {
    var (a, b) := (SocketsOf(w, prev, cur, dt, order), SocketsOf(w, prev, cur, dt, other));
    assert forall i :: 0 <= i < |order| ==> a[i].key == order[i];
    assert forall i :: 0 <= i < |other| ==> b[i].key == other[i];
    hide SocketOf;
    forall s ensures s in a <==> s in b {
      if s in a {
        AlsoInOtherOrder(w, prev, cur, dt, order, other, s);
      }
      if s in b {
        AlsoInOtherOrder(w, prev, cur, dt, other, order, s);
      }
    }
    SameElements(a, b);
  }

  /** Two snapshots of the same observations agree in every tally, and in every figure of every process but its name. */
  lemma OrderDoesNotMatter(
      w: World, prev: Snap, cur: Snap, dt: real, lis: seq<Listener>,
      order: seq<ConnKey>, procs: seq<ProcessRow>, st: Snapshot, order': seq<ConnKey>, procs': seq<ProcessRow>,
      st': Snapshot)
    requires Describes(w, prev, cur, dt, lis, order, procs, st)
    requires Describes(w, prev, cur, dt, lis, order', procs', st')
    ensures st.countries == st'.countries && st.categories == st'.categories && st.privateCount == st'.privateCount
    ensures multiset(RowsOf(SocketsOf(w, prev, cur, dt, order)))
      == multiset(RowsOf(SocketsOf(w, prev, cur, dt, order')))
    ensures forall pid :: pid in PidsOf(procs) <==> pid in PidsOf(procs')
    ensures forall p, p' :: p in procs && p' in procs' && p.pid == p'.pid ==> p'.(name := p.name) == p
  {
    var (a, b) := (SocketsOf(w, prev, cur, dt, order), SocketsOf(w, prev, cur, dt, order'));
    hide OneRowEach, CountAll, Sort, Tallied, SocketOf;
    SocketsPermuted(w, prev, cur, dt, order, order');
    RowsPermuted(a, b);
    SamePids(a, b, procs, procs', lis);
    SameFigures(a, b, procs, procs', lis);
    SameTally(st.countries, st'.countries, a, b, ByCountry());
    SameTally(st.categories, st'.categories, a, b, ByCategory(w));
    SameCount(a, b, ByLan(), ());
    OneKey(a);
    OneKey(b);
  }

  lemma SamePids(a: seq<Socket>, b: seq<Socket>, procs: seq<ProcessRow>, procs': seq<ProcessRow>, lis: seq<Listener>)
    requires multiset(a) == multiset(b) && OneRowEach(procs, a, lis) && OneRowEach(procs', b, lis)
    ensures forall pid :: pid in PidsOf(procs) <==> pid in PidsOf(procs')
  {
    hide OneRowEach, NamedBy, Count, Weigh, ListenOf;
    OneRowPerProcess(procs, a, lis);
    OneRowPerProcess(procs', b, lis);
    forall pid, name ensures NamedBy(a, lis, pid, name) <==> NamedBy(b, lis, pid, name) {
      NamesPermuted(a, b, lis, pid, name);
      NamesPermuted(b, a, lis, pid, name);
    }
  }

  lemma SameFigures(a: seq<Socket>, b: seq<Socket>, procs: seq<ProcessRow>, procs': seq<ProcessRow>, lis: seq<Listener>)
    requires multiset(a) == multiset(b) && OneRowEach(procs, a, lis) && OneRowEach(procs', b, lis)
    ensures forall p, p' :: p in procs && p' in procs' && p.pid == p'.pid ==> p'.(name := p.name) == p
  {
    hide OneRowEach, Count, Weigh, ListenOf;
    RowSums(procs, a, lis);
    RowSums(procs', b, lis);
    forall pid ensures
      && Count(a, ByPid(), pid) == Count(b, ByPid(), pid)
      && Weigh(a, ByPid(), RxRate(), pid) == Weigh(b, ByPid(), RxRate(), pid)
      && Weigh(a, ByPid(), TxRate(), pid) == Weigh(b, ByPid(), TxRate(), pid)
    {
      SameCount(a, b, ByPid(), pid);
      WeighPermuted(a, b, ByPid(), RxRate(), pid);
      WeighPermuted(a, b, ByPid(), TxRate(), pid);
    }
  }

  lemma SameCount<K>(a: seq<Socket>, b: seq<Socket>, key: Socket -> Option<K>, k: K)
    requires multiset(a) == multiset(b)
    ensures Count(a, key, k) == Count(b, key, k)
  {
    CountIsWeight(a, key, k);
    CountIsWeight(b, key, k);
    WeighPermuted(a, b, key, One(), k);
  }

  lemma SameTally<K(!new)>(m: map<K, nat>, m': map<K, nat>, a: seq<Socket>, b: seq<Socket>, key: Socket -> Option<K>)
    requires multiset(a) == multiset(b) && Tallied(m, a, key) && Tallied(m', b, key)
    ensures m == m'
  {
    hide Count;
    forall k ensures Count(a, key, k) == Count(b, key, k) {
      SameCount(a, b, key, k);
    }
    assert m.Keys == m'.Keys;
  }

  lemma {:induction false} OneKey(a: seq<Socket>)
    ensures CountAll(a, ByLan()) == Count(a, ByLan(), ())
    decreases |a|
  {
    if a != [] {
      OneKey(a[..|a| - 1]);
    }
  }

  // Names

  predicate NamedBy(socks: seq<Socket>, lis: seq<Listener>, pid: int, name: string) {
    || (exists i :: 0 <= i < |socks| && ByPid()(socks[i]) == Some(pid) && socks[i].state.name == name)
    || (exists i :: 0 <= i < |lis| && ListenPid()(lis[i]) == Some(pid) && lis[i].name == name)
  }

  lemma {:induction false} SocketNameMeaning(socks: seq<Socket>, pid: int)
    ensures match SocketName(socks, pid)
            case None => forall i :: 0 <= i < |socks| ==> ByPid()(socks[i]) != Some(pid)
            case Some(n) =>
              && NamedBy(socks, [], pid, n)
              && (Unnamed(n) ==> forall m :: NamedBy(socks, [], pid, m) ==> Unnamed(m))
    decreases |socks|
  {
    if socks != [] {
      var (front, last) := (socks[..|socks| - 1], socks[|socks| - 1]);
      SocketNameMeaning(front, pid);
      forall m ensures NamedBy(socks, [], pid, m)
        <==> NamedBy(front, [], pid, m) || (ByPid()(last) == Some(pid) && last.state.name == m)
      {
        if NamedBy(front, [], pid, m) {
          var i :| 0 <= i < |front| && ByPid()(front[i]) == Some(pid) && front[i].state.name == m;
          assert socks[i] == front[i];
        }
        if NamedBy(socks, [], pid, m) {
          var i :| 0 <= i < |socks| && ByPid()(socks[i]) == Some(pid) && socks[i].state.name == m;
          assert i < |front| ==> front[i] == socks[i];
        }
      }
      hide NamedBy;
    }
  }

  /** A process is named by one of its sockets or listeners, and by a known name as soon as one of them has one. */
  lemma {:induction false} NamedWhenKnown(socks: seq<Socket>, lis: seq<Listener>, pid: int)
    ensures match NameOf(socks, lis, pid)
            case None => forall m :: !NamedBy(socks, lis, pid, m)
            case Some(n) =>
              && NamedBy(socks, lis, pid, n)
              && (Unnamed(n) ==> forall m :: NamedBy(socks, lis, pid, m) ==> Unnamed(m))
    decreases |lis|
  {
    if lis == [] {
      SocketNameMeaning(socks, pid);
    } else {
      var (front, last) := (lis[..|lis| - 1], lis[|lis| - 1]);
      NamedWhenKnown(socks, front, pid);
      forall m ensures NamedBy(socks, lis, pid, m)
        <==> NamedBy(socks, front, pid, m) || (ListenPid()(last) == Some(pid) && last.name == m)
      {
        if exists i :: 0 <= i < |front| && ListenPid()(front[i]) == Some(pid) && front[i].name == m {
          var i :| 0 <= i < |front| && ListenPid()(front[i]) == Some(pid) && front[i].name == m;
          assert lis[i] == front[i];
        }
        if exists i :: 0 <= i < |lis| && ListenPid()(lis[i]) == Some(pid) && lis[i].name == m {
          var i :| 0 <= i < |lis| && ListenPid()(lis[i]) == Some(pid) && lis[i].name == m;
          assert i < |front| ==> front[i] == lis[i];
        }
      }
      hide NamedBy;
    }
  }

  /** The names a process is given: by its sockets in the order they are walked, then by its listeners. */
  function NamesGiven(socks: seq<Socket>, lis: seq<Listener>, pid: int): seq<string> {
    if lis != [] then
      var (front, last) := (NamesGiven(socks, lis[..|lis| - 1], pid), lis[|lis| - 1]);
      if last.hasProc && last.pid == pid then front + [last.name] else front
    else if socks != [] then
      var (front, last) := (NamesGiven(socks[..|socks| - 1], [], pid), socks[|socks| - 1]);
      if last.state.hasProc && last.state.pid == pid then front + [last.state.name] else front
    else []
  }

  /** A name that says something: neither a question mark nor empty. */
  predicate Known(name: string) {
    name != "?" && name != ""
  }

  /** n is the first known one of some names, or the first of all when none is known. */
  ghost predicate FirstKnown(names: seq<string>, n: string) {
    if forall i :: 0 <= i < |names| ==> !Known(names[i]) then names != [] && n == names[0]
    else exists i :: 0 <= i < |names| && names[i] == n && Known(n) && forall j :: 0 <= j < i ==> !Known(names[j])
  }

  lemma FirstKnownPush(names: seq<string>, known: Option<string>, name: string)
    requires if known.None? then names == [] else FirstKnown(names, known.value)
    ensures FirstKnown(names + [name], Better(known, name))
  {
    var more := names + [name];
    assert more[|names|] == name;
    if i :| 0 <= i < |names| && Known(names[i]) {
      assert more[i] == names[i];
      var k :| 0 <= k < |names| && names[k] == known.value && Known(known.value)
        && forall j :: 0 <= j < k ==> !Known(names[j]);
      assert more[k] == names[k] && forall j :: 0 <= j < k ==> more[j] == names[j];
    } else {
      assert forall j :: 0 <= j < |names| ==> more[j] == names[j] && !Known(names[j]);
    }
  }

  /** A process has a row when it is given a name, and carries the first known one. */
  lemma {:induction false} NameIsFirstKnown(socks: seq<Socket>, lis: seq<Listener>, pid: int)
    ensures match NameOf(socks, lis, pid)
            case None => NamesGiven(socks, lis, pid) == []
            case Some(n) => FirstKnown(NamesGiven(socks, lis, pid), n)
    decreases |socks| + |lis|
  {
    hide FirstKnown, Better;
    if lis != [] {
      var (front, last) := (lis[..|lis| - 1], lis[|lis| - 1]);
      NameIsFirstKnown(socks, front, pid);
      FirstKnownPush(NamesGiven(socks, front, pid), NameOf(socks, front, pid), last.name);
    } else if socks != [] {
      var (front, last) := (socks[..|socks| - 1], socks[|socks| - 1]);
      NameIsFirstKnown(front, [], pid);
      FirstKnownPush(NamesGiven(front, [], pid), SocketName(front, pid), last.state.name);
    }
  }
}
