/** What the tallies and the rows of a bandwidth snapshot say, in terms of the sockets and of the world alone. */
module BandwidthCounts {
  import opened Bandwidth
  import opened BandwidthLaws
  import opened Lists
  import opened Options
  import opened Tallies

  // Counting sockets by their keys in the snapshot

  predicate DistinctKeys(socks: seq<Socket>) {
    forall i, j :: 0 <= i < j < |socks| ==> socks[i].key != socks[j].key
  }

  function Having<K(==)>(socks: seq<Socket>, key: Socket -> Option<K>, v: K): set<ConnKey> {
    set s | s in socks && key(s) == Some(v) :: s.key
  }

  /** A count over distinct sockets is the size of a set of them. */
  lemma {:induction false} CountIsSize<K>(socks: seq<Socket>, key: Socket -> Option<K>, v: K)
    requires DistinctKeys(socks)
    ensures Count(socks, key, v) == |Having(socks, key, v)|
    decreases |socks|
  {
    if socks == [] {
      assert Having(socks, key, v) == {};
    } else {
      var (front, last) := (socks[..|socks| - 1], socks[|socks| - 1]);
      CountIsSize(front, key, v);
      assert socks == front + [last];
      assert last.key !in Having(front, key, v);
      if key(last) == Some(v) {
        assert Having(socks, key, v) == Having(front, key, v) + {last.key};
      } else {
        assert Having(socks, key, v) == Having(front, key, v);
      }
    }
  }

  lemma SocketsAreDistinct(w: World, prev: Snap, cur: Snap, dt: real, order: seq<ConnKey>)
    requires Enumerates(order, cur)
    ensures DistinctKeys(SocketsOf(w, prev, cur, dt, order))
  {}

  /** The sockets of a snapshot with a given property, counted in whatever order they are walked. */
  lemma CountOverSnap<K>(
      w: World, prev: Snap, cur: Snap, dt: real, order: seq<ConnKey>, key: Socket -> Option<K>, v: K,
      keys: set<ConnKey>)
    requires Enumerates(order, cur)
    requires forall k :: k in keys <==> k in cur && key(SocketOf(w, prev, dt, k, cur[k])) == Some(v)
    ensures Count(SocketsOf(w, prev, cur, dt, order), key, v) == |keys|
  {
    var socks := SocketsOf(w, prev, cur, dt, order);
    SocketsAreDistinct(w, prev, cur, dt, order);
    CountIsSize(socks, key, v);
    assert forall i :: 0 <= i < |socks| ==> socks[i].key == order[i];
    hide SocketOf, Count, NoRepeats;
    forall k ensures k in Having(socks, key, v) <==> k in keys {
      if k in keys {
        assert k in order;
        var i :| 0 <= i < |order| && order[i] == k;
        assert socks[i] in socks;
      }
    }
    assert Having(socks, key, v) == keys;
  }

  function At<K>(m: map<K, nat>, k: K): nat {
    if k in m then m[k] else 0
  }

  // What the published tallies count

  /** The sockets whose peer is global and belongs to a known network that is put in category c. */
  function InCategory(w: World, cur: Snap, c: string): set<ConnKey> {
    set k | k in cur && w.classify(cur[k].peerIP) == Global
      && w.asnLookup(cur[k].peerIP) != (0, "")
      && w.categorize(w.asnLookup(cur[k].peerIP).0, w.asnLookup(cur[k].peerIP).1) == c
  }

  /** The sockets whose peer is global and belongs to no known network. */
  function Unowned(w: World, cur: Snap): set<ConnKey> {
    set k | k in cur && w.classify(cur[k].peerIP) == Global && w.asnLookup(cur[k].peerIP) == (0, "")
  }

  lemma TallyAt<K(!new)>(m: map<K, nat>, socks: seq<Socket>, key: Socket -> Option<K>, v: K)
    requires Tallied(m, socks, key)
    ensures At(m, v) == Count(socks, key, v)
  {
    hide Count;
  }

  lemma CategoryIs(w: World, prev: Snap, dt: real, k: ConnKey, s: ConnState, c: string)
    ensures var (ip, (asn, org)) := (s.peerIP, w.asnLookup(s.peerIP));
            ByCategory(w)(SocketOf(w, prev, dt, k, s)) == Some(c) <==>
              w.classify(ip) == Global && if (asn, org) == (0, "") then c == "unknown" else w.categorize(asn, org) == c
  {}

  lemma CategoryKeys(w: World, prev: Snap, cur: Snap, dt: real, c: string) returns (keys: set<ConnKey>)
    ensures |keys| == |InCategory(w, cur, c)| + if c == "unknown" then |Unowned(w, cur)| else 0
    ensures forall k :: k in keys <==> k in cur && ByCategory(w)(SocketOf(w, prev, dt, k, cur[k])) == Some(c)
  {
    hide SocketOf, ByCategory;
    keys := if c == "unknown" then InCategory(w, cur, c) + Unowned(w, cur) else InCategory(w, cur, c);
    assert InCategory(w, cur, c) !! Unowned(w, cur);
    forall k ensures k in keys <==> k in cur && ByCategory(w)(SocketOf(w, prev, dt, k, cur[k])) == Some(c) {
      if k in cur {
        CategoryIs(w, prev, dt, k, cur[k], c);
      }
    }
  }

  /** A category counts the global peers whose known network is put there; unknown networks count as "unknown". */
  lemma CategoriesCountPeers(
      w: World, prev: Snap, cur: Snap, dt: real, lis: seq<Listener>, order: seq<ConnKey>, procs: seq<ProcessRow>,
      st: Snapshot, c: string)
    requires Describes(w, prev, cur, dt, lis, order, procs, st)
    ensures At(st.categories, c) == |InCategory(w, cur, c)| + if c == "unknown" then |Unowned(w, cur)| else 0
  {
    hide OneRowEach, Count, Tallied, SocketOf, ByCategory, NoRepeats;
    TallyAt(st.categories, SocketsOf(w, prev, cur, dt, order), ByCategory(w), c);
    var keys := CategoryKeys(w, prev, cur, dt, c);
    hide InCategory, Unowned;
    CountOverSnap(w, prev, cur, dt, order, ByCategory(w), c, keys);
  }

  lemma CountryIs(w: World, prev: Snap, dt: real, k: ConnKey, s: ConnState, code: string)
    ensures ByCountry()(SocketOf(w, prev, dt, k, s)) == Some(code) <==>
            code != "" && w.classify(s.peerIP) == Global && w.country(s.peerIP) == code
  {}

  /** A country counts the global peers the table puts there, and nothing is counted for an empty code. */
  lemma CountriesCountPeers(
      w: World, prev: Snap, cur: Snap, dt: real, lis: seq<Listener>, order: seq<ConnKey>, procs: seq<ProcessRow>,
      st: Snapshot, code: string)
    requires Describes(w, prev, cur, dt, lis, order, procs, st)
    ensures At(st.countries, code) == if code == "" then 0 else
      |set k | k in cur && w.classify(cur[k].peerIP) == Global && w.country(cur[k].peerIP) == code|
  {
    hide OneRowEach, Count, Tallied, SocketOf, ByCountry, NoRepeats;
    TallyAt(st.countries, SocketsOf(w, prev, cur, dt, order), ByCountry(), code);
    var peers := set k | k in cur && w.classify(cur[k].peerIP) == Global && w.country(cur[k].peerIP) == code;
    var keys := if code == "" then {} else peers;
    forall k ensures k in keys <==> k in cur && ByCountry()(SocketOf(w, prev, dt, k, cur[k])) == Some(code) {
      if k in cur {
        CountryIs(w, prev, dt, k, cur[k], code);
      }
    }
    CountOverSnap(w, prev, cur, dt, order, ByCountry(), code, keys);
  }

  /** The private count is the number of sockets whose peer is not global. */
  lemma PrivateCountsPeers(
      w: World, prev: Snap, cur: Snap, dt: real, lis: seq<Listener>, order: seq<ConnKey>, procs: seq<ProcessRow>,
      st: Snapshot)
    requires Describes(w, prev, cur, dt, lis, order, procs, st)
    ensures st.privateCount == |set k | k in cur && w.classify(cur[k].peerIP) != Global|
  {
    hide OneRowEach, Count, Tallied;
    var keys := set k | k in cur && w.classify(cur[k].peerIP) != Global;
    CountOverSnap(w, prev, cur, dt, order, ByLan(), (), keys);
    OneKey(SocketsOf(w, prev, cur, dt, order));
  }

  /** The connections of a process are the sockets attributed to its pid. */
  lemma ConnsCountSockets(
      w: World, prev: Snap, cur: Snap, dt: real, lis: seq<Listener>, order: seq<ConnKey>, procs: seq<ProcessRow>,
      st: Snapshot, p: ProcessRow)
    requires Describes(w, prev, cur, dt, lis, order, procs, st) && p in procs
    ensures p.conns == |set k | k in cur && cur[k].hasProc && cur[k].pid == p.pid|
  {
    var keys := set k | k in cur && cur[k].hasProc && cur[k].pid == p.pid;
    CountOverSnap(w, prev, cur, dt, order, ByPid(), p.pid, keys);
    RowSums(procs, SocketsOf(w, prev, cur, dt, order), lis);
    hide OneRowEach, Count, Tallied;
  }

  // What a row says

  /** The row of a socket: its own data, and what the world says about a global peer. */
  predicate Says(row: ConnRow, w: World, c: ConnState) {
    && row.local == c.local && row.peer == c.peerIP && row.port == c.peerPort
    && row.pid == (if c.hasProc then c.pid else 0) && row.name == (if c.hasProc then c.name else "?")
    && row.scope == w.classify(c.peerIP)
    && (row.scope != Global ==>
      row.host == None && row.country == None && row.asn == 0 && row.org == "" && row.cat == "")
    && (row.scope == Global ==>
      && row.host == w.resolve(c.peerIP)
      && (if w.country(c.peerIP) == "" then row.country == None else row.country == Some(w.country(c.peerIP)))
      && (row.asn, row.org) == w.asnLookup(c.peerIP)
      && row.cat == if w.asnLookup(c.peerIP) == (0, "") then "" else w.categorize(row.asn, row.org))
  }

  /** Before the cap there is one row a socket, which says just that. */
  lemma RowsSay(w: World, prev: Snap, cur: Snap, dt: real, order: seq<ConnKey>)
    requires Enumerates(order, cur)
    ensures var rows := RowsOf(SocketsOf(w, prev, cur, dt, order));
            |rows| == |cur| && forall i :: 0 <= i < |rows| ==> Says(rows[i], w, cur[order[i]])
  {
    RowsMatch(w, prev, cur, dt, order);
    hide NoRepeats;
  }
}
