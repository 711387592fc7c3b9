/** Whole runs of cacheGet and cachePut: web/netmon/rdns.go lines 73-120. */
module RdnsRuns {
  import opened Options
  import opened RdnsCache

  datatype Op = Get(now: Instant, ip: string) | Put(now: Instant, ip: string, host: Host)

  type Run = seq<Op>

  function Init(ops: Run): Run
    requires ops != []
  {
    ops[..|ops| - 1]
  }

  function Final(ops: Run): Op
    requires ops != []
  {
    ops[|ops| - 1]
  }

  function Step(c: seq<Entry>, op: Op): seq<Entry> {
    match op
    case Get(now, ip) => AfterGet(c, now, ip)
    case Put(now, ip, host) => AfterPut(c, now, ip, host)
  }

  /** The cache after a run of calls on an empty cache. */
  function After(ops: Run): seq<Entry> {
    if ops == [] then [] else Step(After(Init(ops)), Final(ops))
  }

  /** The last result put for ip, with the time it was put. */
  function LastPut(ops: Run, ip: string): Option<(Host, Instant)> {
    if ops == [] then None
    else if Final(ops).Put? && Final(ops).ip == ip then Some((Final(ops).host, Final(ops).now))
    else LastPut(Init(ops), ip)
  }

  /** A put, and a get that hits, make their key the most recently used. */
  predicate Uses(ops: Run)
    requires ops != []
  {
    Final(ops).Put? || GetAnswer(After(Init(ops)), Final(ops).now, Final(ops).ip).Hit?
  }

  /** The other keys used since ip was last used. */
  function UsedSince(ops: Run, ip: string): set<string> {
    if ops == [] then {}
    else if !Uses(ops) then UsedSince(Init(ops), ip)
    else if Final(ops).ip == ip then {}
    else UsedSince(Init(ops), ip) + {Final(ops).ip}
  }

  /** Calls are made in clock order. */
  predicate Monotone(ops: Run) {
    forall i, j :: 0 <= i < j < |ops| ==> ops[i].now <= ops[j].now
  }

  predicate Expired(put: (Host, Instant), now: Instant) {
    now > put.1 + Ttl(put.0)
  }

  // ---------------------------------------------------------- the invariant of a run

  /** List order is recency order: everything in front of an entry was used since it was. */
  ghost predicate Ordered(ops: Run, c: seq<Entry>) {
    forall i, j :: 0 <= i < j < |c| ==> c[i].ip in UsedSince(ops, c[j].ip)
  }

  /** Every entry is the last result put for its key, with that result's expiry. */
  ghost predicate Sound(ops: Run, c: seq<Entry>) {
    forall e :: e in c ==> FromPut(e, LastPut(ops, e.ip))
  }

  predicate FromPut(e: Entry, put: Option<(Host, Instant)>) {
    put.Some? && e.host == put.value.0 && e.exp == put.value.1 + Ttl(put.value.0)
  }

  /** A key that was put but is gone has expired during the run, or CACHE_CAP other keys were used since. */
  ghost predicate Complete(ops: Run, c: seq<Entry>) {
    forall ip {:trigger LastPut(ops, ip)} :: LastPut(ops, ip).Some? && !Holds(c, ip) ==> Gone(ops, ip)
  }

  ghost predicate Gone(ops: Run, ip: string)
    requires LastPut(ops, ip).Some?
  {
    ExpiredDuring(ops, LastPut(ops, ip).value) || |UsedSince(ops, ip)| >= CACHE_CAP
  }

  ghost predicate ExpiredDuring(ops: Run, put: (Host, Instant)) {
    exists i :: 0 <= i < |ops| && Expired(put, ops[i].now)
  }

  ghost predicate Good(ops: Run, c: seq<Entry>) {
    Distinct(c) && Ordered(ops, c) && Sound(ops, c) && Complete(ops, c)
  }

  // --- list facts

  lemma DropFacts(c: seq<Entry>, ip: string)
    requires Distinct(c)
    ensures Distinct(Drop(c, ip)) && !Holds(Drop(c, ip), ip)
    ensures forall e :: e in Drop(c, ip) <==> e in c && e.ip != ip
    ensures |Drop(c, ip)| == if Holds(c, ip) then |c| - 1 else |c|
  {
    var (p, d) := (Position(c, ip), Drop(c, ip));
    forall e | e in c && e.ip != ip ensures e in d {
      var i :| 0 <= i < |c| && c[i] == e;
      assert e == d[if i < p then i else i - 1];
    }
  }

  /** Entries kept by a drop keep their order. */
  lemma DropOrder(c: seq<Entry>, ip: string, i: nat, j: nat) returns (p: nat, q: nat)
    requires i < j < |Drop(c, ip)|
    ensures p < q < |c| && c[p] == Drop(c, ip)[i] && c[q] == Drop(c, ip)[j]
  {
    hide Position;
    var k := Position(c, ip);
    p := if i < k then i else i + 1;
    q := if j < k then j else j + 1;
  }

  lemma DropHolds(c: seq<Entry>, ip: string, k: string)
    requires Distinct(c)
    ensures Holds(Drop(c, ip), k) <==> Holds(c, k) && k != ip
  {
    DropFacts(c, ip);
    var d := Drop(c, ip);
    if Holds(c, k) && k != ip {
      var i :| 0 <= i < |c| && c[i].ip == k;
      assert c[i] in d;
    }
    if Holds(d, k) {
      var j :| 0 <= j < |d| && d[j].ip == k;
      assert d[j] in c;
    }
  }

  lemma FrontHolds(e: Entry, c: seq<Entry>, k: string)
    ensures Holds([e] + c, k) <==> e.ip == k || Holds(c, k)
  {
    var s := [e] + c;
    assert s[0] == e;
    assert forall i :: 0 <= i < |c| ==> s[i + 1] == c[i];
  }

  function Keys(c: seq<Entry>): (s: set<string>)
    ensures forall i :: 0 <= i < |c| ==> c[i].ip in s
    ensures forall ip :: ip in s ==> Holds(c, ip)
  {
    if c == [] then {} else
      var s := Keys(c[..|c| - 1]) + {c[|c| - 1].ip};
      assert forall ip :: Holds(c[..|c| - 1], ip) ==> Holds(c, ip);
      s
  }

  lemma {:induction false} KeyCount(c: seq<Entry>)
    requires Distinct(c)
    ensures |Keys(c)| == |c|
  {
    if c == [] {
    } else {
      var rest := c[..|c| - 1];
      KeyCount(rest);
      assert !Holds(rest, c[|c| - 1].ip);
    }
  }

  lemma {:induction false} SubsetSize<T>(a: set<T>, b: set<T>)
    requires a <= b
    ensures |a| <= |b|
  {
    if a != {} {
      var x :| x in a;
      SubsetSize(a - {x}, b - {x});
    }
  }

  /** An entry behind n others had n other keys used since it was. */
  lemma BehindMany(ops: Run, c: seq<Entry>, n: nat)
    requires Distinct(c) && Ordered(ops, c) && n < |c|
    ensures |UsedSince(ops, c[n].ip)| >= n
  {
    var front := c[..n];
    KeyCount(front);
    forall ip | ip in Keys(front) ensures ip in UsedSince(ops, c[n].ip) {
      var i :| 0 <= i < n && front[i].ip == ip;
      assert c[i].ip in UsedSince(ops, c[n].ip);
    }
    SubsetSize(Keys(front), UsedSince(ops, c[n].ip));
  }

  // --- one step at a time

  /** Putting an entry at the front, as a put and a get that hits both do. */
  lemma FrontOrdered(ops: Run, c: seq<Entry>, e: Entry)
    requires ops != [] && Uses(ops) && Final(ops).ip == e.ip
    requires Distinct(c) && Ordered(Init(ops), c)
    ensures Ordered(ops, [e] + Drop(c, e.ip)) && Distinct([e] + Drop(c, e.ip))
  {
    hide Drop, Uses;
    var d := Drop(c, e.ip);
    var c' := [e] + d;
    DropFacts(c, e.ip);
    forall i, j | 0 <= i < j < |c'| ensures c'[i].ip in UsedSince(ops, c'[j].ip) {
      assert c'[j] == d[j - 1] && c'[j].ip != e.ip by {
        assert d[j - 1] in d;
      }
      if i > 0 {
        var p, q := DropOrder(c, e.ip, i - 1, j - 1);
        assert c[p].ip in UsedSince(Init(ops), c[q].ip);
      }
    }
  }

  lemma PutGood(ops: Run, c: seq<Entry>)
    requires ops != [] && Final(ops).Put? && Good(Init(ops), c)
    ensures Good(ops, Step(c, Final(ops)))
  {
    hide Drop, LastPut, UsedSince, Ttl, Complete, Ordered, Sound, Distinct;
    var e := Entry(Final(ops).ip, Final(ops).host, Final(ops).now + Ttl(Final(ops).host));
    FrontOrdered(ops, c, e);
    FrontSound(ops, c, e);
    PutComplete(ops, c);
    if |[e] + Drop(c, e.ip)| > CACHE_CAP {
      CutGood(ops, [e] + Drop(c, e.ip));
    }
  }

  lemma FrontSound(ops: Run, c: seq<Entry>, e: Entry)
    requires ops != [] && Final(ops).Put? && Distinct(c) && Sound(Init(ops), c)
    requires e == Entry(Final(ops).ip, Final(ops).host, Final(ops).now + Ttl(Final(ops).host))
    ensures Sound(ops, [e] + Drop(c, e.ip))
  {
    DropFacts(c, e.ip);
    hide Drop;
  }

  lemma CutGood(ops: Run, c: seq<Entry>)
    requires Distinct(c) && Ordered(ops, c) && Sound(ops, c) && |c| > CACHE_CAP
    ensures Distinct(c[..CACHE_CAP]) && Ordered(ops, c[..CACHE_CAP]) && Sound(ops, c[..CACHE_CAP])
  {
    hide UsedSince, LastPut;
  }

  lemma CutHolds(c: seq<Entry>, n: nat, i: nat)
    requires i < |c| && n <= |c|
    ensures i < n ==> Holds(c[..n], c[i].ip)
  {
    if i < n {
      assert c[..n][i] == c[i];
    }
  }

  lemma PutComplete(ops: Run, c: seq<Entry>)
    requires ops != [] && Final(ops).Put? && Good(Init(ops), c)
    ensures Complete(ops, Step(c, Final(ops)))
  {
    var Put(now, ip, host) := Final(ops);
    var e := Entry(ip, host, now + Ttl(host));
    var grown := [e] + Drop(c, ip);
    var c' := Step(c, Final(ops));
    FrontOrdered(ops, c, e);
    forall k {:trigger LastPut(ops, k)} | LastPut(ops, k).Some? && !Holds(c', k) ensures Gone(ops, k) {
      assert c'[0] == e;
      FrontHolds(e, Drop(c, ip), k);
      DropHolds(c, ip, k);
      if Holds(grown, k) {
        var i :| 0 <= i < |grown| && grown[i].ip == k;
        CutHolds(grown, |c'|, i);
        BehindMany(ops, grown, i);
      } else {
        StillGone(ops, c, k);
      }
    }
  }

  /** What was gone before a call on another key is gone after it. */
  lemma StillGone(ops: Run, c: seq<Entry>, k: string)
    requires ops != [] && Complete(Init(ops), c) && LastPut(Init(ops), k).Some?
    requires LastPut(ops, k) == LastPut(Init(ops), k) && (Final(ops).ip != k || !Uses(ops))
    ensures !Holds(c, k) ==> Gone(ops, k)
  {
    if !Holds(c, k) {
      assert Gone(Init(ops), k);
      var put := LastPut(ops, k).value;
      if ExpiredDuring(Init(ops), put) {
        var i :| 0 <= i < |Init(ops)| && Expired(put, Init(ops)[i].now);
        assert Expired(put, ops[i].now);
      } else {
        SubsetSize(UsedSince(Init(ops), k), UsedSince(ops, k));
      }
    }
  }

  lemma GetGood(ops: Run, c: seq<Entry>)
    requires ops != [] && Final(ops).Get? && c == After(Init(ops)) && Good(Init(ops), c)
    ensures Good(ops, Step(c, Final(ops)))
  {
    var Get(now, ip) := Final(ops);
    var c' := Step(c, Final(ops));
    var p := Position(c, ip);
    DropFacts(c, ip);
    if p < |c| && now <= c[p].exp {
      FrontOrdered(ops, c, c[p]);
    } else if p < |c| {
      forall i, j | 0 <= i < j < |c'| ensures c'[i].ip in UsedSince(ops, c'[j].ip) {
        var x, y := DropOrder(c, ip, i, j);
        assert c[x].ip in UsedSince(Init(ops), c[y].ip);
      }
    }
    assert forall x :: x in c' ==> x in c;
    GetComplete(ops, c);
  }

  lemma GetComplete(ops: Run, c: seq<Entry>)
    requires ops != [] && Final(ops).Get? && c == After(Init(ops)) && Good(Init(ops), c)
    ensures Complete(ops, Step(c, Final(ops)))
  {
    var Get(now, ip) := Final(ops);
    var c' := Step(c, Final(ops));
    DropFacts(c, ip);
    forall k {:trigger LastPut(ops, k)} | LastPut(ops, k).Some? && !Holds(c', k) ensures Gone(ops, k) {
      assert LastPut(ops, k) == LastPut(Init(ops), k);
      if Holds(c, k) {
        var i :| 0 <= i < |c| && c[i].ip == k;
        OnlyExpiredDropped(c, now, ip, i);
        assert FromPut(c[i], LastPut(Init(ops), k)) by {
          assert c[i] in c;
        }
        assert Expired(LastPut(ops, k).value, ops[|ops| - 1].now);
      } else {
        assert Uses(ops) ==> Holds(c, ip);
        StillGone(ops, c, k);
      }
    }
  }

  /** A get loses a key only when it is the key asked for and its entry has expired. */
  lemma OnlyExpiredDropped(c: seq<Entry>, now: Instant, ip: string, i: nat)
    requires Distinct(c) && i < |c| && !Holds(AfterGet(c, now, ip), c[i].ip)
    ensures c[i].ip == ip && now > c[i].exp
  {
    var (p, k) := (Position(c, ip), c[i].ip);
    assert Holds(c, k);
    DropHolds(c, ip, k);
    if p < |c| {
      FrontHolds(c[p], Drop(c, ip), k);
    }
  }

  /** Every run keeps the invariant, whatever the clock does. */
  lemma {:induction false} RunGood(ops: Run)
    ensures Good(ops, After(ops)) && |After(ops)| <= 4096
  {
    if ops == [] {
    } else {
      RunGood(Init(ops));
      if Final(ops).Put? {
        PutGood(ops, After(Init(ops)));
      } else {
        GetGood(ops, After(Init(ops)));
        DropFacts(After(Init(ops)), Final(ops).ip);
      }
    }
  }

  // ---------------------------------------------------------- what callers see

  /** A hit returns the last result put for the key, and that result has not outlived its TTL. */
  lemma HitsAreFresh(ops: Run, now: Instant, ip: string, host: Host)
    requires GetAnswer(After(ops), now, ip) == Hit(host)
    ensures LastPut(ops, ip).Some? && LastPut(ops, ip).value.0 == host
    ensures now <= LastPut(ops, ip).value.1 + (if host.Some? then 21_600_000_000_000 else 60_000_000_000)
  {
    RunGood(ops);
    var c := After(ops);
    assert c[Position(c, ip)] in c;
  }

  /**
   * A miss has a reason: the key was never put, its last result has outlived its TTL, or
   * CACHE_CAP other keys were used since it was.
   */
  lemma MissesAreExplained(ops: Run, now: Instant, ip: string)
    requires Monotone(ops) && (forall i :: 0 <= i < |ops| ==> ops[i].now <= now)
    requires GetAnswer(After(ops), now, ip) == Miss && LastPut(ops, ip).Some?
    ensures var (host, put) := LastPut(ops, ip).value;
            || now > put + (if host.Some? then 21_600_000_000_000 else 60_000_000_000)
            || |UsedSince(ops, ip)| >= 4096
  {
    RunGood(ops);
    var c := After(ops);
    if Holds(c, ip) {
      assert c[Position(c, ip)] in c;
    } else {
      assert Gone(ops, ip);
    }
  }

  /** After a get the key is in the cache exactly when the get hit: an expired entry is not kept. */
  lemma HeldIfHit(ops: Run)
    requires ops != [] && Final(ops).Get?
    ensures Holds(After(ops), Final(ops).ip) <==> GetAnswer(After(Init(ops)), Final(ops).now, Final(ops).ip).Hit?
  {
    var (c, ip) := (After(Init(ops)), Final(ops).ip);
    RunGood(Init(ops));
    DropFacts(c, ip);
    var p := Position(c, ip);
    if p < |c| {
      FrontHolds(c[p], Drop(c, ip), ip);
    }
    hide Good;
  }
}
