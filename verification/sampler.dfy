/** web/netmon/netmon.go `runSampler`: whole runs of the bandwidth sampler. */
module Sampler {
  import opened Bandwidth
  import opened Options

  /** One turn of the loop: the established sockets, unless both dumps failed; the clock; the listeners. */
  datatype Tick = Tick(snap: Option<Snap>, now: real, listeners: seq<Listener>)

  /** One publication: two consecutive successful snapshots and the time between them. */
  datatype Step = Step(prev: Snap, cur: Snap, dt: real, listeners: seq<Listener>)

  /** The publications of a run: a failed snapshot leaves prev and its time as they are. */
  function Steps(prev: Snap, tprev: real, ticks: seq<Tick>): seq<Step>
    decreases |ticks|
  {
    if ticks == [] then []
    else match ticks[0].snap
      case None => Steps(prev, tprev, ticks[1..])
      case Some(cur) =>
        [Step(prev, cur, ticks[0].now - tprev, ticks[0].listeners)]
        + Steps(cur, ticks[0].now, ticks[1..])
  }

  function Initial(first: Option<Snap>): Snap {
    match first case None => map[] case Some(s) => s
  }

  /** The turns whose snapshot was taken. */
  function Taken(ticks: seq<Tick>): (taken: seq<Tick>)
    ensures forall i :: 0 <= i < |taken| ==> taken[i].snap.Some?
  {
    if ticks == [] then [] else (if ticks[0].snap.Some? then [ticks[0]] else []) + Taken(ticks[1..])
  }

  /** There is one publication a turn taken: from that turn and the one taken before it, or the initial snapshot. */
  lemma {:induction false} StepsAreTaken(prev: Snap, tprev: real, ticks: seq<Tick>, i: nat)
    requires i < |Taken(ticks)|
    ensures |Steps(prev, tprev, ticks)| == |Taken(ticks)|
    ensures var (taken, step) := (Taken(ticks), Steps(prev, tprev, ticks)[i]);
            && step.cur == taken[i].snap.value && step.listeners == taken[i].listeners
            && step.prev == (if i == 0 then prev else taken[i - 1].snap.value)
            && step.dt == taken[i].now - (if i == 0 then tprev else taken[i - 1].now)
    decreases |ticks|
  {
    match ticks[0].snap
    case None => StepsAreTaken(prev, tprev, ticks[1..], i);
    case Some(cur) =>
      if i > 0 {
        StepsAreTaken(cur, ticks[0].now, ticks[1..], i - 1);
      } else if Taken(ticks[1..]) != [] {
        StepsAreTaken(cur, ticks[0].now, ticks[1..], 0);
      } else {
        NothingTaken(cur, ticks[0].now, ticks[1..]);
      }
  }

  lemma {:induction false} NothingTaken(prev: Snap, tprev: real, ticks: seq<Tick>)
    requires Taken(ticks) == []
    ensures Steps(prev, tprev, ticks) == []
    decreases |ticks|
  {
    if ticks != [] {
      NothingTaken(prev, tprev, ticks[1..]);
    }
  }

  ghost predicate Publishes(w: World, step: Step, st: Snapshot) {
    IsSnapshot(w, step.prev, step.cur, step.dt, step.listeners, st)
  }

  ghost predicate AllPublished(w: World, steps: seq<Step>, published: seq<Snapshot>) {
    |published| == |steps| && forall i :: 0 <= i < |steps| ==> Publishes(w, steps[i], published[i])
  }

  lemma PublishNext(w: World, steps: seq<Step>, published: seq<Snapshot>, step: Step, st: Snapshot)
    requires AllPublished(w, steps, published) && Publishes(w, step, st)
    ensures AllPublished(w, steps + [step], published + [st])
  {
    hide Publishes;
  }

  lemma StepsNext(prev: Snap, tprev: real, ticks: seq<Tick>, i: nat)
    requires i < |ticks|
    ensures Steps(prev, tprev, ticks[i..]) == match ticks[i].snap
            case None => Steps(prev, tprev, ticks[i + 1..])
            case Some(cur) =>
              [Step(prev, cur, ticks[i].now - tprev, ticks[i].listeners)] + Steps(cur, ticks[i].now, ticks[i + 1..])
  {
    assert ticks[i..][0] == ticks[i] && ticks[i..][1..] == ticks[i + 1..];
  }

  /** The sampler loop over a run of any length: one snapshot a successful tick, built from the right pair. */
  method RunSampler(w: World, first: Option<Snap>, t0: real, ticks: seq<Tick>) returns (published: seq<Snapshot>)
    ensures AllPublished(w, Steps(Initial(first), t0, ticks), published)
  {
    hide IsSnapshot, AllPublished;
    var prev: Snap := map[];
    if first.Some? {
      prev := first.value;
    }
    var tprev := t0;
    published := [];
    ghost var done: seq<Step> := [];
    NothingPublished(w);
    for i := 0 to |ticks|
      invariant Steps(Initial(first), t0, ticks) == done + Steps(prev, tprev, ticks[i..])
      invariant AllPublished(w, done, published)
    {
      hide Steps;
      StepsNext(prev, tprev, ticks, i);
      if ticks[i].snap.Some? {
        var cur, tcur := ticks[i].snap.value, ticks[i].now;
        var dt := tcur - tprev;
        var st := Build(w, prev, cur, dt, ticks[i].listeners);
        ghost var step := Step(prev, cur, dt, ticks[i].listeners);
        PublishNext(w, done, published, step, st);
        assert done + ([step] + Steps(cur, tcur, ticks[i + 1..])) == done + [step] + Steps(cur, tcur, ticks[i + 1..]);
        done := done + [step];
        published := published + [st];
        prev, tprev := cur, tcur;
      }
    }
    assert done + [] == done;
  }

  lemma NothingPublished(w: World)
    ensures AllPublished(w, [], [])
  {}

  // What the rates add up to

  /** One counter of one socket in a snapshot. */
  type Counter = Snap -> Option<nat>

  function RxCounter(key: ConnKey): Counter {
    (s: Snap) => RxBefore(s, key)
  }

  function TxCounter(key: ConnKey): Counter {
    (s: Snap) => TxBefore(s, key)
  }

  function Carry(step: Step, c: Counter): real {
    Rate(c(step.prev), c(step.cur), step.dt) * step.dt
  }

  /** The published rate of a counter times the time it stands for, over all publications. */
  function Carried(steps: seq<Step>, c: Counter): real {
    if steps == [] then 0.0
    else Carry(steps[0], c) + Carried(steps[1..], c)
  }

  /** How much a counter grew from one snapshot to the next; a reset counts as no growth. */
  function Growth(a: Option<nat>, b: Option<nat>): nat {
    if a.Some? && b.Some? then SatSub(b.value, a.value) else 0
  }

  function Grown(snaps: seq<Snap>, c: Counter): nat {
    if |snaps| < 2 then 0 else Growth(c(snaps[0]), c(snaps[1])) + Grown(snaps[1..], c)
  }

  /** The successful snapshots of the loop. */
  function Successes(ticks: seq<Tick>): seq<Snap> {
    if ticks == [] then []
    else match ticks[0].snap case None => Successes(ticks[1..]) case Some(s) => [s] + Successes(ticks[1..])
  }

  function AllSuccesses(first: Option<Snap>, ticks: seq<Tick>): seq<Snap> {
    (match first case None => [] case Some(s) => [s]) + Successes(ticks)
  }

  predicate ClockAdvances(t0: real, ticks: seq<Tick>)
    decreases |ticks|
  {
    ticks == [] || (t0 < ticks[0].now && ClockAdvances(ticks[0].now, ticks[1..]))
  }

  predicate HasRates(row: ConnRow, step: Step, key: ConnKey) {
    && row.rx == Rate(RxCounter(key)(step.prev), RxCounter(key)(step.cur), step.dt)
    && row.tx == Rate(TxCounter(key)(step.prev), TxCounter(key)(step.cur), step.dt)
  }

  /** The connection row of a socket carries the rates of its counters. */
  lemma RowsCarryTheRates(w: World, step: Step, order: seq<ConnKey>, procs: seq<ProcessRow>, st: Snapshot, key: ConnKey)
    requires Describes(w, step.prev, step.cur, step.dt, step.listeners, order, procs, st) && key in step.cur
    ensures exists i ::
      && 0 <= i < |order| && order[i] == key
      && HasRates(RowsOf(SocketsOf(w, step.prev, step.cur, step.dt, order))[i], step, key)
  {
    hide OneRowEach, Tallied;
    assert key in order;
    var i :| 0 <= i < |order| && order[i] == key;
    assert RowsOf(SocketsOf(w, step.prev, step.cur, step.dt, order))[i]
      == RowOf(w, step.prev, step.dt, key, step.cur[key]);
  }

  lemma RateTimesTime(step: Step, c: Counter)
    requires step.dt > 0.0
    ensures Carry(step, c) == Growth(c(step.prev), c(step.cur)) as real
  {}

  lemma ClockLater(t0: real, t1: real, ticks: seq<Tick>)
    requires t0 <= t1 && ClockAdvances(t1, ticks)
    ensures ClockAdvances(t0, ticks)
  {}

  lemma {:induction false} StepsCarryGrowth(prev: Snap, tprev: real, ticks: seq<Tick>, c: Counter)
    requires ClockAdvances(tprev, ticks)
    ensures Carried(Steps(prev, tprev, ticks), c) == Grown([prev] + Successes(ticks), c) as real
    decreases |ticks|
  {
    if ticks == [] {
      assert Grown([prev], c) == 0;
    } else if ticks[0].snap.None? {
      ClockLater(tprev, ticks[0].now, ticks[1..]);
      StepsCarryGrowth(prev, tprev, ticks[1..], c);
    } else {
      var (cur, now) := (ticks[0].snap.value, ticks[0].now);
      StepsCarryGrowth(cur, now, ticks[1..], c);
      var (step, later) := (Step(prev, cur, now - tprev, ticks[0].listeners), Steps(cur, now, ticks[1..]));
      RateTimesTime(step, c);
      CarriedNext(step, later, c);
      GrownNext(prev, cur, Successes(ticks[1..]), c);
      assert [prev] + ([cur] + Successes(ticks[1..])) == [prev, cur] + Successes(ticks[1..]);
      hide Carry, Growth, Carried, Grown;
    }
  }

  lemma CarriedNext(step: Step, later: seq<Step>, c: Counter)
    ensures Carried([step] + later, c) == Carry(step, c) + Carried(later, c)
  {
    assert ([step] + later)[1..] == later;
  }

  lemma GrownNext(a: Snap, b: Snap, later: seq<Snap>, c: Counter)
    ensures Grown([a, b] + later, c) == Growth(c(a), c(b)) + Grown([b] + later, c)
  {
    assert ([a, b] + later)[1..] == [b] + later;
  }

  /**
   * Published rate times time adds up to the growth between successive successful snapshots: failed snapshots,
   * even the initial one, lose nothing.
   */
  lemma RatesAddUpToGrowth(first: Option<Snap>, t0: real, ticks: seq<Tick>, key: ConnKey, c: Counter)
    requires ClockAdvances(t0, ticks) && (c == RxCounter(key) || c == TxCounter(key))
    ensures Carried(Steps(Initial(first), t0, ticks), c) == Grown(AllSuccesses(first, ticks), c) as real
  {
    StepsCarryGrowth(Initial(first), t0, ticks, c);
    var snaps := [Initial(first)] + Successes(ticks);
    if first.None? {
      assert AllSuccesses(first, ticks) == Successes(ticks) == snaps[1..];
      assert c(map[]).None?;
    }
  }

  // The rows behind the published snapshots

  function CounterOf(key: ConnKey, down: bool): Counter {
    if down then RxCounter(key) else TxCounter(key)
  }

  /** The orders in which the sockets of the publications were walked. */
  ghost predicate Walks(steps: seq<Step>, orders: seq<seq<ConnKey>>) {
    |orders| == |steps| && forall i :: 0 <= i < |steps| ==> Enumerates(orders[i], steps[i].cur)
  }

  /** The rate in the row of a socket before the cap, or zero when the snapshot has no such socket. */
  ghost function RateInRow(w: World, step: Step, order: seq<ConnKey>, key: ConnKey, down: bool): real
    requires Enumerates(order, step.cur)
  {
    if key !in step.cur then 0.0 else
      assert key in order;
      var i :| 0 <= i < |order| && order[i] == key;
      var row := RowsOf(SocketsOf(w, step.prev, step.cur, step.dt, order))[i];
      if down then row.rx else row.tx
  }

  /** That rate times the time it stands for. */
  ghost function RowCarry(w: World, step: Step, order: seq<ConnKey>, key: ConnKey, down: bool): real
    requires Enumerates(order, step.cur)
  {
    RateInRow(w, step, order, key, down) * step.dt
  }

  lemma RowCarryIsCarry(w: World, step: Step, order: seq<ConnKey>, key: ConnKey, down: bool)
    requires Enumerates(order, step.cur)
    ensures RowCarry(w, step, order, key, down) == Carry(step, CounterOf(key, down))
  {
    RowRateIsRate(w, step, order, key, down);
    hide RateInRow, CounterOf, Rate;
  }

  lemma RowRateIsRate(w: World, step: Step, order: seq<ConnKey>, key: ConnKey, down: bool)
    requires Enumerates(order, step.cur)
    ensures var c := CounterOf(key, down);
            RateInRow(w, step, order, key, down) == Rate(c(step.prev), c(step.cur), step.dt)
  {
    if key in step.cur {
      assert key in order;
    }
  }

  /** Row rate times time over all publications. */
  ghost function RowsCarry(w: World, steps: seq<Step>, orders: seq<seq<ConnKey>>, key: ConnKey, down: bool): real
    requires Walks(steps, orders)
  {
    if steps == [] then 0.0
    else RowCarry(w, steps[0], orders[0], key, down) + RowsCarry(w, steps[1..], orders[1..], key, down)
  }

  lemma {:induction false} RowsCarryCounters(
      w: World, steps: seq<Step>, orders: seq<seq<ConnKey>>, key: ConnKey, down: bool)
    requires Walks(steps, orders)
    ensures RowsCarry(w, steps, orders, key, down) == Carried(steps, CounterOf(key, down))
    decreases |steps|
  {
    hide RowCarry, CounterOf, Carry;
    if steps != [] {
      RowCarryIsCarry(w, steps[0], orders[0], key, down);
      RowsCarryCounters(w, steps[1..], orders[1..], key, down);
    }
  }

  /** The published snapshot was built from its sockets in this order. */
  ghost predicate WalkedAs(w: World, step: Step, order: seq<ConnKey>, st: Snapshot) {
    exists procs :: Describes(w, step.prev, step.cur, step.dt, step.listeners, order, procs, st)
  }

  ghost predicate AllWalked(w: World, steps: seq<Step>, orders: seq<seq<ConnKey>>, published: seq<Snapshot>) {
    && |orders| == |steps| == |published|
    && forall i :: 0 <= i < |steps| ==> WalkedAs(w, steps[i], orders[i], published[i])
  }

  lemma OneWalk(w: World, step: Step, st: Snapshot) returns (order: seq<ConnKey>)
    requires Publishes(w, step, st)
    ensures WalkedAs(w, step, order, st) && Enumerates(order, step.cur)
  {
    var procs;
    order, procs :| Describes(w, step.prev, step.cur, step.dt, step.listeners, order, procs, st);
    hide OneRowEach, Tallied;
  }

  /** Every list of published snapshots was walked in some orders. */
  lemma WalksOf(w: World, steps: seq<Step>, published: seq<Snapshot>) returns (orders: seq<seq<ConnKey>>)
    requires AllPublished(w, steps, published)
    ensures Walks(steps, orders) && AllWalked(w, steps, orders, published)
  {
    hide WalkedAs, Publishes;
    orders := [];
    for i := 0 to |steps|
      invariant |orders| == i
      invariant forall j :: 0 <= j < i ==>
        WalkedAs(w, steps[j], orders[j], published[j]) && Enumerates(orders[j], steps[j].cur)
    {
      var order := OneWalk(w, steps[i], published[i]);
      orders := orders + [order];
    }
  }

  /** The rows behind the snapshots a run publishes carry exactly the growth of the counters of every socket. */
  lemma PublishedRowsAddUpToGrowth(
      w: World, first: Option<Snap>, t0: real, ticks: seq<Tick>, published: seq<Snapshot>, key: ConnKey, down: bool)
    returns (orders: seq<seq<ConnKey>>)
    requires ClockAdvances(t0, ticks) && AllPublished(w, Steps(Initial(first), t0, ticks), published)
    ensures var steps := Steps(Initial(first), t0, ticks);
            && Walks(steps, orders) && AllWalked(w, steps, orders, published)
            && RowsCarry(w, steps, orders, key, down) == Grown(AllSuccesses(first, ticks), CounterOf(key, down)) as real
  {
    var steps := Steps(Initial(first), t0, ticks);
    orders := WalksOf(w, steps, published);
    hide Steps, AllSuccesses, Grown, Carried, AllWalked, Walks;
    RowsCarryCounters(w, steps, orders, key, down);
    RatesAddUpToGrowth(first, t0, ticks, key, CounterOf(key, down));
  }

  predicate AlwaysKnown(snaps: seq<Snap>, c: Counter) {
    forall i :: 0 <= i < |snaps| ==> c(snaps[i]).Some?
  }

  predicate NeverFalls(snaps: seq<Snap>, c: Counter)
    requires AlwaysKnown(snaps, c)
  {
    forall i :: 0 < i < |snaps| ==> c(snaps[i - 1]).value <= c(snaps[i]).value
  }

  /** The growth is the last value minus the first exactly when the counter never falls, and more otherwise. */
  lemma {:induction false} GrowthTelescopesExactly(snaps: seq<Snap>, c: Counter)
    requires snaps != [] && AlwaysKnown(snaps, c)
    ensures Grown(snaps, c) >= c(snaps[|snaps| - 1]).value - c(snaps[0]).value
    ensures Grown(snaps, c) == c(snaps[|snaps| - 1]).value - c(snaps[0]).value <==> NeverFalls(snaps, c)
    decreases |snaps|
  {
    if |snaps| > 1 {
      var rest := snaps[1..];
      GrowthTelescopesExactly(rest, c);
      assert rest[0] == snaps[1] && rest[|rest| - 1] == snaps[|snaps| - 1];
      if NeverFalls(rest, c) && c(snaps[0]).value <= c(snaps[1]).value {
        forall i | 0 < i < |snaps| ensures c(snaps[i - 1]).value <= c(snaps[i]).value {
          assert i > 1 ==> rest[i - 1] == snaps[i] && rest[i - 2] == snaps[i - 1];
        }
      }
      if NeverFalls(snaps, c) {
        forall i | 0 < i < |rest| ensures c(rest[i - 1]).value <= c(rest[i]).value {
          assert rest[i] == snaps[i + 1] && rest[i - 1] == snaps[i];
        }
        assert c(snaps[1 - 1]).value <= c(snaps[1]).value;
      }
    }
  }

  /**
   * For a socket that every successful snapshot holds with a counter that never falls, nothing is lost or
   * counted twice.
   */
  lemma RunTelescopes(first: Option<Snap>, t0: real, ticks: seq<Tick>, key: ConnKey, c: Counter)
    requires ClockAdvances(t0, ticks) && (c == RxCounter(key) || c == TxCounter(key))
    requires var snaps := AllSuccesses(first, ticks); snaps != [] && AlwaysKnown(snaps, c) && NeverFalls(snaps, c)
    ensures var snaps := AllSuccesses(first, ticks);
            Carried(Steps(Initial(first), t0, ticks), c) == (c(snaps[|snaps| - 1]).value - c(snaps[0]).value) as real
  {
    hide Steps, Carried, AllSuccesses;
    RatesAddUpToGrowth(first, t0, ticks, key, c);
    GrowthTelescopesExactly(AllSuccesses(first, ticks), c);
  }
}
