/**
 * The non-blocking resolver of web/netmon/rdns.go as a protocol: any number of callers of
 * `resolve` and a pool of workers, interleaved at each lock, channel operation and lookup.
 */
module RdnsProtocol {
  import opened Bits
  import opened Lists

  const QUEUE_CAP: nat := 256
  const POOL_SIZE: nat := 8

  /** Where a caller stands inside `resolve`. */
  datatype Caller =
    | Idle
    | Missed(ip: string)     // cacheGet reported a miss
    | Claimed(ip: string)    // ip was put in the in-flight set by this caller
    | Dropping(ip: string)   // the queue was full: ip is about to leave the in-flight set

  /** Where a worker stands in its loop. */
  datatype Worker =
    | Waiting
    | Looking(ip: string)    // received ip, PTR lookup under way
    | Published(ip: string)  // cachePut done, ip not yet out of the in-flight set

  datatype State = State(callers: seq<Caller>, inflight: set<string>, queue: seq<string>, workers: seq<Worker>)

  ghost predicate Initial(s: State) {
    && (forall t :: 0 <= t < |s.callers| ==> s.callers[t] == Idle)
    && s.inflight == {} && s.queue == []
    && |s.workers| == POOL_SIZE
    && (forall w :: 0 <= w < |s.workers| ==> s.workers[w] == Waiting)
  }

  // ---------------------------------------------------------- atomic steps

  datatype Event =
    | Start(t: nat, ip: string)   // resolve(ip) is called and cacheGet misses
    | Claim(t: nat)               // the critical section over the in-flight set
    | Send(t: nat)                // the select with a default branch
    | Unclaim(t: nat)             // delete(inflight, ip) in the default branch
    | Receive(w: nat)             // for ip := range queue
    | Publish(w: nat)             // the lookup returns and cachePut stores its result
    | Release(w: nat)             // delete(inflight, ip) in the worker

  predicate Enabled(s: State, e: Event) {
    match e
    case Start(t, _) => t < |s.callers| && s.callers[t].Idle?
    case Claim(t) => t < |s.callers| && s.callers[t].Missed?
    case Send(t) => t < |s.callers| && s.callers[t].Claimed?
    case Unclaim(t) => t < |s.callers| && s.callers[t].Dropping?
    case Receive(w) => w < |s.workers| && s.workers[w].Waiting? && s.queue != []
    case Publish(w) => w < |s.workers| && s.workers[w].Looking?
    case Release(w) => w < |s.workers| && s.workers[w].Published?
  }

  function Next(s: State, e: Event): State
    requires Enabled(s, e)
  {
    match e
    case Start(t, ip) => s.(callers := s.callers[t := Missed(ip)])
    case Claim(t) =>
      var ip := s.callers[t].ip;
      if ip in s.inflight then s.(callers := s.callers[t := Idle])
      else s.(callers := s.callers[t := Claimed(ip)], inflight := s.inflight + {ip})
    case Send(t) =>
      var ip := s.callers[t].ip;
      if |s.queue| < QUEUE_CAP then s.(callers := s.callers[t := Idle], queue := s.queue + [ip])
      else s.(callers := s.callers[t := Dropping(ip)])
    case Unclaim(t) => s.(callers := s.callers[t := Idle], inflight := s.inflight - {s.callers[t].ip})
    case Receive(w) => s.(queue := s.queue[1..], workers := s.workers[w := Looking(s.queue[0])])
    case Publish(w) => s.(workers := s.workers[w := Published(s.workers[w].ip)])
    case Release(w) => s.(workers := s.workers[w := Waiting], inflight := s.inflight - {s.workers[w].ip})
  }

  // ---------------------------------------------------------- who holds an address

  /** Whether a caller has ip in hand between its two critical sections. */
  function CallerHolds(c: Caller, ip: string): nat {
    Bit((c.Claimed? || c.Dropping?) && c.ip == ip)
  }

  function WorkerHolds(w: Worker, ip: string): nat {
    Bit(w != Waiting && w.ip == ip)
  }

  function CallersHold(cs: seq<Caller>, ip: string): nat {
    if cs == [] then 0 else CallersHold(cs[..|cs| - 1], ip) + CallerHolds(cs[|cs| - 1], ip)
  }

  function WorkersHold(ws: seq<Worker>, ip: string): nat {
    if ws == [] then 0 else WorkersHold(ws[..|ws| - 1], ip) + WorkerHolds(ws[|ws| - 1], ip)
  }

  /** How many times ip is being enqueued, queued, or held by a worker. */
  function Held(s: State, ip: string): nat {
    CallersHold(s.callers, ip) + Times(s.queue, ip) + WorkersHold(s.workers, ip)
  }

  /** The in-flight set is exactly the addresses held, each of them once. */
  ghost predicate HeldOnce(s: State) {
    forall ip :: Held(s, ip) == Bit(ip in s.inflight)
  }

  ghost predicate Safe(s: State) {
    HeldOnce(s) && |s.queue| <= QUEUE_CAP && |s.workers| == POOL_SIZE
  }

  lemma {:induction false} CallerUpdate(cs: seq<Caller>, t: nat, c: Caller, ip: string)
    requires t < |cs|
    ensures CallersHold(cs[t := c], ip) + CallerHolds(cs[t], ip) == CallersHold(cs, ip) + CallerHolds(c, ip)
    decreases |cs|
  {
    var (last, front, after) := (|cs| - 1, cs[..|cs| - 1], cs[t := c]);
    if t == last {
      assert after[..last] == front;
    } else {
      CallerUpdate(front, t, c, ip);
      assert after[..last] == front[t := c];
    }
  }

  lemma {:induction false} WorkerUpdate(ws: seq<Worker>, w: nat, x: Worker, ip: string)
    requires w < |ws|
    ensures WorkersHold(ws[w := x], ip) + WorkerHolds(ws[w], ip) == WorkersHold(ws, ip) + WorkerHolds(x, ip)
    decreases |ws|
  {
    var (last, front, after) := (|ws| - 1, ws[..|ws| - 1], ws[w := x]);
    if w == last {
      assert after[..last] == front;
    } else {
      WorkerUpdate(front, w, x, ip);
      assert after[..last] == front[w := x];
    }
  }

  lemma QueuePop(q: seq<string>, ip: string)
    requires q != []
    ensures Times(q, ip) == Bit(q[0] == ip) + Times(q[1..], ip)
  {
    TimesWithout(q, 0, ip);
    assert q[..0] + q[0 + 1..] == q[1..];
  }

  lemma {:induction false} NobodyHolds(cs: seq<Caller>, ws: seq<Worker>, ip: string)
    requires forall t :: 0 <= t < |cs| ==> CallerHolds(cs[t], ip) == 0
    requires forall w :: 0 <= w < |ws| ==> WorkerHolds(ws[w], ip) == 0
    ensures CallersHold(cs, ip) == 0 && WorkersHold(ws, ip) == 0
    decreases |cs| + |ws|
  {
    if cs != [] {
      NobodyHolds(cs[..|cs| - 1], ws, ip);
    } else if ws != [] {
      NobodyHolds(cs, ws[..|ws| - 1], ip);
    }
  }

  lemma {:induction false} SomeCallerHolds(cs: seq<Caller>, t: nat, ip: string)
    requires t < |cs| && CallerHolds(cs[t], ip) == 1
    ensures CallersHold(cs, ip) >= 1
    decreases |cs|
  {
    if t < |cs| - 1 {
      SomeCallerHolds(cs[..|cs| - 1], t, ip);
    }
  }

  lemma InitialSafe(s: State)
    requires Initial(s)
    ensures Safe(s)
  {
    forall ip ensures Held(s, ip) == Bit(ip in s.inflight) {
      NobodyHolds(s.callers, s.workers, ip);
    }
  }

  /** Each step changes what is held exactly as it changes the in-flight set. */
  lemma CallerStep(s: State, e: Event, ip: string)
    requires Safe(s) && Enabled(s, e) && (e.Start? || e.Claim? || e.Send? || e.Unclaim?)
    ensures Held(Next(s, e), ip) == Bit(ip in Next(s, e).inflight)
  {
    var (t, n) := (e.t, Next(s, e));
    assert Held(s, ip) == Bit(ip in s.inflight);
    CallerUpdate(s.callers, t, n.callers[t], ip);
    if e.Send? && |s.queue| < QUEUE_CAP {
      TimesPush(s.queue, s.callers[t].ip, ip);
    }
    if e.Unclaim? {
      SomeCallerHolds(s.callers, t, s.callers[t].ip);
    }
    hide CallersHold, WorkersHold, Times;
  }

  lemma WorkerStep(s: State, e: Event, ip: string)
    requires Safe(s) && Enabled(s, e) && (e.Receive? || e.Publish? || e.Release?)
    ensures Held(Next(s, e), ip) == Bit(ip in Next(s, e).inflight)
  {
    var (w, n) := (e.w, Next(s, e));
    assert Held(s, ip) == Bit(ip in s.inflight);
    WorkerUpdate(s.workers, w, n.workers[w], ip);
    if e.Receive? {
      QueuePop(s.queue, ip);
    }
    if e.Release? {
      OneWorkerHolds(s.workers, w, s.workers[w].ip);
    }
    hide CallersHold, WorkersHold, Times;
  }

  lemma StepSafe(s: State, e: Event)
    requires Safe(s) && Enabled(s, e)
    ensures Safe(Next(s, e))
  {
    forall ip ensures Held(Next(s, e), ip) == Bit(ip in Next(s, e).inflight) {
      if e.Receive? || e.Publish? || e.Release? {
        WorkerStep(s, e, ip);
      } else {
        CallerStep(s, e, ip);
      }
    }
  }

  // ---------------------------------------------------------- every interleaving

  /** es can be performed from s, one event after the other. */
  predicate Feasible(s: State, es: seq<Event>)
    decreases |es|
  {
    es == [] || (Enabled(s, es[0]) && Feasible(Next(s, es[0]), es[1..]))
  }

  function Outcome(s: State, es: seq<Event>): State
    requires Feasible(s, es)
    decreases |es|
  {
    if es == [] then s else Outcome(Next(s, es[0]), es[1..])
  }

  lemma {:induction false} RunSafe(s: State, es: seq<Event>)
    requires Safe(s) && Feasible(s, es)
    ensures Safe(Outcome(s, es))
    decreases |es|
  {
    if es != [] {
      StepSafe(s, es[0]);
      RunSafe(Next(s, es[0]), es[1..]);
    }
  }

  /** Every reachable state: the in-flight set is what is held, once each, and the queue is bounded. */
  lemma EveryInterleavingIsSafe(s: State, es: seq<Event>)
    requires Initial(s) && Feasible(s, es)
    ensures forall ip :: Held(Outcome(s, es), ip) == if ip in Outcome(s, es).inflight then 1 else 0
    ensures |Outcome(s, es).queue| <= 256 && |Outcome(s, es).workers| == 8
  {
    InitialSafe(s);
    RunSafe(s, es);
  }

  lemma {:induction false} TwoWorkersHold(ws: seq<Worker>, v: nat, w: nat, ip: string)
    requires v < w < |ws| && WorkerHolds(ws[v], ip) == WorkerHolds(ws[w], ip) == 1
    ensures WorkersHold(ws, ip) >= 2
    decreases |ws|
  {
    var front := ws[..|ws| - 1];
    if w == |ws| - 1 {
      OneWorkerHolds(front, v, ip);
    } else {
      TwoWorkersHold(front, v, w, ip);
    }
  }

  lemma {:induction false} OneWorkerHolds(ws: seq<Worker>, v: nat, ip: string)
    requires v < |ws| && WorkerHolds(ws[v], ip) == 1
    ensures WorkersHold(ws, ip) >= 1
    decreases |ws|
  {
    if v < |ws| - 1 {
      OneWorkerHolds(ws[..|ws| - 1], v, ip);
    }
  }

  /** No address is ever looked up by two workers at the same time. */
  lemma NoConcurrentLookups(s: State, es: seq<Event>, v: nat, w: nat)
    requires Initial(s) && Feasible(s, es)
    requires v < w < |Outcome(s, es).workers|
    requires Outcome(s, es).workers[v].Looking? && Outcome(s, es).workers[w].Looking?
    ensures Outcome(s, es).workers[v].ip != Outcome(s, es).workers[w].ip
  {
    EveryInterleavingIsSafe(s, es);
    var n := Outcome(s, es);
    assert WorkersHold(n.workers, n.workers[v].ip) <= Held(n, n.workers[v].ip) <= 1;
    if n.workers[v].ip == n.workers[w].ip {
      TwoWorkersHold(n.workers, v, w, n.workers[v].ip);
    }
  }

  // ---------------------------------------------------------- draining

  function CallerWork(c: Caller): nat {
    match c
    case Idle => 0
    case Missed(_) => 6
    case Claimed(_) => 5
    case Dropping(_) => 1
  }

  function WorkerWork(w: Worker): nat {
    match w
    case Waiting => 0
    case Looking(_) => 2
    case Published(_) => 1
  }

  function CallersWork(cs: seq<Caller>): nat {
    if cs == [] then 0 else CallersWork(cs[..|cs| - 1]) + CallerWork(cs[|cs| - 1])
  }

  function WorkersWork(ws: seq<Worker>): nat {
    if ws == [] then 0 else WorkersWork(ws[..|ws| - 1]) + WorkerWork(ws[|ws| - 1])
  }

  /** An upper bound on the number of steps left if no resolve starts. */
  function Work(s: State): nat {
    CallersWork(s.callers) + 3 * |s.queue| + WorkersWork(s.workers)
  }

  lemma {:induction false} CallersWorkUpdate(cs: seq<Caller>, t: nat, c: Caller)
    requires t < |cs|
    ensures CallersWork(cs[t := c]) + CallerWork(cs[t]) == CallersWork(cs) + CallerWork(c)
    decreases |cs|
  {
    var (last, front, after) := (|cs| - 1, cs[..|cs| - 1], cs[t := c]);
    if t == last {
      assert after[..last] == front;
    } else {
      CallersWorkUpdate(front, t, c);
      assert after[..last] == front[t := c];
    }
  }

  lemma {:induction false} WorkersWorkUpdate(ws: seq<Worker>, w: nat, x: Worker)
    requires w < |ws|
    ensures WorkersWork(ws[w := x]) + WorkerWork(ws[w]) == WorkersWork(ws) + WorkerWork(x)
    decreases |ws|
  {
    var (last, front, after) := (|ws| - 1, ws[..|ws| - 1], ws[w := x]);
    if w == last {
      assert after[..last] == front;
    } else {
      WorkersWorkUpdate(front, w, x);
      assert after[..last] == front[w := x];
    }
  }

  lemma StepWorks(s: State, e: Event)
    requires Enabled(s, e) && !e.Start?
    ensures Work(Next(s, e)) < Work(s)
  {
    var n := Next(s, e);
    if e.Receive? || e.Publish? || e.Release? {
      WorkersWorkUpdate(s.workers, e.w, n.workers[e.w]);
    } else {
      CallersWorkUpdate(s.callers, e.t, n.callers[e.t]);
    }
    hide CallersWork, WorkersWork;
  }

  /** Without new calls every run is short: it has at most Work(s) steps. */
  lemma {:induction false} DrainingEnds(s: State, es: seq<Event>)
    requires Feasible(s, es) && forall i :: 0 <= i < |es| ==> !es[i].Start?
    ensures |es| + Work(Outcome(s, es)) <= Work(s)
    decreases |es|
  {
    if es != [] {
      StepWorks(s, es[0]);
      DrainingEnds(Next(s, es[0]), es[1..]);
    }
  }

  /** While an address is in flight some step other than a new call can be taken. */
  lemma NeverStuck(s: State) returns (e: Event)
    requires Safe(s) && s.inflight != {}
    ensures !e.Start? && Enabled(s, e)
  {
    if t :| 0 <= t < |s.callers| && s.callers[t] != Idle {
      e := if s.callers[t].Missed? then Claim(t) else if s.callers[t].Claimed? then Send(t) else Unclaim(t);
    } else if w :| 0 <= w < |s.workers| && s.workers[w] != Waiting {
      e := if s.workers[w].Looking? then Publish(w) else Release(w);
    } else {
      var ip :| ip in s.inflight;
      NobodyHolds(s.callers, s.workers, ip);
      assert Held(s, ip) == 1;
      assert s.workers[0] == Waiting;
      e := Receive(0);
    }
  }

  /** Run long enough without new calls, every reachable state empties its in-flight set. */
  lemma {:induction false} DrainsToEmpty(s: State) returns (es: seq<Event>)
    requires Safe(s)
    ensures Feasible(s, es) && (forall i :: 0 <= i < |es| ==> !es[i].Start?)
    ensures Outcome(s, es).inflight == {} && |es| <= Work(s)
    decreases Work(s)
  {
    if s.inflight == {} {
      es := [];
    } else {
      var e := NeverStuck(s);
      StepSafe(s, e);
      StepWorks(s, e);
      var rest := DrainsToEmpty(Next(s, e));
      es := [e] + rest;
      assert es[1..] == rest;
    }
  }

  /** A run without new calls that cannot go on has emptied the in-flight set, whatever it did. */
  lemma StuckMeansEmpty(s: State, es: seq<Event>)
    requires Safe(s) && Feasible(s, es)
    requires forall e: Event :: !e.Start? ==> !Enabled(Outcome(s, es), e)
    ensures Outcome(s, es).inflight == {}
  {
    RunSafe(s, es);
    if Outcome(s, es).inflight != {} {
      var e := NeverStuck(Outcome(s, es));
    }
  }

  // ---------------------------------------------------------- what becomes of an address

  /** The addresses put in flight by a run: those a caller missed that were not in flight. */
  function Claims(s: State, es: seq<Event>): seq<string>
    requires Feasible(s, es)
    decreases |es|
  {
    if es == [] then [] else
      (if es[0].Claim? && s.callers[es[0].t].ip !in s.inflight then [s.callers[es[0].t].ip] else [])
      + Claims(Next(s, es[0]), es[1..])
  }

  /** The addresses looked up by a run. */
  function LookedUp(s: State, es: seq<Event>): seq<string>
    requires Feasible(s, es)
    decreases |es|
  {
    if es == [] then [] else
      (if es[0].Publish? then [s.workers[es[0].w].ip] else []) + LookedUp(Next(s, es[0]), es[1..])
  }

  /** The addresses given up by a run. */
  function Dropped(s: State, es: seq<Event>): seq<string>
    requires Feasible(s, es)
    decreases |es|
  {
    if es == [] then [] else
      (if es[0].Unclaim? then [s.callers[es[0].t].ip] else []) + Dropped(Next(s, es[0]), es[1..])
  }

  function Looks(w: Worker, ip: string): nat {
    Bit(w.Looking? && w.ip == ip)
  }

  function WorkersLook(ws: seq<Worker>, ip: string): nat {
    if ws == [] then 0 else WorkersLook(ws[..|ws| - 1], ip) + Looks(ws[|ws| - 1], ip)
  }

  /** How many times ip is claimed, queued or being looked up. */
  function Pending(s: State, ip: string): nat {
    CallersHold(s.callers, ip) + Times(s.queue, ip) + WorkersLook(s.workers, ip)
  }

  lemma {:induction false} LookUpdate(ws: seq<Worker>, w: nat, x: Worker, ip: string)
    requires w < |ws|
    ensures WorkersLook(ws[w := x], ip) + Looks(ws[w], ip) == WorkersLook(ws, ip) + Looks(x, ip)
    decreases |ws|
  {
    var (last, front, after) := (|ws| - 1, ws[..|ws| - 1], ws[w := x]);
    if w == last {
      assert after[..last] == front;
    } else {
      LookUpdate(front, w, x, ip);
      assert after[..last] == front[w := x];
    }
  }

  lemma PendingStep(s: State, e: Event, ip: string)
    requires Enabled(s, e)
    ensures Pending(Next(s, e), ip) + Bit(e.Publish? && s.workers[e.w].ip == ip)
              + Bit(e.Unclaim? && s.callers[e.t].ip == ip)
         == Pending(s, ip) + Bit(e.Claim? && s.callers[e.t].ip !in s.inflight && s.callers[e.t].ip == ip)
  {
    var n := Next(s, e);
    if e.Receive? || e.Publish? || e.Release? {
      LookUpdate(s.workers, e.w, n.workers[e.w], ip);
      if e.Receive? {
        QueuePop(s.queue, ip);
      }
    } else {
      CallerUpdate(s.callers, e.t, n.callers[e.t], ip);
      if e.Send? && |s.queue| < QUEUE_CAP {
        TimesPush(s.queue, s.callers[e.t].ip, ip);
      }
    }
    hide CallersHold, WorkersLook, Times;
  }

  lemma TimesFront(xs: seq<string>, ys: seq<string>, ip: string)
    requires |xs| <= 1
    ensures Times(xs + ys, ip) == (if xs == [] then 0 else Bit(xs[0] == ip)) + Times(ys, ip)
  {
    if xs == [] {
      assert xs + ys == ys;
    } else {
      QueuePop(xs + ys, ip);
      assert (xs + ys)[1..] == ys;
    }
  }

  /** Nothing is lost: every claim ends in one lookup or is given up, or is still pending. */
  lemma {:induction false} ClaimsAreServed(s: State, es: seq<Event>, ip: string)
    requires Feasible(s, es)
    ensures Times(Claims(s, es), ip) + Pending(s, ip)
         == Times(LookedUp(s, es), ip) + Times(Dropped(s, es), ip) + Pending(Outcome(s, es), ip)
    decreases |es|
  {
    if es != [] {
      var (e, s', later) := (es[0], Next(s, es[0]), es[1..]);
      ClaimsAreServed(s', later, ip);
      PendingStep(s, e, ip);
      var claimed := if e.Claim? && s.callers[e.t].ip !in s.inflight then [s.callers[e.t].ip] else [];
      TimesFront(claimed, Claims(s', later), ip);
      TimesFront(if e.Publish? then [s.workers[e.w].ip] else [], LookedUp(s', later), ip);
      TimesFront(if e.Unclaim? then [s.callers[e.t].ip] else [], Dropped(s', later), ip);
      hide Times, Pending, Next;
    }
  }

  lemma {:induction false} LooksAreHeld(ws: seq<Worker>, ip: string)
    ensures WorkersLook(ws, ip) <= WorkersHold(ws, ip)
    decreases |ws|
  {
    if ws != [] {
      LooksAreHeld(ws[..|ws| - 1], ip);
    }
  }

  /** From the start to any state with nothing in flight, every claim was looked up once or given up. */
  lemma DrainedMeansServed(s: State, es: seq<Event>, ip: string)
    requires Initial(s) && Feasible(s, es) && Outcome(s, es).inflight == {}
    ensures Times(Claims(s, es), ip) == Times(LookedUp(s, es), ip) + Times(Dropped(s, es), ip)
  {
    ClaimsAreServed(s, es, ip);
    EveryInterleavingIsSafe(s, es);
    InitialSafe(s);
    LooksAreHeld(s.workers, ip);
    LooksAreHeld(Outcome(s, es).workers, ip);
    hide CallersHold, WorkersHold, WorkersLook, Times, Feasible, Outcome;
    assert Held(s, ip) == 0 && Held(Outcome(s, es), ip) == 0;
  }

  /** Some send of the run met a full queue. */
  predicate MeetsFullQueue(s: State, es: seq<Event>)
    requires Feasible(s, es)
    decreases |es|
  {
    es != [] && ((es[0].Send? && |s.queue| >= 256) || MeetsFullQueue(Next(s, es[0]), es[1..]))
  }

  predicate NobodyDrops(s: State) {
    forall t :: 0 <= t < |s.callers| ==> !s.callers[t].Dropping?
  }

  /** No address is given up unless the queue was full. */
  lemma {:induction false} DropsNeedAFullQueue(s: State, es: seq<Event>)
    requires Feasible(s, es) && NobodyDrops(s) && !MeetsFullQueue(s, es)
    ensures Dropped(s, es) == [] && NobodyDrops(Outcome(s, es))
    decreases |es|
  {
    if es != [] {
      DropsNeedAFullQueue(Next(s, es[0]), es[1..]);
    }
  }

  /** The addresses the workers took from the queue, and those that were put in it. */
  function Received(s: State, es: seq<Event>): seq<string>
    requires Feasible(s, es)
    decreases |es|
  {
    if es == [] then [] else
      (if es[0].Receive? then [s.queue[0]] else []) + Received(Next(s, es[0]), es[1..])
  }

  function Enqueued(s: State, es: seq<Event>): seq<string>
    requires Feasible(s, es)
    decreases |es|
  {
    if es == [] then [] else
      (if es[0].Send? && |s.queue| < 256 then [s.callers[es[0].t].ip] else []) + Enqueued(Next(s, es[0]), es[1..])
  }

  lemma Regroup(xs: seq<string>, ys: seq<string>, zs: seq<string>)
    ensures xs + ys + zs == xs + (ys + zs)
  {}

  lemma QueueStep(s: State, e: Event)
    requires Enabled(s, e)
    ensures (if e.Receive? then [s.queue[0]] else []) + Next(s, e).queue
         == s.queue + if e.Send? && |s.queue| < 256 then [s.callers[e.t].ip] else []
  {}

  /** The queue is first in, first out: what is received, then what waits, is what waited, then what was sent. */
  lemma {:induction false} FirstInFirstOut(s: State, es: seq<Event>)
    requires Feasible(s, es)
    ensures Received(s, es) + Outcome(s, es).queue == s.queue + Enqueued(s, es)
    decreases |es|
  {
    if es == [] {
      assert s.queue + [] == s.queue && [] + s.queue == s.queue;
    } else {
      var (e, s') := (es[0], Next(s, es[0]));
      var first := if e.Receive? then [s.queue[0]] else [];
      var sent := if e.Send? && |s.queue| < 256 then [s.callers[e.t].ip] else [];
      FirstInFirstOut(s', es[1..]);
      QueueStep(s, e);
      hide Next;
      Regroup(first, Received(s', es[1..]), Outcome(s, es).queue);
      Regroup(first, s'.queue, Enqueued(s', es[1..]));
      Regroup(s.queue, sent, Enqueued(s', es[1..]));
    }
  }
}
