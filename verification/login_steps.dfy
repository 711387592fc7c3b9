/** web/server.go `handleLogin` with overlapping requests: each critical section is one atomic step. */
module LoginSteps {
  import opened Bits
  import opened Login

  /** Where a request stands: clock read, let through, failure counted and sleeping, answered. */
  datatype Phase = Started | Admitted | Counted(at: real) | Done

  datatype Request = Request(attempt: Attempt, phase: Phase)

  /**
   * The shared fields, the requests so far and the time; then the clock readings of the failures counted so far, and
   * how many passwords were accepted and locks set.
   */
  datatype System = System(
    state: State, requests: seq<Request>, clock: real, counted: seq<real>, accepted: nat, locks: nat)

  datatype Event = Arrive(a: Attempt) | Admit(i: nat) | Accept(i: nat) | Count(i: nat) | Settle(i: nat, at: real)

  predicate Enabled(s: System, e: Event) {
    match e
    case Arrive(a) => s.clock <= a.now
    case Admit(i) => i < |s.requests| && s.requests[i].phase.Started?
    case Accept(i) => i < |s.requests| && s.requests[i].phase.Admitted? && s.requests[i].attempt.right
    case Count(i) => i < |s.requests| && s.requests[i].phase.Admitted? && !s.requests[i].attempt.right
    case Settle(i, at) =>
      i < |s.requests| && s.requests[i].phase.Counted? && s.requests[i].phase.at + 0.5 <= at && s.clock <= at
  }

  function SetPhase(s: System, i: nat, phase: Phase): System
    requires i < |s.requests|
  {
    s.(requests := s.requests[i := s.requests[i].(phase := phase)])
  }

  function Perform(s: System, e: Event): System
    requires Enabled(s, e)
  {
    match e
    case Arrive(a) => s.(requests := s.requests + [Request(a, Started)], clock := a.now)
    case Admit(i) => SetPhase(s, i, if s.requests[i].attempt.now < s.state.failUntil then Done else Admitted)
    case Accept(i) => SetPhase(s, i, Done).(state := s.state.(failCount := 0), accepted := s.accepted + 1)
    case Count(i) =>
      SetPhase(s, i, Counted(s.clock)).(
        state := s.state.(failCount := s.state.failCount + 1), counted := s.counted + [s.requests[i].attempt.now])
    case Settle(i, at) =>
      if s.state.failCount < 5 then SetPhase(s, i, Done).(clock := at)
      else
        SetPhase(s, i, Done).(
          state := State(0, s.requests[i].attempt.now + 30.0), clock := at, locks := s.locks + 1)
  }

  function Quiet(state: State, t: real): System {
    System(state, [], t, [], 0, 0)
  }

  predicate Feasible(start: System, es: seq<Event>)
    decreases |es|, 0
  {
    es == [] || (Feasible(start, es[..|es| - 1]) && Enabled(Outcome(start, es[..|es| - 1]), es[|es| - 1]))
  }

  function Outcome(start: System, es: seq<Event>): System
    requires Feasible(start, es)
    decreases |es|, 1
  {
    if es == [] then start else Perform(Outcome(start, es[..|es| - 1]), es[|es| - 1])
  }

  /** How many requests are not answered yet, and how many of those have counted their failure. */
  function InFlight(rs: seq<Request>): nat {
    if rs == [] then 0 else InFlight(rs[..|rs| - 1]) + Bit(!rs[|rs| - 1].phase.Done?)
  }

  function Sleeping(rs: seq<Request>): nat {
    if rs == [] then 0 else Sleeping(rs[..|rs| - 1]) + Bit(rs[|rs| - 1].phase.Counted?)
  }

  lemma {:induction false} PhaseMoves(rs: seq<Request>, i: nat, phase: Phase)
    requires i < |rs|
    ensures var after := rs[i := rs[i].(phase := phase)];
            && InFlight(after) + Bit(!rs[i].phase.Done?) == InFlight(rs) + Bit(!phase.Done?)
            && Sleeping(after) + Bit(rs[i].phase.Counted?) == Sleeping(rs) + Bit(phase.Counted?)
    decreases |rs|
  {
    var after := rs[i := rs[i].(phase := phase)];
    var front := rs[..|rs| - 1];
    if i == |front| {
      assert after[..|front|] == front;
    } else {
      PhaseMoves(front, i, phase);
      assert after[..|front|] == front[i := front[i].(phase := phase)];
    }
  }

  /** At no time are more than k requests unanswered. */
  predicate AtMost(start: System, es: seq<Event>, k: nat)
    requires Feasible(start, es)
    decreases |es|
  {
    es == [] || (AtMost(start, es[..|es| - 1], k) && InFlight(Outcome(start, es).requests) <= k)
  }

  // Every interleaving

  /** However requests overlap, the count exceeds four only by failures whose requests still sleep. */
  lemma {:induction false} CountWithinSleeping(start: System, es: seq<Event>)
    requires Feasible(start, es) && start.state.failCount < 5 && start.requests == []
    ensures Outcome(start, es).state.failCount <= 4 + Sleeping(Outcome(start, es).requests)
    decreases |es|
  {
    if es != [] {
      var (before, e) := (es[..|es| - 1], es[|es| - 1]);
      CountWithinSleeping(start, before);
      SleepingStep(Outcome(start, before), e);
    }
  }

  lemma SleepingStep(s: System, e: Event)
    requires Enabled(s, e) && s.state.failCount <= 4 + Sleeping(s.requests)
    ensures Perform(s, e).state.failCount <= 4 + Sleeping(Perform(s, e).requests)
  {
    match e
    case Arrive(a) => assert (s.requests + [Request(a, Started)])[..|s.requests|] == s.requests;
    case Admit(i) => PhaseMoves(s.requests, i, Perform(s, e).requests[i].phase);
    case Accept(i) => PhaseMoves(s.requests, i, Done);
    case Count(i) => PhaseMoves(s.requests, i, Counted(s.clock));
    case Settle(i, _) => PhaseMoves(s.requests, i, Done);
  }

  lemma {:induction false} SleepersAreInFlight(rs: seq<Request>)
    ensures Sleeping(rs) <= InFlight(rs)
    decreases |rs|
  {
    if rs != [] {
      SleepersAreInFlight(rs[..|rs| - 1]);
    }
  }

  /** What locks and accepted passwords account for, with k failures to spare, and what the count adds. */
  function Paid(s: System, k: nat): nat {
    (4 + k) * (s.locks + s.accepted) + s.state.failCount
  }

  lemma PaidStep(s: System, e: Event, k: nat)
    requires Enabled(s, e) && s.state.failCount <= 4 + k
    ensures Paid(Perform(s, e), k) + |s.counted| >= Paid(s, k) + |Perform(s, e).counted|
  {
    assert (4 + k) * (s.locks + s.accepted + 1) == (4 + k) * (s.locks + s.accepted) + (4 + k);
  }

  lemma {:induction false} FailuresArePaid(start: System, es: seq<Event>, k: nat)
    requires Feasible(start, es) && AtMost(start, es, k) && start.state.failCount < 5
    requires start == Quiet(start.state, start.clock)
    ensures var s := Outcome(start, es); |s.counted| <= Paid(s, k) && s.state.failCount <= 4 + k
    decreases |es|
  {
    hide Paid, Perform, Enabled;
    CountWithinSleeping(start, es);
    SleepersAreInFlight(Outcome(start, es).requests);
    if es == [] {
      assert Outcome(start, es).counted == [];
      PaidIsNatural(start, k);
    } else {
      var before := es[..|es| - 1];
      FailuresArePaid(start, before, k);
      PaidStep(Outcome(start, before), es[|es| - 1], k);
    }
  }

  lemma PaidIsNatural(s: System, k: nat)
    ensures Paid(s, k) >= 0
  {}

  /** With at most k requests at a time, every 4 + k failures cost a lock or an accepted password. */
  lemma FailuresCostLocks(s0: State, t: real, es: seq<Event>, k: nat)
    requires s0.failCount < 5 && Feasible(Quiet(s0, t), es) && AtMost(Quiet(s0, t), es, k)
    ensures var s := Outcome(Quiet(s0, t), es); |s.counted| <= (4 + k) * (s.locks + s.accepted + 1)
  {
    FailuresArePaid(Quiet(s0, t), es, k);
    var s := Outcome(Quiet(s0, t), es);
    hide Outcome, Feasible, AtMost;
    assert (4 + k) * (s.locks + s.accepted + 1) == (4 + k) * (s.locks + s.accepted) + (4 + k);
  }

  // One request at a time

  function Attempts(rs: seq<Request>): (run: seq<Attempt>)
    ensures |run| == |rs| && forall i :: 0 <= i < |rs| ==> run[i] == rs[i].attempt
  {
    seq(|rs|, i requires 0 <= i < |rs| => rs[i].attempt)
  }

  /** The earliest time at which a run of sequential attempts can go on. */
  function FreeAt(s: State, from: real, run: seq<Attempt>): real
    decreases |run|
  {
    if run == [] then from else FreeAt(Next(s, run[0]), Ready(s, run[0]), run[1..])
  }

  lemma {:induction false} OneMore(s: State, from: real, run: seq<Attempt>, a: Attempt)
    ensures After(s, run + [a]) == Next(After(s, run), a)
    ensures Sequential(s, from, run + [a]) <==> Sequential(s, from, run) && FreeAt(s, from, run) <= a.now
    ensures FreeAt(s, from, run + [a]) == Ready(After(s, run), a)
    ensures WrongTimes(s, run + [a])
         == WrongTimes(s, run) + (if Answer(After(s, run), a) == InvalidPassword then [a.now] else [])
    ensures Accepted(s, run + [a])
         == Accepted(s, run) + if Answer(After(s, run), a) == SessionIssued then 1 else 0
    decreases |run|
  {
    hide Next, Ready, Answer;
    if run == [] {
      assert run + [a] == [a] && [a][1..] == [];
    } else {
      assert (run + [a])[1..] == run[1..] + [a];
      OneMore(Next(s, run[0]), Ready(s, run[0]), run[1..], a);
    }
  }

  predicate AllDone(rs: seq<Request>) {
    forall i :: 0 <= i < |rs| ==> rs[i].phase.Done?
  }

  /** Nobody is served: the shared state is that of the sequential run of the requests so far. */
  predicate Idle(s: System, s0: State, from: real) {
    var run := Attempts(s.requests);
    && AllDone(s.requests) && s.state == After(s0, run) && s.counted == WrongTimes(s0, run)
    && s.accepted == Accepted(s0, run) && Sequential(s0, from, run) && FreeAt(s0, from, run) <= s.clock
  }

  /** The last request is being served, behind a sequential run of the others. */
  predicate Serving(s: System, s0: State, from: real) {
    && |s.requests| > 0
    && var (front, last) := (s.requests[..|s.requests| - 1], s.requests[|s.requests| - 1]);
    && var run := Attempts(front);
    && AllDone(front) && s.accepted == Accepted(s0, run) && Sequential(s0, from, run)
    && FreeAt(s0, from, run) <= last.attempt.now <= s.clock
    && match last.phase
       case Started => s.state == After(s0, run) && s.counted == WrongTimes(s0, run)
       case Admitted =>
         s.state == After(s0, run) && s.counted == WrongTimes(s0, run) && s.state.failUntil <= last.attempt.now
       case Counted(at) =>
         && Answer(After(s0, run), last.attempt) == InvalidPassword && last.attempt.now <= at
         && s.state == After(s0, run).(failCount := After(s0, run).failCount + 1)
         && s.counted == WrongTimes(s0, run) + [last.attempt.now]
       case Done => false
  }

  lemma {:induction false} NobodyInFlight(rs: seq<Request>)
    ensures InFlight(rs) == 0 <==> AllDone(rs)
    decreases |rs|
  {
    if rs != [] {
      NobodyInFlight(rs[..|rs| - 1]);
    }
  }

  /** Only the last request can move, and an answer leaves the system idle. */
  lemma ServeStep(s: System, e: Event, s0: State, from: real)
    requires Enabled(s, e) && Serving(s, s0, from) && !e.Arrive?
    ensures Serving(Perform(s, e), s0, from) || Idle(Perform(s, e), s0, from)
  {
    hide Sequential, FreeAt, After, WrongTimes, Accepted;
    var n := |s.requests| - 1;
    var (front, last) := (s.requests[..n], s.requests[n]);
    forall j | 0 <= j < n ensures s.requests[j].phase.Done? {
      assert front[j] == s.requests[j];
    }
    var s' := Perform(s, e);
    assert s'.requests[..n] == front && s'.requests[n].attempt == last.attempt;
    OneMore(s0, from, Attempts(front), last.attempt);
    assert Attempts(s'.requests) == Attempts(front) + [last.attempt];
    assert WrongTimes(s0, Attempts(front)) + [] == WrongTimes(s0, Attempts(front));
    if s'.requests[n].phase.Done? {
      assert forall i :: 0 <= i < n ==> s'.requests[i] == front[i];
    }
  }

  lemma ArriveStep(s: System, a: Attempt, s0: State, from: real)
    requires s.clock <= a.now && Idle(s, s0, from)
    ensures Serving(Perform(s, Arrive(a)), s0, from)
  {
    hide Sequential, FreeAt, After, WrongTimes, Accepted;
    assert (s.requests + [Request(a, Started)])[..|s.requests|] == s.requests;
  }

  /** With one request at a time, the steps follow the sequential model. */
  lemma {:induction false} SerialRunsAreSequential(s0: State, t: real, es: seq<Event>)
    requires Feasible(Quiet(s0, t), es) && AtMost(Quiet(s0, t), es, 1)
    ensures Idle(Outcome(Quiet(s0, t), es), s0, t) || Serving(Outcome(Quiet(s0, t), es), s0, t)
    decreases |es|
  {
    if es != [] {
      var (before, e) := (es[..|es| - 1], es[|es| - 1]);
      var s := Outcome(Quiet(s0, t), before);
      SerialRunsAreSequential(s0, t, before);
      hide Idle, Serving, Perform, AtMost;
      if e.Arrive? {
        OnlyWhenIdle(s, e.a, s0, t);
        ArriveStep(s, e.a, s0, t);
      } else if Serving(s, s0, t) {
        ServeStep(s, e, s0, t);
      } else {
        IdleMoves(s, e, s0, t);
      }
    }
  }

  /** A second request cannot arrive while one is served. */
  lemma OnlyWhenIdle(s: System, a: Attempt, s0: State, from: real)
    requires Enabled(s, Arrive(a)) && (Idle(s, s0, from) || Serving(s, s0, from))
    requires InFlight(Perform(s, Arrive(a)).requests) <= 1
    ensures Idle(s, s0, from)
  {
    hide Sequential, FreeAt, After, WrongTimes, Accepted;
    assert (s.requests + [Request(a, Started)])[..|s.requests|] == s.requests;
    NobodyInFlight(s.requests);
  }

  /** When nobody is served, only an arrival is possible. */
  lemma IdleMoves(s: System, e: Event, s0: State, from: real)
    requires Enabled(s, e) && Idle(s, s0, from)
    ensures e.Arrive?
  {
    hide Sequential, FreeAt, After, WrongTimes, Accepted;
  }

  /** And every sequential run can be played as steps, one request at a time. */
  lemma {:induction false} SequentialRunsArePlayed(s0: State, t: real, run: seq<Attempt>)
    returns (es: seq<Event>, s: System)
    requires s0.failCount < 5 && Sequential(s0, t, run)
    ensures Feasible(Quiet(s0, t), es) && AtMost(Quiet(s0, t), es, 1) && Outcome(Quiet(s0, t), es) == s
    ensures Idle(s, s0, t) && Attempts(s.requests) == run && s.clock == FreeAt(s0, t, run)
    decreases |run|
  {
    if run == [] {
      es, s := [], Quiet(s0, t);
    } else {
      var (front, a) := (run[..|run| - 1], run[|run| - 1]);
      assert run == front + [a];
      OneMore(s0, t, front, a);
      es, s := SequentialRunsArePlayed(s0, t, front);
      es, s := PlayAttempt(s0, t, es, s, a);
    }
  }

  lemma InFlightStep(s: System, e: Event)
    requires Enabled(s, e)
    ensures InFlight(Perform(s, e).requests) <= InFlight(s.requests) + Bit(e.Arrive?)
  {
    match e
    case Arrive(a) => assert (s.requests + [Request(a, Started)])[..|s.requests|] == s.requests;
    case Admit(i) => PhaseMoves(s.requests, i, Perform(s, e).requests[i].phase);
    case Accept(i) => PhaseMoves(s.requests, i, Done);
    case Count(i) => PhaseMoves(s.requests, i, Counted(s.clock));
    case Settle(i, _) => PhaseMoves(s.requests, i, Done);
  }

  /** One more event of a schedule with at most k requests at a time. */
  lemma Advance(start: System, es: seq<Event>, s: System, e: Event, k: nat) returns (more: seq<Event>)
    requires Feasible(start, es) && AtMost(start, es, k) && Outcome(start, es) == s && Enabled(s, e)
    requires InFlight(s.requests) + Bit(e.Arrive?) <= k
    ensures Feasible(start, more) && AtMost(start, more, k) && Outcome(start, more) == Perform(s, e)
    ensures InFlight(Perform(s, e).requests) <= InFlight(s.requests) + Bit(e.Arrive?)
  {
    more := es + [e];
    assert more[..|es|] == es;
    InFlightStep(s, e);
  }

  /** One more attempt, from arrival to answer, as early as it can be. */
  lemma PlayAttempt(s0: State, t: real, es: seq<Event>, s: System, a: Attempt) returns (more: seq<Event>, s': System)
    requires Feasible(Quiet(s0, t), es) && AtMost(Quiet(s0, t), es, 1) && Outcome(Quiet(s0, t), es) == s
    requires Idle(s, s0, t) && s.clock == FreeAt(s0, t, Attempts(s.requests)) <= a.now
    ensures Feasible(Quiet(s0, t), more) && AtMost(Quiet(s0, t), more, 1) && Outcome(Quiet(s0, t), more) == s'
    ensures Idle(s', s0, t) && Attempts(s'.requests) == Attempts(s.requests) + [a]
    ensures s'.clock == FreeAt(s0, t, Attempts(s'.requests))
  {
    hide Feasible, AtMost, Outcome, InFlight, Sequential, FreeAt, After, WrongTimes, Accepted;
    var (n, start) := (|s.requests|, Quiet(s0, t));
    NobodyInFlight(s.requests);
    OneMore(s0, t, Attempts(s.requests), a);
    assert WrongTimes(s0, Attempts(s.requests)) + [] == WrongTimes(s0, Attempts(s.requests));
    more := Advance(start, es, s, Arrive(a), 1);
    var s1 := Perform(s, Arrive(a));
    more := Advance(start, more, s1, Admit(n), 1);
    s' := Perform(s1, Admit(n));
    if a.now >= s.state.failUntil {
      if a.right {
        more := Advance(start, more, s', Accept(n), 1);
        s' := Perform(s', Accept(n));
      } else {
        var s2 := s';
        more := Advance(start, more, s2, Count(n), 1);
        s' := Perform(s2, Count(n));
        more := Advance(start, more, s', Settle(n, a.now + 0.5), 1);
        s' := Perform(s', Settle(n, a.now + 0.5));
      }
    }
    assert s'.requests == s.requests + [Request(a, Done)];
    assert Attempts(s'.requests) == Attempts(s.requests) + [a];
  }

  // When the bound holds

  /** One request at a time: guessing is slow, up to four guesses for each accepted password. */
  lemma SerialRunsAreSlow(s0: State, t: real, es: seq<Event>)
    requires s0.failCount == 0 && Feasible(Quiet(s0, t), es) && AtMost(Quiet(s0, t), es, 1)
    ensures var s := Outcome(Quiet(s0, t), es); Slow(s.counted, s.accepted)
  {
    SerialRunsAreSequential(s0, t, es);
    var s := Outcome(Quiet(s0, t), es);
    hide Outcome, Feasible, AtMost, Sequential, FreeAt, After, WrongTimes, Accepted, Slow;
    if Idle(s, s0, t) {
      GuessingIsSlow(s0, t, Attempts(s.requests));
    } else {
      hide Idle;
      ServingIsSlow(s, s0, t);
    }
  }

  lemma ServingIsSlow(s: System, s0: State, t: real)
    requires s0.failCount == 0 && Serving(s, s0, t)
    ensures Slow(s.counted, s.accepted)
  {
    hide Sequential, FreeAt, After, WrongTimes, Accepted, Slow, Answer;
    var (front, last) := (s.requests[..|s.requests| - 1], s.requests[|s.requests| - 1]);
    var run := Attempts(front);
    OneMore(s0, t, run, last.attempt);
    GuessingIsSlow(s0, t, run);
    GuessingIsSlow(s0, t, run + [last.attempt]);
  }

  /** Four wrong attempts, each as early as possible. */
  lemma WarmUp(s0: State, t: real) returns (es: seq<Event>, s: System)
    requires s0.failCount == 0 && s0.failUntil <= t
    ensures Feasible(Quiet(s0, t), es) && AtMost(Quiet(s0, t), es, 1) && Outcome(Quiet(s0, t), es) == s
    ensures |s.requests| == 4 && AllDone(s.requests) && s.clock == t + 2.0 && s.accepted == 0
    ensures s.state == State(4, s0.failUntil) && s.counted == [t, t + 0.5, t + 1.0, t + 1.5]
  {
    hide Feasible, AtMost, Outcome, Sequential, FreeAt, After, WrongTimes, Accepted;
    NoAttempts(State(4, s0.failUntil), t + 2.0);
    var run := FourMoreWrong(s0.failUntil, t, t, []);
    es, s := SequentialRunsArePlayed(s0, t, run);
    FourAttempts(s0.failUntil, t, run);
  }

  lemma FourAttempts(until: real, t: real, run: seq<Attempt>)
    requires until <= t && run == FourWrong(t) + []
    ensures |run| == 4 && After(State(0, until), run) == State(4, until) && FreeAt(State(0, until), t, run) == t + 2.0
  {
    var (s, wrong) := (State(0, until), FourWrong(t));
    assert After(s, []) == s;
    hide After, FreeAt, Sequential, WrongTimes, Accepted;
    OneMore(s, t, [], wrong[0]);
    OneMore(s, t, [] + [wrong[0]], wrong[1]);
    OneMore(s, t, [] + [wrong[0]] + [wrong[1]], wrong[2]);
    OneMore(s, t, [] + [wrong[0]] + [wrong[1]] + [wrong[2]], wrong[3]);
    assert run == [] + [wrong[0]] + [wrong[1]] + [wrong[2]] + [wrong[3]];
  }

  // Where it fails

  /** Two requests arrive together and are both let through. */
  lemma AdmitTwo(start: System, es: seq<Event>, s: System) returns (more: seq<Event>, s': System)
    requires Feasible(start, es) && AtMost(start, es, 2) && Outcome(start, es) == s
    requires |s.requests| == 4 && AllDone(s.requests) && s.state.failUntil <= s.clock
    ensures Feasible(start, more) && AtMost(start, more, 2) && Outcome(start, more) == s'
    ensures var r := Request(Attempt(s.clock, false), Admitted);
            s' == s.(requests := s.requests + [r, r]) && InFlight(s'.requests) <= 2
  {
    hide Feasible, AtMost, Outcome, InFlight;
    NobodyInFlight(s.requests);
    var a := Attempt(s.clock, false);
    more := Advance(start, es, s, Arrive(a), 2);
    var s1 := Perform(s, Arrive(a));
    more := Advance(start, more, s1, Arrive(a), 2);
    var s2 := Perform(s1, Arrive(a));
    more := Advance(start, more, s2, Admit(4), 2);
    var s3 := Perform(s2, Admit(4));
    more := Advance(start, more, s3, Admit(5), 2);
    s' := Perform(s3, Admit(5));
    assert s'.requests == s.requests + [Request(a, Admitted), Request(a, Admitted)];
  }

  /** Both passwords turn out wrong. */
  lemma CountTwo(start: System, es: seq<Event>, s: System, first: System, a: Attempt)
    returns (more: seq<Event>, s': System)
    requires Feasible(start, es) && AtMost(start, es, 2) && Outcome(start, es) == s && InFlight(s.requests) <= 2
    requires |first.requests| == 4 && !a.right
    requires s.requests == first.requests + [Request(a, Admitted), Request(a, Admitted)]
    ensures Feasible(start, more) && AtMost(start, more, 2) && Outcome(start, more) == s'
    ensures s'.counted == s.counted + [a.now, a.now] && s'.accepted == s.accepted
  {
    hide Feasible, AtMost, Outcome, InFlight;
    more := Advance(start, es, s, Count(4), 2);
    var s1 := Perform(s, Count(4));
    more := Advance(start, more, s1, Count(5), 2);
    s' := Perform(s1, Count(5));
    assert s'.counted == s.counted + [a.now, a.now];
  }

  /** Two requests that overlap around the fifth failure: the sixth is counted two seconds after the first. */
  lemma TwoAtOnce(s0: State, t: real) returns (es: seq<Event>, s: System)
    requires s0.failCount == 0 && s0.failUntil <= t
    ensures Feasible(Quiet(s0, t), es) && AtMost(Quiet(s0, t), es, 2) && Outcome(Quiet(s0, t), es) == s
    ensures s.accepted == 0 && |s.counted| == 6 && s.counted[5] == s.counted[0] + 2.0
  {
    es, s := WarmUp(s0, t);
    AtMostGrows(Quiet(s0, t), es, 1, 2);
    hide Feasible, AtMost, Outcome, InFlight;
    var a := Attempt(s.clock, false);
    var first := s;
    es, s := AdmitTwo(Quiet(s0, t), es, s);
    es, s := CountTwo(Quiet(s0, t), es, s, first, a);
  }

  /** One request at a time, one with the right password: the sixth failure is counted two and a half seconds on. */
  lemma OneAccepted(s0: State, t: real) returns (es: seq<Event>, s: System)
    requires s0.failCount == 0 && s0.failUntil <= t
    ensures Feasible(Quiet(s0, t), es) && AtMost(Quiet(s0, t), es, 1) && Outcome(Quiet(s0, t), es) == s
    ensures s.accepted == 1 && |s.counted| == 6 && s.counted[5] == s.counted[0] + 2.5
  {
    var run := RightPasswordResets(s0.failUntil, t);
    es, s := SequentialRunsArePlayed(s0, t, run);
  }

  lemma {:induction false} AtMostGrows(start: System, es: seq<Event>, k: nat, l: nat)
    requires Feasible(start, es) && AtMost(start, es, k) && k <= l
    ensures AtMost(start, es, l)
    decreases |es|
  {
    if es != [] {
      AtMostGrows(start, es[..|es| - 1], k, l);
    }
  }

  /** A run with at most k requests at a time and at most r accepted passwords. */
  predicate Within(s0: State, t: real, k: nat, r: nat, es: seq<Event>) {
    && Feasible(Quiet(s0, t), es) && AtMost(Quiet(s0, t), es, k)
    && Outcome(Quiet(s0, t), es).accepted <= r
  }

  /** Whatever happens within these limits, the (5m+1)-th failure comes 32 m seconds after the first or later. */
  ghost predicate BoundHolds(s0: State, t: real, k: nat, r: nat) {
    forall es :: Within(s0, t, k, r, es) ==> Slow(Outcome(Quiet(s0, t), es).counted, 0)
  }

  lemma {:induction false} NobodyComes(s0: State, t: real, es: seq<Event>)
    requires Feasible(Quiet(s0, t), es) && AtMost(Quiet(s0, t), es, 0)
    ensures Outcome(Quiet(s0, t), es) == Quiet(s0, t)
    decreases |es|
  {
    if es != [] {
      NobodyComes(s0, t, es[..|es| - 1]);
      ArrivalIsInFlight(es[|es| - 1]);
    }
  }

  /** On a quiet system only an arrival is possible, and it is in flight. */
  lemma ArrivalIsInFlight(e: Event)
    ensures e.Arrive? ==> InFlight([Request(e.a, Started)]) == 1
  {}

  /**
   * The bound holds of every interleaving exactly when requests come one at a time and none is accepted, or when none
   * comes at all.
   */
  lemma BoundHoldsExactly(s0: State, t: real, k: nat, r: nat)
    requires s0.failCount == 0 && s0.failUntil <= t
    ensures BoundHolds(s0, t, k, r) <==> k == 0 || (k == 1 && r == 0)
  {
    if k == 0 {
      forall es | Within(s0, t, k, r, es) ensures Slow(Outcome(Quiet(s0, t), es).counted, 0) {
        NobodyComes(s0, t, es);
      }
    }
    hide Slow;
    if k == 0 {
    } else if k == 1 && r == 0 {
      forall es | Within(s0, t, k, r, es) ensures Slow(Outcome(Quiet(s0, t), es).counted, 0) {
        SerialRunsAreSlow(s0, t, es);
      }
    } else if k > 1 {
      var es, s := TwoAtOnce(s0, t);
      AtMostGrows(Quiet(s0, t), es, 2, k);
      assert Within(s0, t, k, r, es);
      NotSlow(s.counted);
    } else {
      var es, s := OneAccepted(s0, t);
      assert Within(s0, t, k, r, es);
      NotSlow(s.counted);
    }
  }

  lemma NotSlow(counted: seq<real>)
    requires |counted| == 6 && counted[5] < counted[0] + 32.0
    ensures !Slow(counted, 0)
  {
    assert counted[5 * 1 + 4 * 0] < counted[0] + 32.0 * 1 as real + 2.0 * 0 as real;
  }
}
