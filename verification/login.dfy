/** web/server.go `handleLogin`: the login throttle over whole runs of attempts. */
module Login {
  datatype State = State(failCount: nat, failUntil: real)
  datatype Reply = TooManyAttempts | SessionIssued | InvalidPassword

  /** One attempt: when the handler read the clock, and whether the password is right. */
  datatype Attempt = Attempt(now: real, right: bool)

  function Answer(s: State, a: Attempt): Reply {
    if a.now < s.failUntil then TooManyAttempts else if a.right then SessionIssued else InvalidPassword
  }

  function Next(s: State, a: Attempt): State {
    match Answer(s, a)
    case TooManyAttempts => s
    case SessionIssued => s.(failCount := 0)
    case InvalidPassword => if s.failCount + 1 >= 5 then State(0, a.now + 30.0) else s.(failCount := s.failCount + 1)
  }

  class Server {
    var failCount: nat
    var failUntil: real

    function View(): State
      reads this
    {
      State(failCount, failUntil)
    }

    constructor ()
      ensures View() == State(0, 0.0)
    {
      failCount, failUntil := 0, 0.0;
    }

    /** The handler; `verifyPw` stands for the password check, and the half-second sleep shows in `Sequential`. */
    method HandleLogin(now: real, verifyPw: bool) returns (reply: Reply)
      modifies this
      ensures View() == Next(old(View()), Attempt(now, verifyPw))
      ensures reply == Answer(old(View()), Attempt(now, verifyPw))
    {
      if now < failUntil {
        return TooManyAttempts;
      }
      if verifyPw {
        failCount := 0;
        return SessionIssued;
      }
      failCount := failCount + 1;
      if failCount >= 5 {
        failUntil := now + 30.0;
        failCount := 0;
      }
      return InvalidPassword;
    }
  }

  // Runs

  /** The next attempt starts after the answer to this one, which a wrong password delays by half a second. */
  function Ready(s: State, a: Attempt): real {
    if Answer(s, a) == InvalidPassword then a.now + 0.5 else a.now
  }

  predicate Sequential(s: State, from: real, run: seq<Attempt>)
    decreases |run|
  {
    run == [] || (from <= run[0].now && Sequential(Next(s, run[0]), Ready(s, run[0]), run[1..]))
  }

  function After(s: State, run: seq<Attempt>): State
    decreases |run|
  {
    if run == [] then s else After(Next(s, run[0]), run[1..])
  }

  /** When the attempts whose password was checked and found wrong started. */
  function WrongTimes(s: State, run: seq<Attempt>): seq<real>
    decreases |run|
  {
    if run == [] then []
    else (if Answer(s, run[0]) == InvalidPassword then [run[0].now] else []) + WrongTimes(Next(s, run[0]), run[1..])
  }

  /** Between requests the count stays below five, whatever the run. */
  lemma {:induction false} CountStaysBelowFive(s: State, run: seq<Attempt>)
    requires s.failCount < 5
    ensures After(s, run).failCount < 5
    decreases |run|
  {
    if run != [] {
      CountStaysBelowFive(Next(s, run[0]), run[1..]);
    }
  }

  /** How many attempts of a run were let in. */
  function Accepted(s: State, run: seq<Attempt>): nat
    decreases |run|
  {
    if run == [] then 0 else (if Answer(s, run[0]) == SessionIssued then 1 else 0) + Accepted(Next(s, run[0]), run[1..])
  }

  /** How many locks j failures must meet after `count` on record, when each accepted password forgets four. */
  function Locks(count: nat, j: nat, rights: nat): nat {
    if count + j < 4 * rights then 0 else (count + j - 4 * rights) / 5
  }

  /** The least time from one wrong attempt to the j-th after it: half a second each, and thirty seconds for a lock. */
  function Spacing(count: nat, j: nat, rights: nat): real {
    0.5 * j as real + 29.5 * Locks(count, j, rights) as real
  }

  lemma SpacingSteps(count: nat, j: nat, rights: nat)
    requires count < 5
    ensures Spacing(count, 0, rights) == 0.0
    ensures j > 0 && count < 4 ==> Spacing(count, j, rights) == 0.5 + Spacing(count + 1, j - 1, rights)
    ensures j > 0 && count == 4 ==> Spacing(count, j, rights) <= 30.0 + Spacing(0, j - 1, rights)
    ensures rights > 0 ==> Spacing(count, j, rights) <= Spacing(0, j, rights - 1)
  {
    assert rights > 0 ==> Locks(count, j, rights) <= Locks(0, j, rights - 1);
    assert j > 0 && count == 4 ==> Locks(count, j, rights) <= 1 + Locks(0, j - 1, rights);
  }

  /** Times that start no sooner than `from` and keep their distance. */
  predicate Spaced(times: seq<real>, from: real, count: nat, rights: nat) {
    && (times != [] ==> times[0] >= from)
    && forall j :: 0 <= j < |times| ==> times[j] >= times[0] + Spacing(count, j, rights)
  }

  lemma OneMoreSpaced(now: real, later: seq<real>, count: nat, rights: nat)
    requires count < 5
    requires if count == 4 then Spaced(later, now + 30.0, 0, rights) else Spaced(later, now + 0.5, count + 1, rights)
    ensures Spaced([now] + later, now, count, rights)
  {
    var times := [now] + later;
    forall j | 0 <= j < |times| ensures times[j] >= times[0] + Spacing(count, j, rights) {
      SpacingSteps(count, j, rights);
      hide Spacing;
      assert j > 0 ==> times[j] == later[j - 1];
    }
  }

  lemma ForgottenSpaced(times: seq<real>, from: real, count: nat, rights: nat)
    requires count < 5 && rights > 0 && Spaced(times, from, 0, rights - 1)
    ensures Spaced(times, from, count, rights)
  {
    forall j | 0 <= j < |times| ensures times[j] >= times[0] + Spacing(count, j, rights) {
      SpacingSteps(count, j, rights);
      hide Spacing;
    }
  }

  /** Wrong attempts of any sequential run keep their distance, a right password notwithstanding. */
  lemma {:induction false} WrongAttemptsAreSpaced(s: State, from: real, run: seq<Attempt>)
    requires s.failCount < 5 && Sequential(s, from, run)
    ensures Spaced(WrongTimes(s, run), from, s.failCount, Accepted(s, run))
    ensures Spaced(WrongTimes(s, run), s.failUntil, s.failCount, Accepted(s, run))
    decreases |run|
  {
    if run != [] {
      var (a, s') := (run[0], Next(s, run[0]));
      WrongAttemptsAreSpaced(s', Ready(s, a), run[1..]);
      var (later, rights) := (WrongTimes(s', run[1..]), Accepted(s', run[1..]));
      match Answer(s, a)
      case TooManyAttempts => assert [] + later == later;
      case SessionIssued =>
        assert [] + later == later;
        ForgottenSpaced(later, Ready(s, a), s.failCount, rights + 1);
        ForgottenSpaced(later, s.failUntil, s.failCount, rights + 1);
      case InvalidPassword => OneMoreSpaced(a.now, later, s.failCount, rights);
      hide Spacing, Sequential;
    }
  }

  /** When 5m wrong passwords follow four for each accepted one, at least 32 m seconds and two for each have passed. */
  ghost predicate Slow(times: seq<real>, rights: nat) {
    forall m: nat {:trigger 5 * m} :: 5 * m + 4 * rights < |times| ==>
      times[5 * m + 4 * rights] >= times[0] + 32.0 * m as real + 2.0 * rights as real
  }

  /** Guessing is slow: with none accepted, the (5m+1)-th wrong password comes 32 m seconds after the first or later. */
  lemma GuessingIsSlow(s: State, from: real, run: seq<Attempt>)
    requires s.failCount == 0 && Sequential(s, from, run)
    ensures Slow(WrongTimes(s, run), Accepted(s, run))
  {
    WrongAttemptsAreSpaced(s, from, run);
    var (times, rights) := (WrongTimes(s, run), Accepted(s, run));
    hide WrongTimes, Accepted, Sequential;
    forall m: nat {:trigger 5 * m} | 5 * m + 4 * rights < |times|
      ensures times[5 * m + 4 * rights] >= times[0] + 32.0 * m as real + 2.0 * rights as real
    {
      assert Locks(0, 5 * m + 4 * rights, rights) == m;
      assert times[5 * m + 4 * rights] >= times[0] + Spacing(0, 5 * m + 4 * rights, rights);
    }
  }

  // The bound is met

  lemma OneMoreWrong(s: State, now: real, from: real, later: seq<Attempt>)
    requires from <= now && s.failUntil <= now
    requires Sequential(Next(s, Attempt(now, false)), now + 0.5, later)
    ensures var (run, s') := ([Attempt(now, false)] + later, Next(s, Attempt(now, false)));
            && Sequential(s, from, run) && WrongTimes(s, run) == [now] + WrongTimes(s', later)
            && Accepted(s, run) == Accepted(s', later)
  {
    assert ([Attempt(now, false)] + later)[1..] == later;
  }

  lemma OneMoreRight(s: State, now: real, from: real, later: seq<Attempt>)
    requires from <= now && s.failUntil <= now && Sequential(State(0, s.failUntil), now, later)
    ensures var (run, s') := ([Attempt(now, true)] + later, State(0, s.failUntil));
            && Sequential(s, from, run) && WrongTimes(s, run) == WrongTimes(s', later)
            && Accepted(s, run) == 1 + Accepted(s', later)
  {
    assert ([Attempt(now, true)] + later)[1..] == later;
  }

  lemma StartingEarlier(s: State, from: real, later: real, run: seq<Attempt>)
    requires from <= later && Sequential(s, later, run)
    ensures Sequential(s, from, run)
  {}

  function FourWrong(t: real): seq<Attempt> {
    [Attempt(t, false), Attempt(t + 0.5, false), Attempt(t + 1.0, false), Attempt(t + 1.5, false)]
  }

  /** Four wrong attempts half a second apart in front of a run. */
  lemma FourMoreWrong(until: real, t: real, from: real, later: seq<Attempt>) returns (run: seq<Attempt>)
    ensures run == FourWrong(t) + later
    requires from <= t && until <= t && Sequential(State(4, until), t + 2.0, later)
    ensures var (s, s') := (State(0, until), State(4, until));
            && Sequential(s, from, run) && Accepted(s, run) == Accepted(s', later)
            && WrongTimes(s, run) == [t, t + 0.5, t + 1.0, t + 1.5] + WrongTimes(s', later)
  {
    hide Sequential, WrongTimes, Accepted;
    OneMoreWrong(State(3, until), t + 1.5, t + 1.5, later);
    var run1 := [Attempt(t + 1.5, false)] + later;
    OneMoreWrong(State(2, until), t + 1.0, t + 1.0, run1);
    var run2 := [Attempt(t + 1.0, false)] + run1;
    OneMoreWrong(State(1, until), t + 0.5, t + 0.5, run2);
    var run3 := [Attempt(t + 0.5, false)] + run2;
    OneMoreWrong(State(0, until), t, from, run3);
    run := [Attempt(t, false)] + run3;
  }

  /** No better bound holds, for any number of locks and of accepted passwords. */
  lemma {:induction false} TheBoundIsReached(until: real, t: real, m: nat, rights: nat) returns (run: seq<Attempt>)
    requires until <= t
    ensures var (s, times) := (State(0, until), WrongTimes(State(0, until), run));
            && Sequential(s, t, run) && Accepted(s, run) == rights && |times| == 5 * m + 4 * rights + 1
            && times[0] == t && times[5 * m + 4 * rights] == t + 32.0 * m as real + 2.0 * rights as real
    decreases m + rights
  {
    hide Sequential, WrongTimes, Accepted;
    if rights > 0 {
      var inner := TheBoundIsReached(until, t + 2.0, m, rights - 1);
      OneMoreRight(State(4, until), t + 2.0, t + 2.0, inner);
      run := FourMoreWrong(until, t, t, [Attempt(t + 2.0, true)] + inner);
    } else if m > 0 {
      var inner := TheBoundIsReached(t + 32.0, t + 32.0, m - 1, 0);
      StartingEarlier(State(0, t + 32.0), t + 2.5, t + 32.0, inner);
      OneMoreWrong(State(4, until), t + 2.0, t + 2.0, inner);
      run := FourMoreWrong(until, t, t, [Attempt(t + 2.0, false)] + inner);
    } else {
      NoAttempts(State(1, until), t + 0.5);
      OneMoreWrong(State(0, until), t, t, []);
      run := [Attempt(t, false)] + [];
    }
  }

  lemma NoAttempts(s: State, from: real)
    ensures Sequential(s, from, []) && WrongTimes(s, []) == [] && Accepted(s, []) == 0
  {}

  /** With one right password among them, the sixth wrong attempt comes two and a half seconds after the first. */
  lemma RightPasswordResets(until: real, t: real) returns (run: seq<Attempt>)
    requires until <= t
    ensures var (s, times) := (State(0, until), WrongTimes(State(0, until), run));
            && Sequential(s, t, run) && Accepted(s, run) == 1
            && times == [t, t + 0.5, t + 1.0, t + 1.5, t + 2.0, t + 2.5]
  {
    hide Sequential, WrongTimes, Accepted;
    NoAttempts(State(2, until), t + 3.0);
    OneMoreWrong(State(1, until), t + 2.5, t + 2.5, []);
    var last := [Attempt(t + 2.5, false)] + [];
    OneMoreWrong(State(0, until), t + 2.0, t + 2.0, last);
    var two := [Attempt(t + 2.0, false)] + last;
    OneMoreRight(State(4, until), t + 2.0, t + 2.0, two);
    run := FourMoreWrong(until, t, t, [Attempt(t + 2.0, true)] + two);
  }
}
