/** web/auth.go `sessionStore`: twelve-hour sessions whose expired tokens are evicted when they are next shown. */
module Sessions {
  import opened Options

  const TTL: real := 43200.0

  type Table = map<string, real>

  predicate Accepts(m: Table, tok: string, now: real) {
    tok != "" && tok in m && now <= m[tok]
  }

  datatype Op = Create(tok: string) | Show(tok: string) | Drop(tok: string)

  function Next(m: Table, op: Op, now: real): Table {
    match op
    case Create(tok) => m[tok := now + TTL]
    case Show(tok) => if tok in m && !Accepts(m, tok, now) && tok != "" then m - {tok} else m
    case Drop(tok) => if tok == "" then m else m - {tok}
  }

  class SessionStore {
    var m: Table

    constructor ()
      ensures m == map[]
    {
      m := map[];
    }

    /** `minted` is the encoded random token, absent when the random source fails. */
    method Create(minted: Option<string>, now: real) returns (tok: Option<string>)
      modifies this
      ensures tok == minted
      ensures m == if minted.None? then old(m) else Next(old(m), Op.Create(minted.value), now)
    {
      if minted.None? {
        return None;
      }
      m := m[minted.value := now + TTL];
      return minted;
    }

    method Ok(tok: string, now: real) returns (live: bool)
      modifies this
      ensures live <==> Accepts(old(m), tok, now)
      ensures m == Next(old(m), Show(tok), now)
    {
      if tok == "" {
        return false;
      }
      if tok !in m {
        return false;
      }
      var exp := m[tok];
      if now > exp {
        m := m - {tok};
        return false;
      }
      return true;
    }

    method Drop(tok: string)
      modifies this
      ensures m == Next(old(m), Op.Drop(tok), 0.0)
    {
      if tok == "" {
        return;
      }
      m := m - {tok};
    }
  }

  // Runs

  datatype Call = Call(op: Op, now: real)

  /** The table after a run that starts empty. */
  function After(run: seq<Call>): Table {
    if run == [] then map[] else Next(After(run[..|run| - 1]), run[|run| - 1].op, run[|run| - 1].now)
  }

  predicate ClockNeverFalls(run: seq<Call>) {
    forall i, j :: 0 <= i < j < |run| ==> run[i].now <= run[j].now
  }

  /** When the session of a token ends, going by its logins and logouts alone. */
  function Granted(run: seq<Call>, tok: string): Option<real> {
    if run == [] then None
    else match run[|run| - 1].op
      case Create(t) => if t == tok then Some(run[|run| - 1].now + TTL) else Granted(run[..|run| - 1], tok)
      case Show(_) => Granted(run[..|run| - 1], tok)
      case Drop(t) => if t == tok then None else Granted(run[..|run| - 1], tok)
  }

  lemma {:induction false} TableFollowsGrants(run: seq<Call>, tok: string)
    requires ClockNeverFalls(run) && tok != ""
    ensures var m := After(run);
            && (tok in m ==> Granted(run, tok) == Some(m[tok]))
            && (tok !in m && Granted(run, tok).Some? ==> run != [] && Granted(run, tok).value < run[|run| - 1].now)
    decreases |run|
  {
    if run != [] {
      var front := run[..|run| - 1];
      TableFollowsGrants(front, tok);
      assert front != [] ==> front[|front| - 1].now <= run[|run| - 1].now;
    }
  }

  /**
   * A token is accepted exactly when its last login is at most twelve hours old and no logout followed it:
   * evicting expired tokens on the way changes no answer.
   */
  lemma {:induction false} AcceptedExactly(run: seq<Call>, tok: string, now: real)
    requires ClockNeverFalls(run) && (run != [] ==> run[|run| - 1].now <= now) && tok != ""
    ensures Accepts(After(run), tok, now) <==> Granted(run, tok).Some? && now <= Granted(run, tok).value
  {
    TableFollowsGrants(run, tok);
    hide After, Granted;
  }

  predicate Touches(op: Op, tok: string) {
    match op case Create(t) => t == tok case Show(_) => false case Drop(t) => t == tok
  }

  /** What a grant is: the last login or logout of the token decides. */
  lemma {:induction false} GrantedMeaning(run: seq<Call>, tok: string, exp: real)
    ensures Granted(run, tok) == Some(exp) <==>
            exists i :: 0 <= i < |run| && run[i].op == Create(tok) && exp == run[i].now + TTL
              && forall j :: i < j < |run| ==> !Touches(run[j].op, tok)
    decreases |run|
  {
    if run != [] {
      var (front, last) := (run[..|run| - 1], run[|run| - 1]);
      GrantedMeaning(front, tok, exp);
      if Granted(run, tok) == Some(exp) && !Touches(last.op, tok) {
        var i :| 0 <= i < |front| && front[i].op == Create(tok) && exp == front[i].now + TTL
          && forall j :: i < j < |front| ==> !Touches(front[j].op, tok);
        assert run[i] == front[i] && forall j :: i < j < |front| ==> run[j] == front[j];
      } else if !Touches(last.op, tok) {
        assert forall j :: 0 <= j < |front| ==> run[j] == front[j];
      }
    }
  }

  /** Showing a token more than twelve hours after its login evicts it. */
  predicate Evicts(call: Call, tok: string, login: real) {
    call.op == Show(tok) && call.now > login + 12.0 * 3600.0
  }

  /** Login i of the token was followed by no logout, no later login, and no showing that came too late. */
  predicate Stores(run: seq<Call>, tok: string, i: nat) {
    && i < |run| && run[i].op == Create(tok)
    && forall j :: i < j < |run| ==> !Touches(run[j].op, tok) && !Evicts(run[j], tok, run[i].now)
  }

  lemma StoresFront(run: seq<Call>, tok: string, i: nat)
    requires i < |run| - 1
    ensures Stores(run, tok, i) <==>
            && Stores(run[..|run| - 1], tok, i)
            && !Touches(run[|run| - 1].op, tok) && !Evicts(run[|run| - 1], tok, run[i].now)
  {
    var front := run[..|run| - 1];
    assert forall j :: 0 <= j < |front| ==> front[j] == run[j];
  }

  /** The table holds a token exactly while some login of it stands, with the end of that session. */
  lemma {:induction false} StoredExactly(run: seq<Call>, tok: string)
    requires tok != ""
    ensures tok in After(run) <==> exists i: nat :: Stores(run, tok, i)
    ensures forall i: nat :: Stores(run, tok, i) ==> tok in After(run) && After(run)[tok] == run[i].now + 12.0 * 3600.0
    decreases |run|
  {
    if run != [] {
      var (front, last) := (run[..|run| - 1], run[|run| - 1]);
      StoredExactly(front, tok);
      forall i | 0 <= i < |front|
        ensures Stores(run, tok, i) <==>
                Stores(front, tok, i) && !Touches(last.op, tok) && !Evicts(last, tok, run[i].now)
      {
        StoresFront(run, tok, i);
      }
      if last.op == Create(tok) {
        assert Stores(run, tok, |front|);
      }
      if tok in After(front) {
        var i: nat :| Stores(front, tok, i);
        assert Stores(run, tok, i) || Touches(last.op, tok) || Evicts(last, tok, run[i].now);
      }
      forall i: nat | Stores(run, tok, i) ensures tok in After(run) && After(run)[tok] == run[i].now + 12.0 * 3600.0 {
        assert i < |front| ==> Stores(front, tok, i);
      }
    }
  }
}
