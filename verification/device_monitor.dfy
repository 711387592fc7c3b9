/**
 * The device monitor of inputmon/inputmon.go as interleaved steps: any number of scanners and one
 * reader for each key-capable device share the known-set and the append-only log.
 */
module DeviceMonitor {
  import opened Bits
  import opened Lists

  /** How far a device has come; each file opened by a scanner is a new device. */
  datatype Stage =
    | Opened      // a scanner holds the file, not yet registered
    | Lost        // another scanner had registered the path; file closed
    | Registered  // in the known-set, DEVICE_ADDED not yet logged
    | Quiet       // not key-capable: logged, never read
    | Reading     // its reader runs
    | Deleted     // taken out of the known-set, DEVICE_REMOVED not yet logged
    | Retired     // DEVICE_REMOVED logged, file not yet closed
    | Closed      // its reader has ended

  datatype Device = Device(path: string, keyCap: bool, stage: Stage)

  /** Log records, with the device that wrote each. */
  datatype Record = Added(d: nat, path: string) | Key(d: nat, path: string) | Removed(d: nat, path: string)

  /** `passed` holds the paths that passed the check of `scan` and are still to be opened. */
  datatype State = State(devs: seq<Device>, known: map<string, nat>, passed: seq<string>, log: seq<Record>)

  const START := State([], map[], [], [])

  // ---------------------------------------------------------- atomic steps

  datatype Event =
    | See(path: string)                              // scan finds path not in the known-set
    | Open(k: nat, keyCap: bool)                     // openDevice opens the k-th passed path
    | OpenFails(k: nat)
    | Register(d: nat)                               // the critical section of openDevice
    | LogAdded(d: nat)                               // logFields, then the reader starts
    | LogKey(d: nat)
    | Remove(d: nat)                                 // the critical section of removeDevice
    | LogRemoved(d: nat)
    | Close(d: nat)

  function StageOf(s: State, d: nat): Stage {
    if d < |s.devs| then s.devs[d].stage else Lost
  }

  predicate Enabled(s: State, e: Event) {
    match e
    case See(path) => path !in s.known
    case Open(k, _) => k < |s.passed|
    case OpenFails(k) => k < |s.passed|
    case Register(d) => StageOf(s, d).Opened?
    case LogAdded(d) => StageOf(s, d).Registered?
    case LogKey(d) => StageOf(s, d).Reading?
    case Remove(d) => StageOf(s, d).Reading?
    case LogRemoved(d) => StageOf(s, d).Deleted?
    case Close(d) => StageOf(s, d).Retired?
  }

  function SetStage(s: State, d: nat, stage: Stage): State
    requires d < |s.devs|
  {
    s.(devs := s.devs[d := s.devs[d].(stage := stage)])
  }

  function Next(s: State, e: Event): State
    requires Enabled(s, e)
  {
    match e
    case See(path) => s.(passed := s.passed + [path])
    case Open(k, keyCap) =>
      s.(passed := s.passed[..k] + s.passed[k + 1..], devs := s.devs + [Device(s.passed[k], keyCap, Opened)])
    case OpenFails(k) => s.(passed := s.passed[..k] + s.passed[k + 1..])
    case Register(d) =>
      var path := s.devs[d].path;
      if path in s.known then SetStage(s, d, Lost)
      else SetStage(s, d, Registered).(known := s.known[path := d])
    case LogAdded(d) =>
      SetStage(s, d, if s.devs[d].keyCap then Reading else Quiet).(log := s.log + [Added(d, s.devs[d].path)])
    case LogKey(d) => s.(log := s.log + [Key(d, s.devs[d].path)])
    case Remove(d) =>
      var path := s.devs[d].path;
      if path !in s.known || s.known[path] != d then SetStage(s, d, Closed)
      else SetStage(s, d, Deleted).(known := s.known - {path})
    case LogRemoved(d) => SetStage(s, d, Retired).(log := s.log + [Removed(d, s.devs[d].path)])
    case Close(d) => SetStage(s, d, Closed)
  }

  // ---------------------------------------------------------- runs

  predicate Feasible(es: seq<Event>)
    decreases |es|, 0
  {
    es == [] || (Feasible(es[..|es| - 1]) && Enabled(Outcome(es[..|es| - 1]), es[|es| - 1]))
  }

  function Outcome(es: seq<Event>): State
    requires Feasible(es)
    decreases |es|, 1
  {
    if es == [] then START else Next(Outcome(es[..|es| - 1]), es[|es| - 1])
  }

  // ---------------------------------------------------------- what the log and the known-set say

  function CountAdded(log: seq<Record>, path: string): nat {
    if log == [] then 0 else
      var last := log[|log| - 1];
      CountAdded(log[..|log| - 1], path) + Bit(last.Added? && last.path == path)
  }

  function CountRemoved(log: seq<Record>, path: string): nat {
    if log == [] then 0 else
      var last := log[|log| - 1];
      CountRemoved(log[..|log| - 1], path) + Bit(last.Removed? && last.path == path)
  }

  function CountStage(devs: seq<Device>, path: string, stage: Stage): nat {
    if devs == [] then 0
    else
      var last := devs[|devs| - 1];
      CountStage(devs[..|devs| - 1], path, stage) + Bit(last.path == path && last.stage == stage)
  }

  /** The records device d wrote, in order. */
  function Own(log: seq<Record>, d: nat): seq<Record> {
    if log == [] then [] else Own(log[..|log| - 1], d) + (if log[|log| - 1].d == d then [log[|log| - 1]] else [])
  }

  /** ADDED, then KEYs, then at most one REMOVED, according to how far the device has come. */
  ghost predicate History(own: seq<Record>, stage: Stage) {
    match stage
    case Opened => own == []
    case Lost => own == []
    case Registered => own == []
    case Quiet => |own| == 1 && own[0].Added?
    case Reading => AddedThenKeys(own)
    case Deleted => AddedThenKeys(own)
    case Retired => own != [] && own[|own| - 1].Removed? && AddedThenKeys(own[..|own| - 1])
    case Closed => own != [] && own[|own| - 1].Removed? && AddedThenKeys(own[..|own| - 1])
  }

  ghost predicate AddedThenKeys(own: seq<Record>) {
    own != [] && own[0].Added? && forall i :: 1 <= i < |own| ==> own[i].Key?
  }

  predicate Live(stage: Stage) {
    stage.Registered? || stage.Quiet? || stage.Reading?
  }

  /** The known-set holds exactly the registered devices that have not been deleted. */
  ghost predicate KnownExact(s: State) {
    && (forall path :: path in s.known ==>
      && s.known[path] < |s.devs| && s.devs[s.known[path]].path == path
      && Live(s.devs[s.known[path]].stage))
    && (forall d :: 0 <= d < |s.devs| && Live(s.devs[d].stage) ==>
      s.devs[d].path in s.known && s.known[s.devs[d].path] == d)
  }

  ghost predicate Balanced(s: State, path: string) {
    CountAdded(s.log, path) + CountStage(s.devs, path, Registered)
    == CountRemoved(s.log, path) + CountStage(s.devs, path, Deleted) + Bit(path in s.known)
  }

  ghost predicate Histories(s: State) {
    && (forall d :: 0 <= d < |s.devs| ==> History(Own(s.log, d), s.devs[d].stage))
    && (forall d :: |s.devs| <= d ==> Own(s.log, d) == [])
    && (forall i :: 0 <= i < |s.log| ==> s.log[i].d < |s.devs| && s.log[i].path == s.devs[s.log[i].d].path)
  }

  // ---------------------------------------------------------- one step

  lemma KnownStep(s: State, e: Event)
    requires KnownExact(s) && Enabled(s, e)
    ensures KnownExact(Next(s, e))
  {
    match e
    case Register(d) => RegisterKnown(s, d);
    case Remove(d) => RemoveKnown(s, d);
    case LogAdded(d) => SameLife(s, d, Next(s, e).devs[d].stage, Next(s, e));
    case LogKey(d) => assert Next(s, e).devs == s.devs;
    case LogRemoved(d) => SameLife(s, d, Retired, Next(s, e));
    case Close(d) => SameLife(s, d, Closed, Next(s, e));
    case _ =>
  }

  lemma RegisterKnown(s: State, d: nat)
    requires KnownExact(s) && Enabled(s, Register(d))
    ensures KnownExact(Next(s, Register(d)))
  {}

  /** The guard of removeDevice never fails: a reader's device is the one its path is known as. */
  lemma RemoveKnown(s: State, d: nat)
    requires KnownExact(s) && Enabled(s, Remove(d))
    ensures s.devs[d].path in s.known && s.known[s.devs[d].path] == d
    ensures KnownExact(Next(s, Remove(d)))
  {}

  lemma SameLife(s: State, d: nat, stage: Stage, n: State)
    requires KnownExact(s) && d < |s.devs| && Live(s.devs[d].stage) == Live(stage)
    requires n.known == s.known && n.devs == s.devs[d := s.devs[d].(stage := stage)]
    ensures KnownExact(n)
  {}

  lemma {:induction false} StageUpdate(devs: seq<Device>, d: nat, stage: Stage, path: string, x: Stage)
    requires d < |devs|
    ensures CountStage(devs[d := devs[d].(stage := stage)], path, x) + Bit(devs[d].path == path && devs[d].stage == x)
         == CountStage(devs, path, x) + Bit(devs[d].path == path && stage == x)
    decreases |devs|
  {
    var (last, front, after) := (|devs| - 1, devs[..|devs| - 1], devs[d := devs[d].(stage := stage)]);
    if d == last {
      assert after[..last] == front;
    } else {
      StageUpdate(front, d, stage, path, x);
      assert after[..last] == front[d := devs[d].(stage := stage)];
    }
  }

  lemma LogPush(log: seq<Record>, r: Record)
    ensures forall path :: CountAdded(log + [r], path) == CountAdded(log, path) + Bit(r.Added? && r.path == path)
    ensures forall path :: CountRemoved(log + [r], path) == CountRemoved(log, path) + Bit(r.Removed? && r.path == path)
    ensures forall d :: Own(log + [r], d) == Own(log, d) + (if r.d == d then [r] else [])
  {
    assert (log + [r])[..|log|] == log;
  }

  lemma BalanceStep(s: State, e: Event, path: string)
    requires KnownExact(s) && Enabled(s, e) && Balanced(s, path)
    ensures Balanced(Next(s, e), path)
  {
    hide CountAdded, CountRemoved, CountStage, Own;
    match e
    case See(_) =>
    case Open(_, _) => NewDevice(s.devs, Next(s, e).devs, path);
    case OpenFails(_) =>
    case LogKey(d) => LogPush(s.log, Key(d, s.devs[d].path));
    case LogAdded(d) => AddedBalance(s, d, path);
    case LogRemoved(d) => RemovedBalance(s, d, path);
    case _ => StageMoves(s, e.d, Next(s, e).devs[e.d].stage, path);
  }

  lemma AddedBalance(s: State, d: nat, path: string)
    requires Enabled(s, LogAdded(d)) && Balanced(s, path)
    ensures Balanced(Next(s, LogAdded(d)), path)
  {
    hide CountAdded, CountRemoved, CountStage, Own;
    LogPush(s.log, Added(d, s.devs[d].path));
    StageMoves(s, d, Next(s, LogAdded(d)).devs[d].stage, path);
  }

  lemma RemovedBalance(s: State, d: nat, path: string)
    requires Enabled(s, LogRemoved(d)) && Balanced(s, path)
    ensures Balanced(Next(s, LogRemoved(d)), path)
  {
    hide CountAdded, CountRemoved, CountStage, Own;
    LogPush(s.log, Removed(d, s.devs[d].path));
    StageMoves(s, d, Retired, path);
  }

  lemma NewDevice(devs: seq<Device>, more: seq<Device>, path: string)
    requires |more| == |devs| + 1 && more[..|devs|] == devs && more[|devs|].stage.Opened?
    ensures CountStage(more, path, Registered) == CountStage(devs, path, Registered)
    ensures CountStage(more, path, Deleted) == CountStage(devs, path, Deleted)
  {}

  lemma StageMoves(s: State, d: nat, stage: Stage, path: string)
    requires d < |s.devs|
    ensures var (was, after) := (s.devs[d], SetStage(s, d, stage).devs);
      CountStage(after, path, Registered) + Bit(was.path == path && was.stage.Registered?)
        == CountStage(s.devs, path, Registered) + Bit(was.path == path && stage.Registered?)
      && CountStage(after, path, Deleted) + Bit(was.path == path && was.stage.Deleted?)
        == CountStage(s.devs, path, Deleted) + Bit(was.path == path && stage.Deleted?)
  {
    StageUpdate(s.devs, d, stage, path, Registered);
    StageUpdate(s.devs, d, stage, path, Deleted);
  }

  lemma HistoryStep(s: State, e: Event)
    requires KnownExact(s) && Enabled(s, e) && Histories(s)
    ensures Histories(Next(s, e))
  {
    hide Own, KnownExact, History;
    var n := Next(s, e);
    forall d | 0 <= d < |n.devs| ensures History(Own(n.log, d), n.devs[d].stage) {
      assert d < |s.devs| ==> History(Own(s.log, d), s.devs[d].stage);
      HistoryOf(s, e, d);
    }
    OthersOwnNothing(s, e);
  }

  /** A record names an opened device and its path, so devices yet to be opened own none. */
  lemma OthersOwnNothing(s: State, e: Event)
    requires Enabled(s, e) && Histories(s)
    ensures var n := Next(s, e);
      && (forall d :: |n.devs| <= d ==> Own(n.log, d) == [])
      && (forall i :: 0 <= i < |n.log| ==> n.log[i].d < |n.devs| && n.log[i].path == n.devs[n.log[i].d].path)
  {
    hide Own, History, CountAdded, CountRemoved;
    if e.LogAdded? || e.LogKey? || e.LogRemoved? {
      LogPush(s.log, Next(s, e).log[|s.log|]);
    }
  }

  lemma HistoryOf(s: State, e: Event, d: nat)
    requires KnownExact(s) && Enabled(s, e) && d < |Next(s, e).devs|
    requires if d < |s.devs| then History(Own(s.log, d), s.devs[d].stage) else Own(s.log, d) == []
    ensures History(Own(Next(s, e).log, d), Next(s, e).devs[d].stage)
  {
    hide Own, KnownExact, History;
    var own := Own(s.log, d);
    match e
    case See(_) =>
    case Open(_, _) => NoRecords();
    case OpenFails(_) =>
    case LogAdded(x) =>
      LogPush(s.log, Added(x, s.devs[x].path));
      if d == x {
        FirstRecord(own, Added(x, s.devs[x].path));
      } else {
        NoMore(own);
      }
    case LogKey(x) =>
      LogPush(s.log, Key(x, s.devs[x].path));
      if d == x {
        KeysGrow(own, Key(x, s.devs[x].path));
      } else {
        NoMore(own);
      }
    case LogRemoved(x) =>
      LogPush(s.log, Removed(x, s.devs[x].path));
      if d == x {
        LastRecord(own, Removed(x, s.devs[x].path));
      } else {
        NoMore(own);
      }
    case Remove(x) =>
      RemoveKnown(s, x);
      SameHistory(own);
    case Register(_) => SameHistory(own);
    case Close(_) => SameHistory(own);
  }

  lemma NoRecords()
    ensures History([], Opened)
  {}

  lemma NoMore(own: seq<Record>)
    ensures own + [] == own
  {}

  lemma SameHistory(own: seq<Record>)
    ensures History(own, Opened) ==> History(own, Lost) && History(own, Registered)
    ensures History(own, Reading) ==> History(own, Deleted)
    ensures History(own, Retired) ==> History(own, Closed)
  {}

  lemma FirstRecord(own: seq<Record>, r: Record)
    requires History(own, Registered) && r.Added?
    ensures History(own + [r], Reading) && History(own + [r], Quiet)
  {}

  lemma KeysGrow(own: seq<Record>, r: Record)
    requires History(own, Reading) && r.Key?
    ensures History(own + [r], Reading)
  {}

  lemma LastRecord(own: seq<Record>, r: Record)
    requires History(own, Deleted) && r.Removed?
    ensures History(own + [r], Retired)
  {
    assert (own + [r])[..|own|] == own && (own + [r])[|own|] == r;
  }

  // ---------------------------------------------------------- every interleaving

  lemma {:induction false} Reachable(es: seq<Event>)
    requires Feasible(es)
    ensures KnownExact(Outcome(es)) && Histories(Outcome(es))
    ensures forall path :: Balanced(Outcome(es), path)
    decreases |es|
  {
    if es != [] {
      var (before, e) := (es[..|es| - 1], es[|es| - 1]);
      Reachable(before);
      var s := Outcome(before);
      KnownStep(s, e);
      HistoryStep(s, e);
      forall path ensures Balanced(Outcome(es), path) {
        BalanceStep(s, e, path);
      }
    }
  }

  /** The conservation law: for each path, in every reachable state. */
  lemma Conservation(es: seq<Event>, path: string)
    requires Feasible(es)
    ensures var s := Outcome(es);
      CountAdded(s.log, path) + CountStage(s.devs, path, Registered)
        - CountRemoved(s.log, path) - CountStage(s.devs, path, Deleted) == if path in s.known then 1 else 0
  {
    Reachable(es);
    assert Balanced(Outcome(es), path);
  }

  /** What each device logged, and that a scanner that lost the race logged nothing for its device. */
  lemma OwnRecords(es: seq<Event>, d: nat)
    requires Feasible(es) && d < |Outcome(es).devs|
    ensures History(Own(Outcome(es).log, d), Outcome(es).devs[d].stage)
    ensures Outcome(es).devs[d].stage.Lost? ==> Own(Outcome(es).log, d) == []
  {
    Reachable(es);
  }

  // ---------------------------------------------------------- what decides about a device

  /** Only key-capable devices get a reader, and they always do. */
  predicate Suited(dev: Device) {
    match dev.stage
    case Quiet => !dev.keyCap
    case Reading => dev.keyCap
    case Deleted => dev.keyCap
    case Retired => dev.keyCap
    case Closed => dev.keyCap
    case _ => true
  }

  lemma {:induction false} AllSuited(es: seq<Event>)
    requires Feasible(es)
    ensures forall d :: 0 <= d < |Outcome(es).devs| ==> Suited(Outcome(es).devs[d])
    decreases |es|
  {
    if es != [] {
      AllSuited(es[..|es| - 1]);
      var (s, e) := (Outcome(es[..|es| - 1]), es[|es| - 1]);
      hide Feasible, Outcome;
      assert forall d :: 0 <= d < |s.devs| ==> Suited(Next(s, e).devs[d]);
    }
  }

  lemma {:induction false} OwnAreLogged(log: seq<Record>, d: nat)
    ensures forall r :: r in Own(log, d) ==> r in log && r.d == d
    decreases |log|
  {
    if log != [] {
      OwnAreLogged(log[..|log| - 1], d);
    }
  }

  /** What a device may have logged, and how far it may have come. */
  ghost predicate FitsKeyCap(dev: Device, own: seq<Record>, d: nat) {
    if dev.keyCap then
      !dev.stage.Quiet? && (own != [] ==> !dev.stage.Opened? && !dev.stage.Lost? && !dev.stage.Registered?)
    else
      && (own == [] || own == [Added(d, dev.path)])
      && !dev.stage.Reading? && !dev.stage.Deleted? && !dev.stage.Retired? && !dev.stage.Closed?
  }

  lemma HistoryFits(dev: Device, own: seq<Record>, d: nat)
    requires History(own, dev.stage) && Suited(dev) && forall r :: r in own ==> r.d == d && r.path == dev.path
    ensures FitsKeyCap(dev, own, d)
  {
    if own != [] {
      assert own[0] in own;
    }
  }

  lemma OwnNameTheDevice(s: State, d: nat)
    requires Histories(s) && d < |s.devs|
    ensures forall r :: r in Own(s.log, d) ==> r.d == d && r.path == s.devs[d].path
  {
    OwnAreLogged(s.log, d);
    hide Own, History;
    forall r | r in Own(s.log, d) ensures r.path == s.devs[d].path {
      var i :| 0 <= i < |s.log| && s.log[i] == r;
    }
  }

  /**
   * In every reachable state a device that is not key-capable has logged nothing or its ADDED only and has no reader,
   * and a key-capable one whose ADDED is logged has or had one.
   */
  lemma KeyCapDecides(es: seq<Event>, d: nat)
    requires Feasible(es) && d < |Outcome(es).devs|
    ensures FitsKeyCap(Outcome(es).devs[d], Own(Outcome(es).log, d), d)
  {
    Reachable(es);
    AllSuited(es);
    var s := Outcome(es);
    assert History(Own(s.log, d), s.devs[d].stage);
    hide Feasible, Outcome, KnownExact, Own, History, Suited, FitsKeyCap;
    OwnNameTheDevice(s, d);
    HistoryFits(s.devs[d], Own(s.log, d), d);
  }

  /** With what path and capability a device was opened. */
  datatype Opening = Opening(path: string, keyCap: bool)

  /** The openings of a run, in order. */
  function OpeningsOf(es: seq<Event>): seq<Opening>
    requires Feasible(es)
    decreases |es|
  {
    if es == [] then [] else
      var (before, e) := (es[..|es| - 1], es[|es| - 1]);
      if e.Open? then OpeningsOf(before) + [Opening(Outcome(before).passed[e.k], e.keyCap)] else OpeningsOf(before)
  }

  /** The records the logging events of a run call for. */
  function Logged(es: seq<Event>): seq<Record>
    requires Feasible(es)
    decreases |es|
  {
    if es == [] then [] else
      var (before, e, paths) := (es[..|es| - 1], es[|es| - 1], OpeningsOf(es));
      match e
      case LogAdded(d) => Logged(before) + (if d < |paths| then [Added(d, paths[d].path)] else [])
      case LogKey(d) => Logged(before) + (if d < |paths| then [Key(d, paths[d].path)] else [])
      case LogRemoved(d) => Logged(before) + (if d < |paths| then [Removed(d, paths[d].path)] else [])
      case _ => Logged(before)
  }

  ghost predicate AsOpened(s: State, openings: seq<Opening>) {
    && |s.devs| == |openings|
    && forall d :: 0 <= d < |s.devs| ==> s.devs[d].path == openings[d].path && s.devs[d].keyCap == openings[d].keyCap
  }

  lemma OpenedStep(s: State, e: Event, openings: seq<Opening>)
    requires Enabled(s, e) && AsOpened(s, openings)
    ensures AsOpened(Next(s, e), if e.Open? then openings + [Opening(s.passed[e.k], e.keyCap)] else openings)
  {}

  /** Each device is a passed path as it was opened, and the log is what the logging events wrote, in their order. */
  lemma {:induction false} LogFollowsEvents(es: seq<Event>)
    requires Feasible(es)
    ensures AsOpened(Outcome(es), OpeningsOf(es)) && Outcome(es).log == Logged(es)
    decreases |es|
  {
    if es != [] {
      var (before, e) := (es[..|es| - 1], es[|es| - 1]);
      LogFollowsEvents(before);
      OpenedStep(Outcome(before), e, OpeningsOf(before));
      assert Outcome(es) == Next(Outcome(before), e);
      hide Feasible, Outcome;
    }
  }

  /** The paths that passed the check of scan, and those of them that failed to open, in order. */
  function SeenPaths(es: seq<Event>): seq<string> {
    if es == [] then [] else
      var e := es[|es| - 1];
      SeenPaths(es[..|es| - 1]) + (if e.See? then [e.path] else [])
  }

  function FailedPaths(es: seq<Event>): seq<string>
    requires Feasible(es)
    decreases |es|
  {
    if es == [] then [] else
      var (before, e) := (es[..|es| - 1], es[|es| - 1]);
      FailedPaths(before) + (if e.OpenFails? then [Outcome(before).passed[e.k]] else [])
  }

  function PathsOf(openings: seq<Opening>): (paths: seq<string>)
    ensures |paths| == |openings|
  {
    seq(|openings|, i requires 0 <= i < |openings| => openings[i].path)
  }

  lemma PathsPush(openings: seq<Opening>, o: Opening)
    ensures PathsOf(openings + [o]) == PathsOf(openings) + [o.path]
  {}

  lemma OpenedNext(es: seq<Event>)
    requires es != [] && Feasible(es)
    ensures var (before, e) := (es[..|es| - 1], es[|es| - 1]);
            PathsOf(OpeningsOf(es)) ==
              PathsOf(OpeningsOf(before)) + if e.Open? then [Outcome(before).passed[e.k]] else []
  {
    hide Outcome, PathsOf;
    var (before, e) := (es[..|es| - 1], es[|es| - 1]);
    if e.Open? {
      PathsPush(OpeningsOf(before), Opening(Outcome(before).passed[e.k], e.keyCap));
    } else {
      assert PathsOf(OpeningsOf(before)) + [] == PathsOf(OpeningsOf(before));
    }
  }

  lemma SeenNext(es: seq<Event>)
    requires es != []
    ensures var (before, e) := (es[..|es| - 1], es[|es| - 1]);
            SeenPaths(es) == SeenPaths(before) + if e.See? then [e.path] else []
  {}

  lemma FailedNext(es: seq<Event>)
    requires es != [] && Feasible(es)
    ensures var (before, e) := (es[..|es| - 1], es[|es| - 1]);
            FailedPaths(es) == FailedPaths(before) + if e.OpenFails? then [Outcome(before).passed[e.k]] else []
  {
    hide Outcome;
  }

  lemma PassedNext(s: State, e: Event)
    requires Enabled(s, e)
    ensures Next(s, e).passed == if e.Open? || e.OpenFails? then s.passed[..e.k] + s.passed[e.k + 1..]
                                 else s.passed + if e.See? then [e.path] else []
  {
    assert s.passed + [] == s.passed;
  }

  lemma TimesMore(s: seq<string>, more: seq<string>, path: string)
    requires |more| <= 1
    ensures Times(s + more, path) == Times(s, path) + if more == [] then 0 else Bit(more[0] == path)
  {
    if more == [] {
      assert s + more == s;
    } else {
      assert s + more == s + [more[0]];
      TimesPush(s, more[0], path);
    }
  }

  /** Every path that passed the check is opened once, fails to open once, or still waits. */
  lemma {:induction false} PathsAreConserved(es: seq<Event>, path: string)
    requires Feasible(es)
    ensures Times(SeenPaths(es), path)
         == Times(PathsOf(OpeningsOf(es)), path) + Times(FailedPaths(es), path) + Times(Outcome(es).passed, path)
    decreases |es|
  {
    if es == [] {
      assert PathsOf(OpeningsOf(es)) == [];
    } else {
      var (before, e) := (es[..|es| - 1], es[|es| - 1]);
      PathsAreConserved(before, path);
      var s := Outcome(before);
      assert Outcome(es) == Next(s, e);
      PassedNext(s, e);
      OpenedNext(es);
      SeenNext(es);
      FailedNext(es);
      hide Outcome, Next, PathsOf, SeenPaths, FailedPaths, OpeningsOf, Times;
      TimesMore(SeenPaths(before), if e.See? then [e.path] else [], path);
      TimesMore(PathsOf(OpeningsOf(before)), if e.Open? then [s.passed[e.k]] else [], path);
      TimesMore(FailedPaths(before), if e.OpenFails? then [s.passed[e.k]] else [], path);
      if e.Open? || e.OpenFails? {
        TimesWithout(s.passed, e.k, path);
      } else {
        TimesMore(s.passed, if e.See? then [e.path] else [], path);
      }
      hide Feasible;
    }
  }

  /** removeDevice always finds its own device under its path, so it never skips the record. */
  lemma RemovalNeverSkips(es: seq<Event>, d: nat)
    requires Feasible(es) && Enabled(Outcome(es), Remove(d))
    ensures Next(Outcome(es), Remove(d)).devs[d].stage == Deleted
  {
    Reachable(es);
    RemoveKnown(Outcome(es), d);
  }

  // ---------------------------------------------------------- alternation in the log

  function Balance(log: seq<Record>, path: string): int {
    CountAdded(log, path) - CountRemoved(log, path)
  }

  /** ADDED and REMOVED records of the path alternate, ADDED first. */
  predicate Alternates(log: seq<Record>, path: string)
    decreases |log|
  {
    log == [] || (Alternates(log[..|log| - 1], path) && 0 <= Balance(log, path) <= 1)
  }

  /** Every DEVICE_ADDED of the path was logged while no removal of the path waited to be logged. */
  predicate NoOvertaking(es: seq<Event>, path: string)
    requires Feasible(es)
    decreases |es|
  {
    es == [] ||
    var (before, e) := (es[..|es| - 1], es[|es| - 1]);
    && NoOvertaking(before, path)
    && (e.LogAdded? && Outcome(before).devs[e.d].path == path ==> CountStage(Outcome(before).devs, path, Deleted) == 0)
  }

  lemma {:induction false} SomeStage(devs: seq<Device>, d: nat)
    requires d < |devs|
    ensures CountStage(devs, devs[d].path, devs[d].stage) >= 1
    decreases |devs|
  {
    if d < |devs| - 1 {
      SomeStage(devs[..|devs| - 1], d);
    }
  }

  lemma {:induction false} AtMostOneRegistered(devs: seq<Device>, known: map<string, nat>, path: string)
    requires forall d :: 0 <= d < |devs| && devs[d].path == path && devs[d].stage.Registered? ==>
      path in known && known[path] == d
    ensures CountStage(devs, path, Registered) <= Bit(path in known && known[path] < |devs|)
    decreases |devs|
  {
    if devs != [] {
      AtMostOneRegistered(devs[..|devs| - 1], known, path);
    }
  }

  lemma AtMostKnown(s: State, path: string)
    requires KnownExact(s)
    ensures CountStage(s.devs, path, Registered) <= Bit(path in s.known)
  {
    AtMostOneRegistered(s.devs, s.known, path);
  }

  /** Only a DEVICE_ADDED that overtakes a pending removal takes the balance out of 0..1. */
  lemma BalanceBound(s: State, e: Event, path: string)
    requires KnownExact(s) && Enabled(s, e) && Balanced(s, path)
    requires 0 <= Balance(s.log, path) <= 1
    ensures var overtakes := e.LogAdded? && s.devs[e.d].path == path && CountStage(s.devs, path, Deleted) > 0;
      0 <= Balance(Next(s, e).log, path) <= 1 <==> !overtakes
  {
    hide CountAdded, CountRemoved, CountStage, KnownExact, Own;
    AtMostKnown(s, path);
    match e
    case LogAdded(d) =>
      LogPush(s.log, Added(d, s.devs[d].path));
      SomeStage(s.devs, d);
    case LogKey(d) => LogPush(s.log, Key(d, s.devs[d].path));
    case LogRemoved(d) =>
      LogPush(s.log, Removed(d, s.devs[d].path));
      SomeStage(s.devs, d);
    case _ =>
  }

  lemma AlternatesGrow(log: seq<Record>, more: seq<Record>, path: string)
    requires more == log || (|more| == |log| + 1 && more[..|log|] == log)
    ensures Alternates(log, path) ==> 0 <= Balance(log, path) <= 1
    ensures Alternates(more, path) <==> Alternates(log, path) && 0 <= Balance(more, path) <= 1
  {}

  /** The log of a path alternates exactly when no DEVICE_ADDED overtook a pending DEVICE_REMOVED. */
  lemma {:induction false} AlternatesExactly(es: seq<Event>, path: string)
    requires Feasible(es)
    ensures Alternates(Outcome(es).log, path) <==> NoOvertaking(es, path)
    decreases |es|
  {
    if es == [] {
    } else {
      var (before, e) := (es[..|es| - 1], es[|es| - 1]);
      AlternatesExactly(before, path);
      Reachable(before);
      hide Alternates, CountStage, KnownExact, Histories, Balanced, Next;
      assert Balanced(Outcome(before), path);
      AlternatesStep(Outcome(before), e, path);
    }
  }

  lemma AlternatesStep(s: State, e: Event, path: string)
    requires KnownExact(s) && Enabled(s, e) && Balanced(s, path)
    ensures var overtakes := e.LogAdded? && s.devs[e.d].path == path && CountStage(s.devs, path, Deleted) > 0;
      Alternates(Next(s, e).log, path) <==> Alternates(s.log, path) && !overtakes
  {
    hide Alternates, Balance, CountStage, KnownExact, Balanced;
    AlternatesGrow(s.log, Next(s, e).log, path);
    if Alternates(s.log, path) {
      BalanceBound(s, e, path);
    }
  }

  function Overtaken(path: string): seq<Event> {
    [See(path), Open(0, true), Register(0), LogAdded(0), Remove(0),
     See(path), Open(0, true), Register(1), LogAdded(1), LogRemoved(0)]
  }

  /** One more event of a given schedule. */
  lemma Advance(es: seq<Event>, k: nat, s: State)
    requires k < |es| && Feasible(es[..k]) && Outcome(es[..k]) == s && Enabled(s, es[k])
    ensures Feasible(es[..k + 1]) && Outcome(es[..k + 1]) == Next(s, es[k])
  {
    assert es[..k + 1][..k] == es[..k];
  }

  lemma Begin()
    ensures Feasible([]) && Outcome([]) == START
  {}

  lemma FirstRegistered(path: string)
    ensures Feasible(Overtaken(path)[..3])
    ensures Outcome(Overtaken(path)[..3]) == State([Device(path, true, Registered)], map[path := 0], [], [])
  {
    Begin();
    hide Feasible, Outcome;
    var es := Overtaken(path);
    var s2 := State([Device(path, true, Opened)], map[], [], []);
    assert es[..0] == [];
    Advance(es, 0, START);
    Advance(es, 1, State([], map[], [path], []));
    assert Next(State([], map[], [path], []), es[1]) == s2;
    Advance(es, 2, s2);
  }

  /** The first device is read and deleted, its removal not yet logged. */
  lemma FirstHalf(path: string)
    ensures Feasible(Overtaken(path)[..5])
    ensures Outcome(Overtaken(path)[..5]) == State([Device(path, true, Deleted)], map[], [], [Added(0, path)])
  {
    FirstRegistered(path);
    hide Feasible, Outcome;
    var es := Overtaken(path);
    var s3 := State([Device(path, true, Registered)], map[path := 0], [], []);
    var s4 := State([Device(path, true, Reading)], map[path := 0], [], [Added(0, path)]);
    Advance(es, 3, s3);
    assert Next(s3, es[3]) == s4;
    Advance(es, 4, s4);
  }

  /** The path is opened again and logged before the first removal is. */
  lemma SecondHalf(path: string)
    ensures Feasible(Overtaken(path))
    ensures Outcome(Overtaken(path)).log == [Added(0, path), Added(1, path), Removed(0, path)]
  {
    FirstHalf(path);
    hide Feasible, Outcome;
    var es := Overtaken(path);
    var gone := Device(path, true, Deleted);
    var s5 := State([gone], map[], [], [Added(0, path)]);
    var s6 := State([gone], map[], [path], [Added(0, path)]);
    var s7 := State([gone, Device(path, true, Opened)], map[], [], [Added(0, path)]);
    var s8 := State([gone, Device(path, true, Registered)], map[path := 1], [], [Added(0, path)]);
    var s9 := State([gone, Device(path, true, Reading)], map[path := 1], [], [Added(0, path), Added(1, path)]);
    Advance(es, 5, s5);
    Advance(es, 6, s6);
    assert Next(s6, es[6]) == s7;
    Advance(es, 7, s7);
    assert Next(s7, es[7]) == s8;
    Advance(es, 8, s8);
    assert Next(s8, es[8]) == s9;
    Advance(es, 9, s9);
    assert es[..10] == es;
  }

  /** A device replugged before its removal is logged breaks the alternation. */
  lemma AlternationFails(path: string)
    ensures Feasible(Overtaken(path)) && !Alternates(Outcome(Overtaken(path)).log, path)
  {
    SecondHalf(path);
    hide Feasible, Outcome;
    var log := Outcome(Overtaken(path)).log;
    var (one, two) := ([Added(0, path)], [Added(0, path), Added(1, path)]);
    assert log[..2] == two && two[..1] == one && one[..0] == [];
    assert CountAdded(one, path) == 1 && CountRemoved(one, path) == 0;
    assert CountAdded(two, path) == 2 && CountRemoved(two, path) == 0;
    assert !Alternates(two, path);
  }
}
