/** Shutdown cannot deadlock and cannot go on forever. */
module TcpLiveness {
  import opened TcpServer
  import opened TcpLifecycle
  import opened TcpInvariants

  /** Shutdown is on its way: the context has ended, or the accept loop has left. */
  predicate Triggered(s: State) {
    s.ctxDone || s.loop.Leaving? || Winding(s.loop) || !s.shutdown.NotStarted?
  }

  /** Steps the program is bound to take once enabled. The others are the environment's: the end of
      the context, a new connection, a spontaneous Accept error, and the return of a handler whose
      connection is still open. A handler must return once its connection is closed. */
  predicate Obliged(s: State, a: Action) {
    match a
    case CtxCancel => false
    case Accept => false
    case AcceptFails => s.listenerClosed
    case HandlerReturns(c) => c in s.closed
    case _ => true
  }

  function LoopRank(loop: AcceptLoop): nat {
    match loop
    case Returned => 0
    case Joining => 1
    case ClosingJobs => 2
    case ClosingDone => 3
    case Leaving => 4
    case Refusing(_) => 5
    case Tracking(_) => 6
    case Accepting => 7
    case Rejecting(_) => 8
    case CancelDone(_) => 8
    case CancelDelete(_) => 9
    case CancelClose(_) => 10
    case Handing(_) => 11
    case Spawning(_) => 11
  }

  function PhaseRank(shutdown: Shutdown, active: nat): nat {
    match shutdown
    case NotStarted => active + 7
    case Begin => active + 6
    case CloseListener => active + 5
    case Grace => active + 4
    case Snapshot => active + 3
    case ForceClosing(pending) => |pending| + 2
    case FinalWait => 1
    case Finished => 0
  }

  function ShutdownRank(s: State): nat {
    PhaseRank(s.shutdown, |s.sh.active|)
  }

  function ConnWork(s: State): nat {
    3 * |s.running| + 2 * |s.finishing| + |s.releasing|
  }

  function LoopWork(s: State): nat {
    LoopRank(s.loop) + ConnWork(s)
  }

  function RestWork(cfg: Config, s: State): nat
    requires s.exited <= cfg.workers
  {
    (cfg.workers - s.exited)
    + (if s.watcher.Watching? then 2 else if s.watcher.InShutdown? then 1 else 0)
    + if s.ctxDone then 0 else 1
  }

  /** What is left to do. */
  function Work(cfg: Config, s: State): nat
    requires s.exited <= cfg.workers
  {
    LoopWork(s) + ShutdownRank(s) + RestWork(cfg, s)
  }

  lemma SubsetCard(a: set<Conn>, b: set<Conn>)
    requires a <= b
    ensures |a| <= |b|
  {
    assert b == a + (b - a);
  }

  lemma StartWorks(cfg: Config, s: State, a: Action)
    requires Enabled(cfg, s, a) && (a.HandOff? || a.Spawn?) && s.loop.c !in s.running
    ensures LoopWork(Apply(cfg, s, a)) < LoopWork(s)
  {
    hide ConnStep, ShutdownStep, WatchStep;
    assert |s.running + {s.loop.c}| == |s.running| + 1;
  }

  lemma EndWorks(cfg: Config, s: State, a: Action)
    requires Enabled(cfg, s, a) && ProcessOf(a).ConnProcess?
    ensures LoopWork(Apply(cfg, s, a)) < LoopWork(s)
  {
    hide LoopStep, ShutdownStep, WatchStep, LoopRank;
    assert |s.running - {a.c}| == |s.running| - if a.c in s.running then 1 else 0;
    assert |s.finishing + {a.c}| <= |s.finishing| + 1;
    assert |s.finishing - {a.c}| == |s.finishing| - if a.c in s.finishing then 1 else 0;
    assert |s.releasing + {a.c}| <= |s.releasing| + 1;
    assert |s.releasing - {a.c}| == |s.releasing| - if a.c in s.releasing then 1 else 0;
  }

  lemma TurnWorks(cfg: Config, s: State, a: Action)
    requires Enabled(cfg, s, a) && s.sh.shuttingDown && !a.LoopStarts?
    requires ProcessOf(a).LoopProcess? && !a.HandOff? && !a.Spawn?
    ensures LoopWork(Apply(cfg, s, a)) < LoopWork(s)
  {
    LoopFrame(cfg, s, a);
    LoopShares(cfg, s, a);
    TurnRanks(cfg, s, a);
    hide LoopRank, LoopStep, ConnStep, ShutdownStep, WatchStep;
  }

  lemma TurnRanks(cfg: Config, s: State, a: Action)
    requires LoopEnabled(cfg, s, a) && s.sh.shuttingDown && !a.LoopStarts? && !a.HandOff? && !a.Spawn?
    ensures LoopRank(LoopStep(cfg, s, a).loop) < LoopRank(s.loop)
  {
    if a.Track? {
      assert TrackShared(cfg.maxActive, s.sh, s.loop.c) == (s.sh, ShuttingDown);
    }
  }

  /** The work of the loop and its connections falls with every step of theirs. */
  lemma LoopWorks(cfg: Config, s: State, a: Action)
    requires Inv(cfg, s) && Enabled(cfg, s, a) && s.sh.shuttingDown
    ensures
      if ProcessOf(a).ShutdownProcess? || ProcessOf(a).WatchProcess? then LoopWork(Apply(cfg, s, a)) == LoopWork(s)
      else LoopWork(Apply(cfg, s, a)) < LoopWork(s)
  {
    match ProcessOf(a)
    case LoopProcess =>
      NotStarting(cfg, s, a);
      if a.HandOff? || a.Spawn? {
        assert s.loop.c in Held(s.loop);
        StartWorks(cfg, s, a);
      } else {
        TurnWorks(cfg, s, a);
      }
    case ConnProcess => EndWorks(cfg, s, a);
    case ShutdownProcess =>
      hide Apply;
      ShutdownFrame(cfg, s, a);
    case WatchProcess =>
      hide Apply;
      WatchFrame(cfg, s, a);
  }

  lemma NotStarting(cfg: Config, s: State, a: Action)
    requires Phases(cfg, s) && Enabled(cfg, s, a) && s.sh.shuttingDown
    ensures !a.LoopStarts? && !s.shutdown.NotStarted?
  {
  }

  lemma RestWorks(cfg: Config, s: State, a: Action)
    requires s.exited <= cfg.workers && Enabled(cfg, s, a)
    ensures Apply(cfg, s, a).exited <= cfg.workers
    ensures
      if ProcessOf(a).WatchProcess? then RestWork(cfg, Apply(cfg, s, a)) < RestWork(cfg, s)
      else RestWork(cfg, Apply(cfg, s, a)) == RestWork(cfg, s)
  {
    match ProcessOf(a)
    case LoopProcess =>
      hide Apply;
      LoopFrame(cfg, s, a);
    case ConnProcess =>
      hide Apply;
      ConnFrame(cfg, s, a);
    case ShutdownProcess =>
      hide Apply;
      ShutdownFrame(cfg, s, a);
    case WatchProcess =>
      hide LoopStep, ConnStep, ShutdownStep;
  }

  lemma ActiveShrinks(cfg: Config, s: State, a: Action)
    requires Enabled(cfg, s, a) && s.sh.shuttingDown
    ensures |Apply(cfg, s, a).sh.active| <= |s.sh.active|
  {
    hide Apply;
    SharedDrains(cfg, s, a);
    SubsetCard(Apply(cfg, s, a).sh.active, s.sh.active);
  }

  lemma PhaseMoves(cfg: Config, s: State, a: Action)
    requires ShutdownEnabled(cfg, s, a)
    ensures PhaseRank(ShutdownStep(cfg, s, a).shutdown, |s.sh.active|) < PhaseRank(s.shutdown, |s.sh.active|)
  {
    if a.ForceClose? {
      assert |s.shutdown.pending - {a.c}| == |s.shutdown.pending| - 1;
    }
  }

  lemma ShutdownMoves(cfg: Config, s: State, a: Action)
    requires Enabled(cfg, s, a) && ProcessOf(a).ShutdownProcess?
    ensures ShutdownRank(Apply(cfg, s, a)) < ShutdownRank(s)
  {
    hide LoopStep, ConnStep, ShutdownStep, WatchStep, PhaseRank;
    ShutdownFrame(cfg, s, a);
    PhaseMoves(cfg, s, a);
  }

  lemma ShutdownWorks(cfg: Config, s: State, a: Action)
    requires Phases(cfg, s) && Enabled(cfg, s, a) && s.sh.shuttingDown
    ensures
      if ProcessOf(a).ShutdownProcess? then ShutdownRank(Apply(cfg, s, a)) < ShutdownRank(s)
      else ShutdownRank(Apply(cfg, s, a)) <= ShutdownRank(s)
  {
    hide Apply;
    NotStarting(cfg, s, a);
    ActiveShrinks(cfg, s, a);
    match ProcessOf(a)
    case LoopProcess => LoopShares(cfg, s, a);
    case ConnProcess => ConnFrame(cfg, s, a);
    case ShutdownProcess => ShutdownMoves(cfg, s, a);
    case WatchProcess => WatchFrame(cfg, s, a);
  }

  /** After the flag is set, every step of any process, the environment included, leaves less work. */
  lemma StepWorks(cfg: Config, s: State, a: Action)
    requires Inv(cfg, s) && Enabled(cfg, s, a) && s.sh.shuttingDown
    ensures s.exited <= cfg.workers && Apply(cfg, s, a).exited <= cfg.workers
    ensures Work(cfg, Apply(cfg, s, a)) < Work(cfg, s)
  {
    hide Apply, LoopWork, ShutdownRank, RestWork;
    LoopWorks(cfg, s, a);
    ShutdownWorks(cfg, s, a);
    RestWorks(cfg, s, a);
  }

  /** Hence every run from a shutting-down state is bounded by the work left in it. */
  lemma {:induction false} ShutdownIsBounded(cfg: Config, s: State, acts: seq<Action>)
    requires Inv(cfg, s) && s.sh.shuttingDown && ValidRun(cfg, s, acts)
    ensures s.exited <= cfg.workers && |acts| <= Work(cfg, s)
    decreases acts
  {
    if acts != [] {
      StepWorks(cfg, s, acts[0]);
      StepKeeps(cfg, s, acts[0]);
      SharedDrains(cfg, s, acts[0]);
      ShutdownIsBounded(cfg, Apply(cfg, s, acts[0]), acts[1..]);
    }
  }

  /** The step of a connection that is still counted by the wait group. */
  ghost function ConnNext(s: State): Action
    requires s.running != {} || s.finishing != {} || s.releasing != {}
  {
    if s.releasing != {} then var c :| c in s.releasing; Done(c)
    else if s.finishing != {} then var c :| c in s.finishing; Delete(c)
    else var c :| c in s.running; HandlerReturns(c)
  }

  /** The once-only shutdown's own next step, or the connection step it is waiting for. */
  ghost function ShutdownStepOf(s: State): Action {
    match s.shutdown
    case NotStarted => if s.ctxDone then WatcherStarts else LoopStarts
    case Begin => BeginShutdown
    case CloseListener => ListenerClose
    case Grace => GraceTimeout
    case Snapshot => TakeSnapshot
    case ForceClosing(pending) =>
      if pending == {} then ForceDone else var c :| c in pending; ForceClose(c)
    case FinalWait =>
      if s.running == {} && s.finishing == {} && s.releasing == {} then FinalDone else ConnNext(s)
    case Finished => LoopResumes
  }

  ghost function NextStep(cfg: Config, s: State): Action {
    if s.shutdown.NotStarted? || s.shutdown.Begin? then ShutdownStepOf(s)
    else
      match s.loop
      case Accepting => if s.listenerClosed then AcceptFails else ListenerClose
      case Tracking(_) => Track
      case Rejecting(_) => RejectClose
      case Refusing(_) => RefuseClose
      case Handing(_) => HandCancel
      case Spawning(_) => Spawn
      case CancelClose(_) => LoopClose
      case CancelDelete(_) => LoopDelete
      case CancelDone(_) => LoopDone
      case Leaving => ShutdownStepOf(s)
      case ClosingDone => CloseDone
      case ClosingJobs => CloseJobs
      case Joining => if s.exited == cfg.workers then Join else WorkerExits
      case Returned => CtxCancel
  }

  /** No deadlock: until Serve returns, a triggered shutdown always has a step it is bound to take. */
  lemma Progress(cfg: Config, s: State)
    requires Inv(cfg, s) && Triggered(s) && !s.loop.Returned?
    ensures Enabled(cfg, s, NextStep(cfg, s)) && Obliged(s, NextStep(cfg, s))
  {
    if s.shutdown.FinalWait? && s.loop.Leaving? && s.running == {} && s.finishing == {} && s.releasing == {} {
      assert s.sh.active == {};
    }
    if s.loop.Joining? {
      assert s.sh.active == {} && s.running == {} && s.finishing == {};
    }
  }

  /** A run in which every step is one the program is bound to take. */
  ghost predicate BoundRun(cfg: Config, s: State, acts: seq<Action>)
    decreases acts
  {
    acts == []
    || (Enabled(cfg, s, acts[0]) && Obliged(s, acts[0]) && BoundRun(cfg, Apply(cfg, s, acts[0]), acts[1..]))
  }

  /** Serve can always be brought to its return by bound steps alone. */
  lemma {:induction false} ShutdownCompletes(cfg: Config, s: State) returns (acts: seq<Action>)
    requires Inv(cfg, s) && s.exited <= cfg.workers && Triggered(s)
    ensures ValidRun(cfg, s, acts) && BoundRun(cfg, s, acts) && Exec(cfg, s, acts).loop.Returned?
    decreases if s.shutdown.NotStarted? then 2 else if s.shutdown.Begin? then 1 else 0, Work(cfg, s)
  {
    if s.loop.Returned? {
      return [];
    }
    Progress(cfg, s);
    var a := NextStep(cfg, s);
    StepKeeps(cfg, s, a);
    if s.sh.shuttingDown {
      StepWorks(cfg, s, a);
      SharedDrains(cfg, s, a);
    }
    var rest := ShutdownCompletes(cfg, Apply(cfg, s, a));
    acts := [a] + rest;
    assert acts[1..] == rest;
  }

  ghost predicate Stuck(cfg: Config, s: State) {
    forall a :: Enabled(cfg, s, a) ==> !Obliged(s, a)
  }

  /** A triggered shutdown with no bound step left has returned, and returned clean. */
  lemma StuckOnlyWhenReturned(cfg: Config, s: State)
    requires Inv(cfg, s) && Triggered(s) && Stuck(cfg, s)
    ensures s.loop.Returned? && s.untracked == s.tracked && forall c: Conn :: c < s.next ==> c in s.closed
  {
    if !s.loop.Returned? {
      Progress(cfg, s);
      assert false;
    }
    ReturnedIsClean(cfg, s);
  }

  /** Every run from a state in which the flag is set, whatever its steps and their order, is bounded by
      the work left in that state, and wherever a run can take no further bound step Serve has returned
      with every connection closed and untracked. */
  lemma EveryShutdownReturns(cfg: Config, s: State, acts: seq<Action>)
    requires Reachable(cfg, s) && s.sh.shuttingDown && ValidRun(cfg, s, acts)
    ensures s.exited <= cfg.workers && |acts| <= Work(cfg, s)
    ensures
      var t := Exec(cfg, s, acts);
      Stuck(cfg, t) ==>
        t.loop.Returned? && t.untracked == t.tracked && forall c: Conn :: c < t.next ==> c in t.closed
  {
    ReachableInv(cfg, s);
    ShutdownIsBounded(cfg, s, acts);
    RunKeeps(cfg, s, acts);
    ShutdownOnlyDrains(cfg, s, acts);
    var t := Exec(cfg, s, acts);
    if Stuck(cfg, t) {
      StuckOnlyWhenReturned(cfg, t);
    }
  }
}
