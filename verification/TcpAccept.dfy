/** What the accept loop does for a server that is left alone, and what only an ending brings about. */
module TcpAccept {
  import opened TcpServer
  import opened TcpLifecycle
  import opened TcpInvariants
  import opened TcpLiveness
  import opened TcpPool

  // ----- a server left alone -------------------------------------------------------------------

  /** Nothing in the run asks the server to stop: the context lasts and Accept does not fail. */
  predicate Undisturbed(acts: seq<Action>) {
    CtxCancel !in acts && AcceptFails !in acts
  }

  /** The loop is on its way from one Accept to the next. */
  predicate Cycling(loop: AcceptLoop) {
    loop.Accepting? || loop.Tracking? || loop.Rejecting? || loop.Handing? || loop.Spawning?
  }

  predicate Serving(s: State) {
    && Cycling(s.loop) && !s.ctxDone && s.watcher.Watching? && s.shutdown.NotStarted?
    && !s.sh.shuttingDown && !s.listenerClosed && !s.doneClosed && !s.jobsClosed
  }

  lemma ServingStep(cfg: Config, s: State, a: Action)
    requires Serving(s) && Enabled(cfg, s, a) && !a.CtxCancel? && !a.AcceptFails?
    ensures Serving(Apply(cfg, s, a))
  {
    match ProcessOf(a)
    case LoopProcess =>
      LoopFrame(cfg, s, a);
      LoopShares(cfg, s, a);
      ServingLoop(cfg, s, a);
    case ConnProcess =>
      ConnFrame(cfg, s, a);
      ConnFlag(cfg, s, a);
    case _ =>
  }

  lemma ConnFlag(cfg: Config, s: State, a: Action)
    requires ConnEnabled(cfg, s, a)
    ensures ConnStep(cfg, s, a).sh.shuttingDown == s.sh.shuttingDown
  {
  }

  lemma ServingLoop(cfg: Config, s: State, a: Action)
    requires Serving(s) && LoopEnabled(cfg, s, a) && !a.AcceptFails?
    ensures
      var t := LoopStep(cfg, s, a);
      Cycling(t.loop) && !t.sh.shuttingDown && t.doneClosed == s.doneClosed && t.jobsClosed == s.jobsClosed
  {
    if a.Track? {
      match TrackShared(cfg.maxActive, s.sh, s.loop.c).1
      case Tracked | LimitReached | ShuttingDown =>
    }
  }

  lemma {:induction false} ServingRun(cfg: Config, s: State, acts: seq<Action>)
    requires Serving(s) && ValidRun(cfg, s, acts) && Undisturbed(acts)
    ensures Serving(Exec(cfg, s, acts))
    decreases acts
  {
    hide Enabled, Apply, Serving;
    if acts != [] {
      assert acts[0] in acts && forall a :: a in acts[1..] ==> a in acts;
      ServingStep(cfg, s, acts[0]);
      ServingRun(cfg, Apply(cfg, s, acts[0]), acts[1..]);
    }
  }

  /** The server stops for nothing but the end of its context or a failed Accept: in a run without either,
      however many connections are accepted, rejected, served or closed, the loop never leaves and the
      shutdown never starts. */
  lemma KeepsServing(cfg: Config, acts: seq<Action>)
    requires ValidRun(cfg, Init(), acts) && Undisturbed(acts)
    ensures Serving(Exec(cfg, Init(), acts))
  {
    ServingRun(cfg, Init(), acts);
  }

  /** The steps that lead back to Accept from where the loop is. */
  function BackToAccept(cfg: Config, s: State): seq<Action> {
    match s.loop
    case Tracking(c) =>
      (match TrackShared(cfg.maxActive, s.sh, c).1
       case LimitReached => [Track, RejectClose]
       case _ => [Track, if cfg.workers > 0 then HandOff else Spawn])
    case Rejecting(_) => [RejectClose]
    case Handing(_) => [HandOff]
    case Spawning(_) => [Spawn]
    case _ => []
  }

  /** Every connection takes at most two steps of the loop, and then it accepts again: a rejected one is
      closed, any other is given to a worker or a goroutine. Only with all workers busy does it wait. */
  lemma AcceptsAgain(cfg: Config, acts: seq<Action>)
    requires ValidRun(cfg, Init(), acts) && Undisturbed(acts)
    requires cfg.workers > 0 ==> Busy(Exec(cfg, Init(), acts)) < cfg.workers
    ensures
      var s := Exec(cfg, Init(), acts);
      var back := BackToAccept(cfg, s);
      && |back| <= 2 && ValidRun(cfg, s, back) && Exec(cfg, s, back).loop == Accepting
      && Enabled(cfg, Exec(cfg, s, back), Accept)
  {
    hide Busy;
    KeepsServing(cfg, acts);
    var s := Exec(cfg, Init(), acts);
    assert Reachable(cfg, s);
    ReachableInv(cfg, s);
    BackFrom(cfg, s);
  }

  lemma BackFrom(cfg: Config, s: State)
    requires Serving(s) && Phases(cfg, s) && Bounds(cfg, s)
    requires cfg.workers > 0 ==> Busy(s) < cfg.workers
    ensures
      var back := BackToAccept(cfg, s);
      && |back| <= 2 && ValidRun(cfg, s, back) && Serving(Exec(cfg, s, back))
      && Exec(cfg, s, back).loop == Accepting
  {
    match s.loop
    case Tracking(c) =>
      AfterTrack(cfg, s);
    case Rejecting(_) =>
      OneStep(cfg, s, RejectClose);
    case Handing(_) =>
      OneStep(cfg, s, HandOff);
    case Spawning(_) =>
      OneStep(cfg, s, Spawn);
    case _ =>
  }

  lemma OneStep(cfg: Config, s: State, a: Action)
    requires Enabled(cfg, s, a)
    ensures ValidRun(cfg, s, [a]) && Exec(cfg, s, [a]) == Apply(cfg, s, a)
  {
    hide Enabled, Apply;
    assert [a][1..] == [];
  }

  lemma AfterTrack(cfg: Config, s: State)
    requires Serving(s) && s.loop.Tracking? && s.exited == 0
    requires cfg.workers > 0 ==> Busy(s) < cfg.workers
    ensures
      var back := BackToAccept(cfg, s);
      ValidRun(cfg, s, back) && Serving(Exec(cfg, s, back)) && Exec(cfg, s, back).loop == Accepting
  {
    var back, t := BackToAccept(cfg, s), Apply(cfg, s, Track);
    assert back[1..] == [back[1]];
    assert Busy(t) == Busy(s) && t.exited == s.exited;
    OneStep(cfg, t, back[1]);
    assert Exec(cfg, s, back) == Exec(cfg, t, [back[1]]);
  }

  // ----- a connection over the limit -----------------------------------------------------------

  /** A connection over the limit is closed and nothing else happens to the server: the fields under the
      lock stay as they are and the loop accepts the next one. */
  lemma RejectionPasses(cfg: Config, s: State)
    requires s.loop.Rejecting? && Enabled(cfg, s, RejectClose)
    ensures
      var t := Apply(cfg, s, RejectClose);
      && t == s.(loop := Accepting, closed := s.closed + {s.loop.c})
      && (!s.listenerClosed ==> Enabled(cfg, t, Accept) && Apply(cfg, t, Accept).loop == Tracking(s.next))
  {
  }

  /** Whenever the limit can be met there is a run that turns a connection away, closes it and goes on to
      accept another. */
  lemma RejectsAndGoesOn(cfg: Config) returns (s: State)
    requires !NeverLimits(cfg)
    ensures Reachable(cfg, s) && s.sh.rejected > 0 && s.limited <= s.closed && s.limited != {}
    ensures s.loop.Tracking? && s.loop.c !in s.limited
  {
    hide Reachable;
    var r := LimitRejects(cfg);
    RejectedCloses(cfg, r);
    ReachStep(cfg, r, RejectClose);
    RejectionPasses(cfg, r);
    var t := Apply(cfg, r, RejectClose);
    ReachStep(cfg, t, Accept);
    s := Apply(cfg, t, Accept);
    ReachableInv(cfg, s);
  }

  lemma RejectedCloses(cfg: Config, r: State)
    requires Reachable(cfg, r) && r.loop.Rejecting? && r.sh.rejected > 0
    ensures Enabled(cfg, r, RejectClose) && r.limited != {}
    ensures r.limited <= r.closed + {r.loop.c}
  {
    ReachableInv(cfg, r);
  }

  /** The loop leaves by three steps only: a failed Accept, the close of a connection that came during the
      shutdown, and the last of the three that take back one no worker took before the context ended. */
  lemma LeavesOnlyBy(cfg: Config, s: State, a: Action)
    requires Enabled(cfg, s, a) && !s.loop.Leaving? && Apply(cfg, s, a).loop.Leaving?
    ensures a.AcceptFails? || (a.RefuseClose? && s.loop.Refusing?) || (a.LoopDone? && s.loop.CancelDone?)
  {
    match ProcessOf(a)
    case LoopProcess =>
      if a.Track? {
        SparedTrack(cfg, s);
      }
    case ConnProcess => ConnFrame(cfg, s, a);
    case ShutdownProcess => ShutdownFrame(cfg, s, a);
    case WatchProcess => WatchFrame(cfg, s, a);
  }

  // ----- being asked to stop -------------------------------------------------------------------

  /** The end of the context, at any time, and a failure of Accept, whenever the loop is in it, can be
      followed by bound steps to Serve's return. */
  lemma StopsWhenAsked(cfg: Config, s: State, a: Action) returns (acts: seq<Action>)
    requires Reachable(cfg, s)
    requires (a == CtxCancel && !s.ctxDone) || (a == AcceptFails && s.loop.Accepting?)
    ensures Enabled(cfg, s, a) && BoundRun(cfg, Apply(cfg, s, a), acts)
    ensures ValidRun(cfg, Apply(cfg, s, a), acts) && Exec(cfg, Apply(cfg, s, a), acts).loop.Returned?
  {
    ReachableInv(cfg, s);
    StepKeeps(cfg, s, a);
    var t := Apply(cfg, s, a);
    assert Triggered(t) && t.exited <= cfg.workers;
    acts := ShutdownCompletes(cfg, t);
  }

  // ----- the grace period ----------------------------------------------------------------------

  predicate InLoop(loop: AcceptLoop) {
    Cycling(loop) && !loop.Accepting?
  }

  /** No handler has lost its connection. */
  ghost predicate Spared(s: State) {
    && !s.shutdown.Snapshot? && !s.shutdown.ForceClosing? && !s.shutdown.FinalWait?
    && (forall c :: c in s.running ==> c !in s.closed)
    && (forall c :: c in s.running || c in s.closed ==> c < s.next)
    && (InLoop(s.loop) || s.loop.Refusing? || s.loop.CancelClose? ==> s.loop.c < s.next && s.loop.c !in s.running)
    && (InLoop(s.loop) ==> s.loop.c !in s.closed)
  }

  lemma SparedStep(cfg: Config, s: State, a: Action)
    requires Spared(s) && Enabled(cfg, s, a) && !a.GraceTimeout?
    ensures Spared(Apply(cfg, s, a)) && !a.TakeSnapshot? && !a.ForceClose?
  {
    match ProcessOf(a)
    case LoopProcess => SparedLoop(cfg, s, a);
    case ConnProcess => hide LoopStep, ShutdownStep, WatchStep;
    case ShutdownProcess => hide LoopStep, ConnStep, WatchStep;
    case WatchProcess =>
      hide Apply;
      WatchFrame(cfg, s, a);
  }

  lemma SparedLoop(cfg: Config, s: State, a: Action)
    requires Spared(s) && LoopEnabled(cfg, s, a)
    ensures Spared(LoopStep(cfg, s, a))
  {
    match a
    case Track => SparedTracking(cfg, s);
    case HandOff | Spawn => SparedGiven(s);
    case RejectClose => SparedClosed(s, Accepting);
    case RefuseClose => SparedClosed(s, Leaving);
    case LoopClose => SparedClosed(s, CancelDelete(s.loop.c));
    case _ => hide TrackShared;
  }

  lemma SparedTracking(cfg: Config, s: State)
    requires Spared(s) && s.loop.Tracking?
    ensures Spared(LoopStep(cfg, s, Track))
  {
    hide LoopStep;
    TrackFrame(cfg, s);
    SparedTrack(cfg, s);
  }

  lemma SparedGiven(s: State)
    requires Spared(s) && (s.loop.Handing? || s.loop.Spawning?)
    ensures Spared(s.(running := s.running + {s.loop.c}, loop := Accepting))
  {
  }

  lemma SparedClosed(s: State, next: AcceptLoop)
    requires Spared(s) && (s.loop.Rejecting? || s.loop.Refusing? || s.loop.CancelClose?)
    requires next.Accepting? || next.Leaving? || next.CancelDelete?
    ensures Spared(s.(closed := s.closed + {s.loop.c}, loop := next))
  {
  }

  lemma SparedTrack(cfg: Config, s: State)
    requires s.loop.Tracking?
    ensures
      var t := LoopStep(cfg, s, Track);
      (InLoop(t.loop) || t.loop.Refusing?) && t.loop.c == s.loop.c
  {
    match TrackShared(cfg.maxActive, s.sh, s.loop.c).1
    case Tracked | LimitReached | ShuttingDown =>
  }

  lemma {:induction false} SparedRun(cfg: Config, s: State, acts: seq<Action>)
    requires Spared(s) && ValidRun(cfg, s, acts) && GraceTimeout !in acts
    ensures Spared(Exec(cfg, s, acts))
    ensures forall a :: a in acts ==> !a.TakeSnapshot? && !a.ForceClose?
    decreases acts
  {
    hide Apply, Enabled, Spared;
    if acts != [] {
      assert acts[0] in acts && forall a :: a in acts <==> a == acts[0] || a in acts[1..];
      SparedStep(cfg, s, acts[0]);
      SparedRun(cfg, Apply(cfg, s, acts[0]), acts[1..]);
    }
  }

  /** Until the grace period expires no connection is closed under its handler, shutdown or not, and in a
      run in which it never expires nothing is closed by force. */
  lemma GracePeriodSpares(cfg: Config, acts: seq<Action>)
    requires ValidRun(cfg, Init(), acts) && GraceTimeout !in acts
    ensures Exec(cfg, Init(), acts).running !! Exec(cfg, Init(), acts).closed
    ensures forall a :: a in acts ==> !a.TakeSnapshot? && !a.ForceClose?
  {
    SparedRun(cfg, Init(), acts);
  }

  // ----- a shutdown that needs no force --------------------------------------------------------

  predicate Unforced(shutdown: Shutdown) {
    shutdown.CloseListener? || shutdown.Grace? || shutdown.Finished?
  }

  predicate Drained(s: State) {
    s.running == {} && s.finishing == {} && s.releasing == {}
  }

  /** The next step of a shutdown in which every handler returns in time. */
  ghost function GracefulStep(cfg: Config, s: State): Action {
    if s.loop.Leaving? && s.shutdown.Grace? then if Drained(s) then GraceOk else ConnNext(s) else NextStep(cfg, s)
  }

  lemma GracefulEnabled(cfg: Config, s: State)
    requires Inv(cfg, s) && s.sh.shuttingDown && Unforced(s.shutdown) && !s.loop.Returned?
    ensures Enabled(cfg, s, GracefulStep(cfg, s)) && GracefulStep(cfg, s) != GraceTimeout
    ensures Unforced(Apply(cfg, s, GracefulStep(cfg, s)).shutdown)
  {
    if s.loop.Leaving? && s.shutdown.Grace? {
      if Drained(s) {
        DrainedCount(cfg, s);
      }
    } else {
      Progress(cfg, s);
      StaysUnforced(cfg, s, NextStep(cfg, s));
    }
  }

  lemma DrainedCount(cfg: Config, s: State)
    requires Inv(cfg, s) && s.loop.Leaving? && Drained(s)
    ensures s.sh.wg == 0
  {
    assert s.sh.active == {};
  }

  lemma StaysUnforced(cfg: Config, s: State, a: Action)
    requires Enabled(cfg, s, a) && Unforced(s.shutdown) && !a.GraceTimeout?
    ensures Unforced(Apply(cfg, s, a).shutdown)
  {
    match ProcessOf(a)
    case LoopProcess => LoopShares(cfg, s, a);
    case ConnProcess => ConnFrame(cfg, s, a);
    case ShutdownProcess => hide LoopStep, ConnStep, WatchStep;
    case WatchProcess => WatchFrame(cfg, s, a);
  }

  /** A shutdown whose grace period has not expired can end without force: when the handlers return, Serve
      does, and no connection has been closed under one. */
  lemma {:induction false} GracefulReturn(cfg: Config, s: State) returns (acts: seq<Action>)
    requires Inv(cfg, s) && s.exited <= cfg.workers && s.sh.shuttingDown && Unforced(s.shutdown)
    ensures ValidRun(cfg, s, acts) && GraceTimeout !in acts && Exec(cfg, s, acts).loop.Returned?
    decreases Work(cfg, s)
  {
    hide Inv, Enabled, Apply, Work, GracefulStep, Unforced;
    if s.loop.Returned? {
      return [];
    }
    GracefulEnabled(cfg, s);
    var a := GracefulStep(cfg, s);
    StepKeeps(cfg, s, a);
    StepWorks(cfg, s, a);
    SharedDrains(cfg, s, a);
    var rest := GracefulReturn(cfg, Apply(cfg, s, a));
    acts := [a] + rest;
    assert acts[1..] == rest;
  }
}
