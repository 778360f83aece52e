/** What every reachable state of the lifecycle satisfies. */
module TcpInvariants {
  import opened TcpServer
  import opened TcpLifecycle

  /** The connection the accept loop has tracked but not yet given away or deleted. */
  function Held(loop: AcceptLoop): set<Conn> {
    match loop
    case Handing(c) => {c}
    case Spawning(c) => {c}
    case CancelClose(c) => {c}
    case CancelDelete(c) => {c}
    case _ => {}
  }

  function InHand(loop: AcceptLoop): set<Conn> {
    if loop.Tracking? then {loop.c} else {}
  }

  function PendingDone(s: State): nat {
    |s.releasing| + if s.loop.CancelDone? then 1 else 0
  }

  ghost predicate Apart(a: set<Conn>, b: set<Conn>, c: set<Conn>, d: set<Conn>) {
    && (forall x :: x in a ==> x !in b && x !in c && x !in d)
    && (forall x :: x in b ==> x !in c && x !in d)
    && (forall x :: x in c ==> x !in d)
  }

  ghost predicate Ownership(s: State) {
    && (forall c :: c in s.sh.active <==> c in s.running || c in s.finishing || c in Held(s.loop))
    && Apart(s.running, s.finishing, s.releasing, Held(s.loop))
    && (forall c :: c in s.tracked <==> c in s.sh.active || c in s.untracked)
    && (forall c :: c in s.sh.active ==> c !in s.untracked)
    && s.releasing <= s.untracked
    && (s.loop.CancelDone? ==> s.loop.c in s.untracked && s.loop.c !in s.releasing)
  }

  ghost predicate Accounting(s: State) {
    && s.sh.wg == |s.sh.active| + PendingDone(s)
    && s.sh.rejected == |s.limited|
    && s.next == |s.tracked| + |s.limited| + |s.refused| + |InHand(s.loop)|
    && Apart(s.tracked, s.limited, s.refused, InHand(s.loop))
    && (forall c: Conn :: c < s.next <==> c in s.tracked || c in s.limited || c in s.refused || c in InHand(s.loop))
  }

  ghost predicate Closing(s: State) {
    && s.finishing <= s.closed
    && s.untracked <= s.closed
    && (s.loop.CancelDelete? ==> s.loop.c in s.closed)
    && (forall c :: c in s.limited && c !in s.closed ==> s.loop == Rejecting(c))
    && (forall c :: c in s.refused && c !in s.closed ==> s.loop == Refusing(c))
    && (s.shutdown.ForceClosing? ==> s.sh.active <= s.closed + s.shutdown.pending)
    && (s.shutdown.FinalWait? ==> s.sh.active <= s.closed)
  }

  predicate Winding(loop: AcceptLoop) {
    loop.ClosingDone? || loop.ClosingJobs? || loop.Joining? || loop.Returned?
  }

  ghost predicate Phases(cfg: Config, s: State) {
    && (s.sh.shuttingDown <==> !(s.shutdown.NotStarted? || s.shutdown.Begin?))
    && (s.listenerClosed <==> s.sh.shuttingDown && !s.shutdown.CloseListener?)
    && (s.shutdown.Finished? ==> s.sh.wg == 0)
    && (Winding(s.loop) ==> s.shutdown.Finished?)
    && (s.doneClosed <==> s.loop.ClosingJobs? || s.loop.Joining? || s.loop.Returned?)
    && (s.jobsClosed <==> s.loop.Joining? || (s.loop.Returned? && cfg.workers > 0))
    && (s.exited > 0 ==> s.jobsClosed)
    && (s.loop.Returned? ==> s.exited == cfg.workers)
    && (s.watcher.InShutdown? ==> s.ctxDone)
    && (!s.watcher.Watching? ==> !s.shutdown.NotStarted?)
    && (!s.shutdown.NotStarted? ==> s.ctxDone || s.loop.Leaving? || Winding(s.loop))
    && (s.loop.Refusing? ==> s.sh.shuttingDown)
    && (s.loop.CancelClose? || s.loop.CancelDelete? || s.loop.CancelDone? ==> s.ctxDone)
  }

  /** The limit is never met: there is none, or the pool holds the accept loop back before it. */
  predicate NeverLimits(cfg: Config) {
    cfg.maxActive <= 0 || 0 < cfg.workers < cfg.maxActive
  }

  ghost predicate Bounds(cfg: Config, s: State) {
    && (cfg.maxActive > 0 ==> |s.sh.active| <= cfg.maxActive)
    && (cfg.workers > 0 ==> Busy(s) + s.exited <= cfg.workers && !s.loop.Spawning?)
    && (cfg.workers == 0 ==>
          && s.exited == 0 && Held(s.loop) <= (if s.loop.Spawning? then {s.loop.c} else {})
          && !s.loop.CancelDone? && !s.loop.ClosingJobs? && !s.loop.Joining?)
    && (NeverLimits(cfg) ==> s.limited == {})
  }

  ghost predicate Inv(cfg: Config, s: State) {
    Ownership(s) && Accounting(s) && Closing(s) && Phases(cfg, s) && Bounds(cfg, s)
  }

  // ----- what each process leaves alone ---------------------------------------------------------

  lemma TrackFrame(cfg: Config, s: State)
    requires s.loop.Tracking?
    ensures
      var t := LoopStep(cfg, s, Track);
      t == s.(sh := t.sh, loop := t.loop, tracked := t.tracked, limited := t.limited, refused := t.refused)
  {
    match TrackShared(cfg.maxActive, s.sh, s.loop.c).1
    case Tracked | LimitReached | ShuttingDown =>
  }

  lemma LoopFrame(cfg: Config, s: State, a: Action)
    requires Enabled(cfg, s, a) && ProcessOf(a).LoopProcess?
    ensures
      var t := Apply(cfg, s, a);
      && t.watcher == s.watcher && t.ctxDone == s.ctxDone && t.listenerClosed == s.listenerClosed
      && t.exited == s.exited && t.finishing == s.finishing && t.releasing == s.releasing
  {
    hide ConnStep, ShutdownStep, WatchStep, TrackShared;
    if a.Track? {
      TrackFrame(cfg, s);
    }
  }

  lemma LoopShares(cfg: Config, s: State, a: Action)
    requires Enabled(cfg, s, a) && ProcessOf(a).LoopProcess?
    ensures
      var t := Apply(cfg, s, a);
      && (t.shutdown == if a.LoopStarts? then Begin else s.shutdown)
      && (t.running == if a.HandOff? || a.Spawn? then s.running + {s.loop.c} else s.running)
      && s.closed <= t.closed
  {
    hide ConnStep, ShutdownStep, WatchStep, TrackShared;
    if a.Track? {
      TrackFrame(cfg, s);
    }
  }

  lemma ConnFrame(cfg: Config, s: State, a: Action)
    requires Enabled(cfg, s, a) && ProcessOf(a).ConnProcess?
    ensures
      var t := Apply(cfg, s, a);
      && t == s.(sh := t.sh, running := t.running, finishing := t.finishing, releasing := t.releasing,
                 untracked := t.untracked, closed := t.closed)
      && s.closed <= t.closed
  {
    hide LoopStep, ShutdownStep, WatchStep;
  }

  lemma ShutdownFrame(cfg: Config, s: State, a: Action)
    requires Enabled(cfg, s, a) && ProcessOf(a).ShutdownProcess?
    ensures
      var t := Apply(cfg, s, a);
      && t == s.(sh := t.sh, shutdown := t.shutdown, closed := t.closed, listenerClosed := t.listenerClosed)
      && (t.sh == if a.BeginShutdown? || a.TakeSnapshot? then BeginShutdownShared(s.sh) else s.sh)
      && s.closed <= t.closed
  {
    hide LoopStep, ConnStep, WatchStep;
  }

  lemma WatchFrame(cfg: Config, s: State, a: Action)
    requires Enabled(cfg, s, a) && ProcessOf(a).WatchProcess?
    ensures
      var t := Apply(cfg, s, a);
      && t == s.(ctxDone := t.ctxDone, watcher := t.watcher, shutdown := t.shutdown, exited := t.exited)
      && (t.shutdown == if a.WatcherStarts? && s.shutdown.NotStarted? then Begin else s.shutdown)
  {
    hide LoopStep, ConnStep, ShutdownStep;
  }

  // ----- what every step keeps -------------------------------------------------------------------

  // The once-only shutdown.

  lemma WaitingKeeps(cfg: Config, s: State, next: Shutdown)
    requires Inv(cfg, s)
    requires
      || (s.shutdown.Grace? && (next.Snapshot? || (next.Finished? && s.sh.wg == 0)))
      || (s.shutdown == ForceClosing({}) && next.FinalWait?)
      || (s.shutdown.FinalWait? && s.sh.wg == 0 && next.Finished?)
    ensures Inv(cfg, s.(shutdown := next))
  {
    QuietKeeps(cfg, s, s.(shutdown := next));
  }

  /** Ownership, accounting and bounds do not look at the shutdown, the watcher or the channels. */
  lemma QuietKeeps(cfg: Config, s: State, t: State)
    requires Ownership(s) && Accounting(s) && Bounds(cfg, s)
    requires t.sh == s.sh.(shuttingDown := t.sh.shuttingDown)
    requires t.loop == s.loop && t.running == s.running && t.finishing == s.finishing && t.releasing == s.releasing
    requires t.tracked == s.tracked && t.untracked == s.untracked && t.limited == s.limited && t.refused == s.refused
    requires t.next == s.next && t.exited == s.exited
    ensures Ownership(t) && Accounting(t) && Bounds(cfg, t)
  {
    assert Ownership(t) by {
      hide Accounting, Bounds;
    }
    assert Accounting(t) by {
      hide Ownership, Bounds;
    }
    assert Bounds(cfg, t) by {
      hide Ownership, Accounting;
    }
  }

  lemma BeginningKeeps(cfg: Config, s: State)
    requires Inv(cfg, s)
    ensures s.shutdown.Begin? ==> Inv(cfg, s.(sh := BeginShutdownShared(s.sh), shutdown := CloseListener))
    ensures s.shutdown.CloseListener? ==> Inv(cfg, s.(listenerClosed := true, shutdown := Grace))
  {
    QuietKeeps(cfg, s, s.(sh := BeginShutdownShared(s.sh), shutdown := CloseListener));
    QuietKeeps(cfg, s, s.(listenerClosed := true, shutdown := Grace));
    hide Ownership, Accounting, Bounds;
  }

  lemma SnapshotKeeps(cfg: Config, s: State)
    requires Inv(cfg, s) && s.shutdown.Snapshot?
    ensures Inv(cfg, s.(sh := BeginShutdownShared(s.sh), shutdown := ForceClosing(s.sh.active)))
  {
    QuietKeeps(cfg, s, s.(sh := BeginShutdownShared(s.sh), shutdown := ForceClosing(s.sh.active)));
    hide Ownership, Accounting, Bounds;
  }

  lemma ForceCloseKeeps(cfg: Config, s: State, c: Conn)
    requires Inv(cfg, s) && s.shutdown.ForceClosing?
    ensures Inv(cfg, s.(closed := s.closed + {c}, shutdown := ForceClosing(s.shutdown.pending - {c})))
  {
    QuietKeeps(cfg, s, s.(closed := s.closed + {c}, shutdown := ForceClosing(s.shutdown.pending - {c})));
    hide Ownership, Accounting, Bounds;
  }

  lemma ShutdownKeeps(cfg: Config, s: State, a: Action)
    requires Inv(cfg, s) && Enabled(cfg, s, a) && ProcessOf(a).ShutdownProcess?
    ensures Inv(cfg, Apply(cfg, s, a))
  {
    hide Inv, LoopStep, ConnStep, WatchStep;
    match a
    case BeginShutdown | ListenerClose => BeginningKeeps(cfg, s);
    case GraceOk | FinalDone => WaitingKeeps(cfg, s, Finished);
    case GraceTimeout => WaitingKeeps(cfg, s, Snapshot);
    case ForceDone => WaitingKeeps(cfg, s, FinalWait);
    case TakeSnapshot => SnapshotKeeps(cfg, s);
    case ForceClose(c) => ForceCloseKeeps(cfg, s, c);
  }

  // The context, its watcher, and the workers.

  lemma CancelKeeps(cfg: Config, s: State)
    requires Inv(cfg, s)
    ensures Inv(cfg, s.(ctxDone := true))
  {
    QuietKeeps(cfg, s, s.(ctxDone := true));
    hide Ownership, Accounting, Bounds;
  }

  lemma WatcherKeeps(cfg: Config, s: State, watcher: Watcher, shutdown: Shutdown)
    requires Inv(cfg, s)
    requires
      || (s.watcher.Watching? && s.ctxDone && watcher.InShutdown?
          && shutdown == if s.shutdown.NotStarted? then Begin else s.shutdown)
      || (((s.watcher.Watching? && s.doneClosed) || (s.watcher.InShutdown? && s.shutdown.Finished?))
          && watcher.Gone? && shutdown == s.shutdown)
    ensures Inv(cfg, s.(watcher := watcher, shutdown := shutdown))
  {
    QuietKeeps(cfg, s, s.(watcher := watcher, shutdown := shutdown));
    hide Ownership, Accounting, Bounds;
  }

  lemma WorkerExitKeeps(cfg: Config, s: State)
    requires Inv(cfg, s) && s.jobsClosed && HasIdleWorker(cfg, s)
    ensures Inv(cfg, s.(exited := s.exited + 1))
  {
  }

  lemma WatchKeeps(cfg: Config, s: State, a: Action)
    requires Inv(cfg, s) && Enabled(cfg, s, a) && ProcessOf(a).WatchProcess?
    ensures Inv(cfg, Apply(cfg, s, a))
  {
    hide Inv, LoopStep, ConnStep, ShutdownStep;
    match a
    case CtxCancel => CancelKeeps(cfg, s);
    case WatcherStarts => WatcherKeeps(cfg, s, InShutdown, if s.shutdown.NotStarted? then Begin else s.shutdown);
    case WatcherSeesDone | WatcherReturns => WatcherKeeps(cfg, s, Gone, s.shutdown);
    case WorkerExits => WorkerExitKeeps(cfg, s);
  }

  // A connection with its handler.

  lemma HandlerOwns(s: State, c: Conn, t: State)
    requires Ownership(s) && c in s.running
    requires t == s.(running := s.running - {c}, finishing := s.finishing + {c}, closed := s.closed + {c})
    ensures Ownership(t) && c !in s.finishing
  {
  }

  lemma HandlerCounts(s: State, c: Conn, t: State)
    requires Accounting(s) && c in s.running && c !in s.finishing
    requires t == s.(running := s.running - {c}, finishing := s.finishing + {c}, closed := s.closed + {c})
    ensures Accounting(t) && Busy(t) == Busy(s)
  {
    MoveOne(s.running, s.finishing, c);
  }

  lemma HandlerKeeps(cfg: Config, s: State, c: Conn)
    requires Inv(cfg, s) && c in s.running
    ensures Inv(cfg, s.(running := s.running - {c}, finishing := s.finishing + {c}, closed := s.closed + {c}))
  {
    hide Ownership, Accounting;
    var t := s.(running := s.running - {c}, finishing := s.finishing + {c}, closed := s.closed + {c});
    HandlerOwns(s, c, t);
    HandlerCounts(s, c, t);
    hide Busy;
  }

  lemma MoveOne(from: set<Conn>, to: set<Conn>, c: Conn)
    requires c in from
    ensures |from - {c}| == |from| - 1
    ensures c !in to ==> |to + {c}| == |to| + 1
  {
  }

  lemma DeleteOwns(s: State, c: Conn, t: State)
    requires Ownership(s) && c in s.finishing
    requires t == s.(sh := DeleteShared(s.sh, c), untracked := s.untracked + {c},
                     finishing := s.finishing - {c}, releasing := s.releasing + {c})
    ensures Ownership(t)
  {
  }

  lemma DeleteCounts(s: State, c: Conn, t: State)
    requires Ownership(s) && Accounting(s) && c in s.finishing
    requires t == s.(sh := DeleteShared(s.sh, c), untracked := s.untracked + {c},
                     finishing := s.finishing - {c}, releasing := s.releasing + {c})
    ensures Accounting(t) && |t.finishing| == |s.finishing| - 1 && |t.releasing| == |s.releasing| + 1
    ensures |t.sh.active| == |s.sh.active| - 1
  {
    assert c in s.sh.active && c !in s.releasing;
    MoveOne(s.finishing, s.releasing, c);
    MoveOne(s.sh.active, {}, c);
    hide Ownership;
  }

  lemma DeleteKeeps(cfg: Config, s: State, c: Conn)
    requires Inv(cfg, s) && c in s.finishing
    ensures
      Inv(cfg, s.(sh := DeleteShared(s.sh, c), untracked := s.untracked + {c},
                  finishing := s.finishing - {c}, releasing := s.releasing + {c}))
  {
    hide Ownership, Accounting;
    var t := s.(sh := DeleteShared(s.sh, c), untracked := s.untracked + {c},
                finishing := s.finishing - {c}, releasing := s.releasing + {c});
    DeleteOwns(s, c, t);
    DeleteCounts(s, c, t);
  }

  lemma DoneCounts(s: State, c: Conn, t: State)
    requires Ownership(s) && Accounting(s) && c in s.releasing
    requires t == s.(sh := DoneShared(s.sh), releasing := s.releasing - {c})
    ensures Ownership(t) && Accounting(t) && |t.releasing| == |s.releasing| - 1 && (t.sh.wg == 0 || s.sh.wg != 0)
  {
    MoveOne(s.releasing, {}, c);
    assert Ownership(t) by {
      hide Accounting;
    }
    hide Ownership;
  }

  lemma DoneKeeps(cfg: Config, s: State, c: Conn)
    requires Inv(cfg, s) && c in s.releasing
    ensures Inv(cfg, s.(sh := DoneShared(s.sh), releasing := s.releasing - {c}))
  {
    DoneCounts(s, c, s.(sh := DoneShared(s.sh), releasing := s.releasing - {c}));
    if s.sh.wg == 0 {
      WaitsForNone(s);
    }
    hide Ownership, Accounting;
  }

  /** A wait group at zero has nothing left to count down. */
  lemma WaitsForNone(s: State)
    requires Accounting(s) && s.sh.wg == 0
    ensures s.releasing == {} && s.sh.active == {} && !s.loop.CancelDone?
  {
  }

  lemma ConnKeeps(cfg: Config, s: State, a: Action)
    requires Inv(cfg, s) && Enabled(cfg, s, a) && ProcessOf(a).ConnProcess?
    ensures Inv(cfg, Apply(cfg, s, a))
  {
    hide Inv, LoopStep, ShutdownStep, WatchStep;
    match a
    case HandlerReturns(c) => HandlerKeeps(cfg, s, c);
    case Delete(c) => DeleteKeeps(cfg, s, c);
    case Done(c) => DoneKeeps(cfg, s, c);
  }

  // The accept loop.

  lemma SameHeld(s: State, t: State)
    requires Ownership(s) && Held(t.loop) == Held(s.loop) && !t.loop.CancelDone?
    requires t.sh.active == s.sh.active && t.tracked == s.tracked && t.untracked == s.untracked
    requires t.running == s.running && t.finishing == s.finishing && t.releasing == s.releasing
    ensures Ownership(t)
  {
  }

  lemma SameInHand(s: State, t: State)
    requires Accounting(s) && InHand(t.loop) == InHand(s.loop) && !s.loop.CancelDone? && !t.loop.CancelDone?
    requires t.sh == s.sh && t.releasing == s.releasing && t.next == s.next
    requires t.tracked == s.tracked && t.limited == s.limited && t.refused == s.refused
    ensures Accounting(t)
  {
  }

  /** The loop moves between two places that hold no connection. */
  lemma TurnKeeps(cfg: Config, s: State, t: State)
    requires Inv(cfg, s)
    requires
      || (s.loop.Accepting? && t == s.(loop := Leaving))
      || (s.loop.Leaving? && s.shutdown.NotStarted? && t == s.(shutdown := Begin))
      || (s.loop.Leaving? && s.shutdown.Finished? && t == s.(loop := ClosingDone))
      || (s.loop.ClosingDone?
          && t == s.(doneClosed := true, loop := if cfg.workers > 0 then ClosingJobs else Returned))
      || (s.loop.ClosingJobs? && t == s.(jobsClosed := true, loop := Joining))
      || (s.loop.Joining? && s.exited == cfg.workers && t == s.(loop := Returned))
    ensures Inv(cfg, t)
  {
    assert Held(t.loop) == Held(s.loop) == {} && InHand(t.loop) == InHand(s.loop) == {};
    SameHeld(s, t);
    SameInHand(s, t);
    hide Ownership, Accounting;
  }

  lemma AcceptKeeps(cfg: Config, s: State)
    requires Inv(cfg, s) && s.loop.Accepting? && !s.listenerClosed
    ensures Inv(cfg, s.(loop := Tracking(s.next), next := s.next + 1))
  {
  }

  lemma RefuseKeeps(cfg: Config, s: State)
    requires Inv(cfg, s)
    ensures s.loop.Rejecting? ==> Inv(cfg, s.(closed := s.closed + {s.loop.c}, loop := Accepting))
    ensures s.loop.Refusing? ==> Inv(cfg, s.(closed := s.closed + {s.loop.c}, loop := Leaving))
  {
    if s.loop.Rejecting? || s.loop.Refusing? {
      var t := s.(closed := s.closed + {s.loop.c}, loop := if s.loop.Rejecting? then Accepting else Leaving);
      assert Held(t.loop) == Held(s.loop) == {} && InHand(t.loop) == InHand(s.loop) == {};
      SameHeld(s, t);
      SameInHand(s, t);
      hide Ownership, Accounting;
    }
  }

  lemma GiveOwns(s: State, t: State)
    requires Ownership(s) && Accounting(s) && (s.loop.Spawning? || s.loop.Handing?)
    requires t == s.(running := s.running + {s.loop.c}, loop := Accepting)
    ensures Ownership(t) && Accounting(t)
  {
    assert s.loop.c in Held(s.loop) && Held(t.loop) == {} && InHand(t.loop) == InHand(s.loop) == {};
    assert Ownership(t) by {
      hide Accounting;
    }
    hide Ownership;
  }

  lemma GiveKeeps(cfg: Config, s: State)
    requires Inv(cfg, s) && (s.loop.Spawning? || (s.loop.Handing? && HasIdleWorker(cfg, s)))
    ensures Inv(cfg, s.(running := s.running + {s.loop.c}, loop := Accepting))
  {
    hide Accounting, Ownership;
    var t := s.(running := s.running + {s.loop.c}, loop := Accepting);
    GiveOwns(s, t);
    assert |s.running + {s.loop.c}| <= |s.running| + 1;
  }

  lemma WithdrawKeeps(cfg: Config, s: State)
    requires Inv(cfg, s)
    ensures s.loop.Handing? && s.ctxDone ==> Inv(cfg, s.(loop := CancelClose(s.loop.c)))
    ensures s.loop.CancelClose? ==> Inv(cfg, s.(closed := s.closed + {s.loop.c}, loop := CancelDelete(s.loop.c)))
  {
    if s.loop.Handing? || s.loop.CancelClose? {
      var c := s.loop.c;
      var t :=
        if s.loop.Handing? then s.(loop := CancelClose(c)) else s.(closed := s.closed + {c}, loop := CancelDelete(c));
      assert Held(t.loop) == Held(s.loop) && InHand(t.loop) == InHand(s.loop) == {};
      SameHeld(s, t);
      SameInHand(s, t);
      hide Ownership, Accounting;
    }
  }

  lemma LoopDeleteOwns(s: State, t: State)
    requires Ownership(s) && s.loop.CancelDelete?
    requires t == s.(sh := DeleteShared(s.sh, s.loop.c), untracked := s.untracked + {s.loop.c},
                     loop := CancelDone(s.loop.c))
    ensures Ownership(t) && s.loop.c in s.sh.active
  {
    assert s.loop.c in Held(s.loop);
  }

  lemma LoopDeleteCounts(s: State, t: State)
    requires Accounting(s) && s.loop.CancelDelete? && s.loop.c in s.sh.active
    requires t == s.(sh := DeleteShared(s.sh, s.loop.c), untracked := s.untracked + {s.loop.c},
                     loop := CancelDone(s.loop.c))
    ensures Accounting(t) && |t.sh.active| == |s.sh.active| - 1
  {
    MoveOne(s.sh.active, {}, s.loop.c);
  }

  lemma LoopDeleteKeeps(cfg: Config, s: State)
    requires Inv(cfg, s) && s.loop.CancelDelete?
    ensures
      Inv(cfg, s.(sh := DeleteShared(s.sh, s.loop.c), untracked := s.untracked + {s.loop.c},
                  loop := CancelDone(s.loop.c)))
  {
    hide Ownership, Accounting;
    var t := s.(sh := DeleteShared(s.sh, s.loop.c), untracked := s.untracked + {s.loop.c},
                loop := CancelDone(s.loop.c));
    LoopDeleteOwns(s, t);
    LoopDeleteCounts(s, t);
  }

  lemma LoopDoneKeeps(cfg: Config, s: State)
    requires Inv(cfg, s) && s.loop.CancelDone?
    ensures Inv(cfg, s.(sh := DoneShared(s.sh), loop := Leaving))
  {
    var t := s.(sh := DoneShared(s.sh), loop := Leaving);
    assert Held(t.loop) == Held(s.loop) == {} && InHand(t.loop) == InHand(s.loop) == {};
    assert Ownership(t) by {
      hide Accounting, Closing, Phases, Bounds;
    }
    assert Accounting(t) by {
      hide Ownership, Closing, Phases, Bounds;
    }
    hide Ownership;
  }

  lemma TrackedOwns(cfg: Config, s: State, t: State)
    requires Ownership(s) && s.loop.Tracking? && s.loop.c !in s.tracked
    requires t == s.(sh := s.sh.(active := s.sh.active + {s.loop.c}, wg := s.sh.wg + 1),
                     tracked := s.tracked + {s.loop.c},
                     loop := if cfg.workers > 0 then Handing(s.loop.c) else Spawning(s.loop.c))
    ensures Ownership(t) && s.loop.c !in s.sh.active
  {
    assert Held(s.loop) == {} && Held(t.loop) == {s.loop.c};
  }

  lemma TrackedCounts(cfg: Config, s: State, t: State)
    requires Accounting(s) && s.loop.Tracking? && s.loop.c !in s.sh.active
    requires t == s.(sh := s.sh.(active := s.sh.active + {s.loop.c}, wg := s.sh.wg + 1),
                     tracked := s.tracked + {s.loop.c},
                     loop := if cfg.workers > 0 then Handing(s.loop.c) else Spawning(s.loop.c))
    ensures Accounting(t) && |t.sh.active| == |s.sh.active| + 1
  {
    assert s.loop.c in InHand(s.loop) && InHand(t.loop) == {};
    MoveOne({s.loop.c}, s.tracked, s.loop.c);
    MoveOne({s.loop.c}, s.sh.active, s.loop.c);
  }

  lemma InHandIsNew(s: State)
    requires Accounting(s) && s.loop.Tracking?
    ensures s.loop.c !in s.tracked && s.loop.c !in s.limited && s.loop.c !in s.refused
  {
    assert s.loop.c in InHand(s.loop);
  }

  lemma TrackedBounds(cfg: Config, s: State, t: State)
    requires Bounds(cfg, s) && s.loop.Tracking? && !(cfg.maxActive > 0 && |s.sh.active| >= cfg.maxActive)
    requires t == s.(sh := t.sh, tracked := t.tracked,
                     loop := if cfg.workers > 0 then Handing(s.loop.c) else Spawning(s.loop.c))
    requires |t.sh.active| == |s.sh.active| + 1
    ensures Bounds(cfg, t)
  {
    assert Held(t.loop) == {s.loop.c};
  }

  lemma TrackedKeeps(cfg: Config, s: State)
    requires Inv(cfg, s) && s.loop.Tracking? && !s.sh.shuttingDown
    requires !(cfg.maxActive > 0 && |s.sh.active| >= cfg.maxActive)
    ensures
      Inv(cfg, s.(sh := s.sh.(active := s.sh.active + {s.loop.c}, wg := s.sh.wg + 1),
                  tracked := s.tracked + {s.loop.c},
                  loop := if cfg.workers > 0 then Handing(s.loop.c) else Spawning(s.loop.c)))
  {
    hide Ownership, Accounting;
    var t := s.(sh := s.sh.(active := s.sh.active + {s.loop.c}, wg := s.sh.wg + 1),
                tracked := s.tracked + {s.loop.c},
                loop := if cfg.workers > 0 then Handing(s.loop.c) else Spawning(s.loop.c));
    InHandIsNew(s);
    TrackedOwns(cfg, s, t);
    TrackedCounts(cfg, s, t);
    TrackedBounds(cfg, s, t);
    hide Bounds;
  }

  lemma LimitCounts(s: State, t: State)
    requires Accounting(s) && s.loop.Tracking?
    requires t == s.(sh := s.sh.(rejected := s.sh.rejected + 1), limited := s.limited + {s.loop.c},
                     loop := Rejecting(s.loop.c))
    ensures Accounting(t)
  {
    assert s.loop.c in InHand(s.loop) && InHand(t.loop) == {};
    MoveOne({s.loop.c}, s.limited, s.loop.c);
  }

  /** While the loop holds nothing every active connection has its handler. */
  lemma AllWithHandlers(s: State)
    requires Ownership(s) && s.loop.Tracking?
    ensures |s.sh.active| == |s.running| + |s.finishing|
  {
    assert Held(s.loop) == {};
    assert s.sh.active == s.running + s.finishing;
  }

  /** With more room than workers the limit is never met: the accept loop holds nothing here, so
      every active connection has a worker. */
  lemma LimitKeeps(cfg: Config, s: State)
    requires Inv(cfg, s) && s.loop.Tracking? && cfg.maxActive > 0 && |s.sh.active| >= cfg.maxActive
    ensures
      Inv(cfg, s.(sh := s.sh.(rejected := s.sh.rejected + 1), limited := s.limited + {s.loop.c},
                  loop := Rejecting(s.loop.c)))
  {
    var t := s.(sh := s.sh.(rejected := s.sh.rejected + 1), limited := s.limited + {s.loop.c},
                loop := Rejecting(s.loop.c));
    LimitCounts(s, t);
    AllWithHandlers(s);
    hide Accounting;
  }

  lemma RefusedCounts(s: State, t: State)
    requires Accounting(s) && s.loop.Tracking?
    requires t == s.(refused := s.refused + {s.loop.c}, loop := Refusing(s.loop.c))
    ensures Accounting(t)
  {
    assert s.loop.c in InHand(s.loop) && InHand(t.loop) == {};
    MoveOne({s.loop.c}, s.refused, s.loop.c);
  }

  lemma RefusedKeeps(cfg: Config, s: State)
    requires Inv(cfg, s) && s.loop.Tracking? && s.sh.shuttingDown
    ensures Inv(cfg, s.(refused := s.refused + {s.loop.c}, loop := Refusing(s.loop.c)))
  {
    var t := s.(refused := s.refused + {s.loop.c}, loop := Refusing(s.loop.c));
    assert Held(s.loop) == Held(t.loop) == {};
    SameHeld(s, t);
    RefusedCounts(s, t);
    hide Ownership, Accounting;
  }

  lemma TrackKeeps(cfg: Config, s: State)
    requires Inv(cfg, s) && s.loop.Tracking?
    ensures Inv(cfg, Apply(cfg, s, Track))
  {
    hide Inv;
    if s.sh.shuttingDown {
      RefusedKeeps(cfg, s);
    } else if cfg.maxActive > 0 && |s.sh.active| >= cfg.maxActive {
      LimitKeeps(cfg, s);
    } else {
      TrackedKeeps(cfg, s);
    }
  }

  lemma LoopKeeps(cfg: Config, s: State, a: Action)
    requires Inv(cfg, s) && Enabled(cfg, s, a) && ProcessOf(a).LoopProcess?
    ensures Inv(cfg, Apply(cfg, s, a))
  {
    hide Inv, ConnStep, ShutdownStep, WatchStep;
    match a
    case Accept => AcceptKeeps(cfg, s);
    case RejectClose | RefuseClose => RefuseKeeps(cfg, s);
    case HandOff | Spawn => GiveKeeps(cfg, s);
    case HandCancel | LoopClose => WithdrawKeeps(cfg, s);
    case LoopDelete => LoopDeleteKeeps(cfg, s);
    case LoopDone => LoopDoneKeeps(cfg, s);
    case Track => TrackKeeps(cfg, s);
    case AcceptFails | LoopStarts | LoopResumes | CloseDone | CloseJobs | Join => TurnKeeps(cfg, s, Apply(cfg, s, a));
  }

  /** Every step keeps every invariant. */
  lemma StepKeeps(cfg: Config, s: State, a: Action)
    requires Inv(cfg, s) && Enabled(cfg, s, a)
    ensures Inv(cfg, Apply(cfg, s, a))
  {
    hide Inv, Apply;
    match ProcessOf(a)
    case LoopProcess => LoopKeeps(cfg, s, a);
    case ConnProcess => ConnKeeps(cfg, s, a);
    case ShutdownProcess => ShutdownKeeps(cfg, s, a);
    case WatchProcess => WatchKeeps(cfg, s, a);
  }

  lemma InitInv(cfg: Config)
    ensures Inv(cfg, Init())
  {
  }

  lemma {:induction false} RunKeeps(cfg: Config, s: State, acts: seq<Action>)
    requires Inv(cfg, s) && ValidRun(cfg, s, acts)
    ensures Inv(cfg, Exec(cfg, s, acts))
    decreases acts
  {
    if acts != [] {
      StepKeeps(cfg, s, acts[0]);
      RunKeeps(cfg, Apply(cfg, s, acts[0]), acts[1..]);
    }
  }

  lemma ReachableInv(cfg: Config, s: State)
    requires Reachable(cfg, s)
    ensures Inv(cfg, s)
  {
    var acts :| ValidRun(cfg, Init(), acts) && Exec(cfg, Init(), acts) == s;
    InitInv(cfg);
    RunKeeps(cfg, Init(), acts);
  }

  // ----- accounting ----------------------------------------------------------------------------

  /** The wait group counts the active connections and the untracks between delete and Done; every
      accepted connection is tracked, rejected at the limit, refused at shutdown or still in hand. */
  lemma WaitGroupAccounting(cfg: Config, s: State)
    requires Reachable(cfg, s)
    ensures s.sh.wg == |s.sh.active| + PendingDone(s) >= 0
    ensures cfg.maxActive > 0 ==> |s.sh.active| <= cfg.maxActive
    ensures s.next == |s.tracked| + s.sh.rejected + |s.refused| + |InHand(s.loop)|
    ensures s.tracked == s.sh.active + s.untracked && s.sh.active !! s.untracked
    ensures s.untracked <= s.closed
  {
    ReachableInv(cfg, s);
  }

  function Deletes(s: State, a: Action): set<Conn> {
    match a
    case Delete(c) => {c}
    case LoopDelete => if s.loop.CancelDelete? then {s.loop.c} else {}
    case _ => {}
  }

  /** How often a run deletes c from the active set. */
  ghost function DeleteCount(cfg: Config, s: State, acts: seq<Action>, c: Conn): nat
    requires ValidRun(cfg, s, acts)
    decreases acts
  {
    if acts == [] then 0
    else (if c in Deletes(s, acts[0]) then 1 else 0)
         + DeleteCount(cfg, Apply(cfg, s, acts[0]), acts[1..], c)
  }

  /** A step deletes only a connection that is active and already closed. */
  lemma DeleteStep(cfg: Config, s: State, a: Action)
    requires Ownership(s) && Closing(s) && Enabled(cfg, s, a)
    ensures forall c :: c in Deletes(s, a) ==> c in s.sh.active && c in s.closed && c !in s.untracked
  {
  }

  lemma UntrackedGrows(cfg: Config, s: State, a: Action)
    requires Enabled(cfg, s, a)
    ensures Apply(cfg, s, a).untracked == s.untracked + Deletes(s, a)
  {
    if !a.Delete? && !a.LoopDelete? {
      assert Apply(cfg, s, a).untracked == s.untracked;
    }
  }

  lemma {:induction false} DeletesFrom(cfg: Config, s: State, acts: seq<Action>, c: Conn)
    requires Inv(cfg, s) && ValidRun(cfg, s, acts)
    ensures DeleteCount(cfg, s, acts, c)
            == (if c in Exec(cfg, s, acts).untracked then 1 else 0) - (if c in s.untracked then 1 else 0)
    decreases acts
  {
    if acts != [] {
      DeleteStep(cfg, s, acts[0]);
      UntrackedGrows(cfg, s, acts[0]);
      StepKeeps(cfg, s, acts[0]);
      DeletesFrom(cfg, Apply(cfg, s, acts[0]), acts[1..], c);
    }
  }

  /** Along the run a connection is deleted only after it has been closed. */
  ghost predicate DeletesClosed(cfg: Config, s: State, acts: seq<Action>)
    requires ValidRun(cfg, s, acts)
    decreases acts
  {
    acts == []
    || (Deletes(s, acts[0]) <= s.closed && DeletesClosed(cfg, Apply(cfg, s, acts[0]), acts[1..]))
  }

  lemma {:induction false} OnlyClosedDeleted(cfg: Config, s: State, acts: seq<Action>)
    requires Inv(cfg, s) && ValidRun(cfg, s, acts)
    ensures DeletesClosed(cfg, s, acts)
    decreases acts
  {
    hide Apply;
    if acts != [] {
      DeleteStep(cfg, s, acts[0]);
      StepKeeps(cfg, s, acts[0]);
      OnlyClosedDeleted(cfg, Apply(cfg, s, acts[0]), acts[1..]);
    }
  }

  /** No run untracks a connection twice, nor before it is closed; a run that ends with Serve's return has
      untracked every tracked connection exactly once. */
  lemma UntrackedOnce(cfg: Config, acts: seq<Action>, c: Conn)
    requires ValidRun(cfg, Init(), acts)
    ensures DeleteCount(cfg, Init(), acts, c) <= 1 && DeletesClosed(cfg, Init(), acts)
    ensures
      var s := Exec(cfg, Init(), acts);
      s.loop.Returned? ==> (DeleteCount(cfg, Init(), acts, c) == 1 <==> c in s.tracked)
  {
    InitInv(cfg);
    OnlyClosedDeleted(cfg, Init(), acts);
    DeletesFrom(cfg, Init(), acts, c);
    RunKeeps(cfg, Init(), acts);
  }

  // ----- shutdown safety -----------------------------------------------------------------------

  lemma SharedDrains(cfg: Config, s: State, a: Action)
    requires Enabled(cfg, s, a) && s.sh.shuttingDown
    ensures
      var sh := Apply(cfg, s, a).sh;
      sh.shuttingDown && sh.active <= s.sh.active && sh.wg <= s.sh.wg
  {
    if !(a.Delete? || a.LoopDelete? || a.Done? || a.LoopDone?) {
      assert Apply(cfg, s, a).sh == s.sh;
    }
  }

  lemma TrackedFixed(cfg: Config, s: State, a: Action)
    requires Enabled(cfg, s, a) && s.sh.shuttingDown
    ensures Apply(cfg, s, a).tracked == s.tracked
  {
    if a.Track? {
      assert TrackShared(cfg.maxActive, s.sh, s.loop.c) == (s.sh, ShuttingDown);
    } else {
      assert Apply(cfg, s, a).tracked == s.tracked;
    }
  }

  lemma ClosedGrows(cfg: Config, s: State, a: Action)
    requires Enabled(cfg, s, a)
    ensures s.closed <= Apply(cfg, s, a).closed
  {
    hide Apply;
    match ProcessOf(a)
    case LoopProcess => LoopShares(cfg, s, a);
    case ConnProcess => ConnFrame(cfg, s, a);
    case ShutdownProcess => ShutdownFrame(cfg, s, a);
    case WatchProcess => WatchFrame(cfg, s, a);
  }

  lemma FinishedStays(cfg: Config, s: State, a: Action)
    requires Enabled(cfg, s, a) && s.shutdown.Finished?
    ensures Apply(cfg, s, a).shutdown.Finished?
  {
    hide LoopStep, ConnStep, WatchStep;
    match ProcessOf(a)
    case LoopProcess => LoopShares(cfg, s, a);
    case ConnProcess => ConnFrame(cfg, s, a);
    case ShutdownProcess =>
    case WatchProcess => WatchFrame(cfg, s, a);
  }

  /** Once shuttingDown is set the active set only shrinks, nothing is tracked and the wait group
      only counts down; once the guarded shutdown has finished its counter is 0 and stays 0. */
  lemma {:induction false} ShutdownOnlyDrains(cfg: Config, s: State, acts: seq<Action>)
    requires Inv(cfg, s) && ValidRun(cfg, s, acts) && s.sh.shuttingDown
    ensures
      var t := Exec(cfg, s, acts);
      && t.sh.shuttingDown && t.sh.active <= s.sh.active && t.sh.wg <= s.sh.wg
      && t.tracked == s.tracked && s.closed <= t.closed
      && (s.shutdown.Finished? ==> t.shutdown.Finished? && t.sh.wg == 0 && t.sh.active == {})
    decreases acts
  {
    RunKeeps(cfg, s, acts);
    if acts != [] {
      SharedDrains(cfg, s, acts[0]);
      TrackedFixed(cfg, s, acts[0]);
      ClosedGrows(cfg, s, acts[0]);
      if s.shutdown.Finished? {
        FinishedStays(cfg, s, acts[0]);
      }
      StepKeeps(cfg, s, acts[0]);
      ShutdownOnlyDrains(cfg, Apply(cfg, s, acts[0]), acts[1..]);
    }
  }

  /** The wait group is only ever added to before shutdown sets its flag, hence before any Wait. */
  lemma AddsPrecedeWaits(cfg: Config, s: State, a: Action)
    requires Reachable(cfg, s) && Enabled(cfg, s, a)
    requires Apply(cfg, s, a).sh.wg > s.sh.wg
    ensures s.shutdown.NotStarted? || s.shutdown.Begin?
  {
    ReachableInv(cfg, s);
    if s.sh.shuttingDown {
      SharedDrains(cfg, s, a);
    }
  }

  /** When the final wait begins, every connection ever tracked is closed, including one that was
      still waiting for a worker at the snapshot. */
  lemma ForceCloseReachesAll(cfg: Config, s: State)
    requires Reachable(cfg, s) && (s.shutdown.FinalWait? || s.shutdown.Finished?)
    ensures s.tracked <= s.closed
  {
    ReachableInv(cfg, s);
  }

  lemma ReturnedIsClean(cfg: Config, s: State)
    requires Inv(cfg, s) && s.loop.Returned?
    ensures forall c: Conn :: c < s.next ==> c in s.closed
    ensures s.untracked == s.tracked && s.sh.active == {} && s.sh.wg == 0
    ensures s.running == s.finishing == s.releasing == {}
    ensures s.exited == cfg.workers && s.listenerClosed && s.doneClosed
  {
  }

  /** When Serve returns, every connection it ever accepted is closed and untracked, no handler runs
      and every worker has left. */
  lemma ServeReturnsClean(cfg: Config, s: State)
    requires Reachable(cfg, s) && s.loop.Returned?
    ensures forall c: Conn :: c < s.next ==> c in s.closed
    ensures s.untracked == s.tracked && s.sh.active == {} && s.sh.wg == 0
    ensures s.running == s.finishing == s.releasing == {}
    ensures s.exited == cfg.workers && s.listenerClosed && s.doneClosed
  {
    ReachableInv(cfg, s);
  }
}
