/** One call of Serve as an interleaved step system: the accept loop, the workers (or one goroutine
    per connection), the context watcher, the once-only shutdown and the environment. */
module TcpLifecycle {
  import opened TcpServer

  // workers == 0 starts one goroutine per connection.
  datatype Config = Config(workers: nat, maxActive: int)

  datatype AcceptLoop =
    | Accepting                // blocked in Accept
    | Tracking(c: Conn)        // about to call trackConn
    | Rejecting(c: Conn)       // over the limit: about to close it and continue
    | Refusing(c: Conn)        // shutting down: about to close it and return
    | Handing(c: Conn)         // offering it to a worker, or waiting for the context
    | Spawning(c: Conn)        // about to start its goroutine
    | CancelClose(c: Conn)     // the context ended first: about to close it,
    | CancelDelete(c: Conn)    //   delete it
    | CancelDone(c: Conn)      //   and call wg.Done
    | Leaving                  // in the deferred call of shutdown
    | ClosingDone              // about to close the done channel
    | ClosingJobs              // about to close the job channel
    | Joining                  // waiting for the workers
    | Returned

  datatype Watcher = Watching | InShutdown | Gone

  datatype Shutdown =
    | NotStarted
    | Begin                              // about to set shuttingDown
    | CloseListener
    | Grace                              // waiting for the wait group or the timer
    | Snapshot
    | ForceClosing(pending: set<Conn>)
    | FinalWait
    | Finished

  datatype State = State(
    sh: Shared,
    loop: AcceptLoop,
    watcher: Watcher,
    shutdown: Shutdown,
    ctxDone: bool,
    listenerClosed: bool,
    doneClosed: bool,
    jobsClosed: bool,
    exited: nat,                // workers that have left their loop
    running: set<Conn>,         // inside the handler
    finishing: set<Conn>,       // handler returned and connection closed, about to delete
    releasing: set<Conn>,       // deleted, about to call wg.Done
    closed: set<Conn>,
    // Bookkeeping about the past; no step reads it.
    next: nat,                  // connections are numbered in the order Accept returned them
    tracked: set<Conn>,
    untracked: set<Conn>,
    limited: set<Conn>,
    refused: set<Conn>)

  function Init(): State {
    State(Shared({}, 0, false, 0), Accepting, Watching, NotStarted, false, false, false, false,
          0, {}, {}, {}, {}, 0, {}, {}, {}, {})
  }

  datatype Action =
    | CtxCancel | Accept | AcceptFails
    | Track | RejectClose | RefuseClose | HandOff | Spawn
    | HandCancel | LoopClose | LoopDelete | LoopDone
    | HandlerReturns(c: Conn) | Delete(c: Conn) | Done(c: Conn) | WorkerExits
    | WatcherStarts | WatcherSeesDone | WatcherReturns
    | LoopStarts | LoopResumes | CloseDone | CloseJobs | Join
    | BeginShutdown | ListenerClose | GraceOk | GraceTimeout
    | TakeSnapshot | ForceClose(c: Conn) | ForceDone | FinalDone

  function Busy(s: State): nat {
    |s.running| + |s.finishing| + |s.releasing|
  }

  predicate HasIdleWorker(cfg: Config, s: State) {
    Busy(s) + s.exited < cfg.workers
  }

  datatype Process = LoopProcess | ConnProcess | ShutdownProcess | WatchProcess

  /** Whose step it is. */
  function ProcessOf(a: Action): Process {
    match a
    case HandlerReturns(_) | Delete(_) | Done(_) => ConnProcess
    case BeginShutdown | ListenerClose | GraceOk | GraceTimeout => ShutdownProcess
    case TakeSnapshot | ForceClose(_) | ForceDone | FinalDone => ShutdownProcess
    case CtxCancel | WatcherStarts | WatcherSeesDone | WatcherReturns | WorkerExits => WatchProcess
    case _ => LoopProcess
  }

  // The accept loop, from Accept to Serve's return.

  predicate LoopEnabled(cfg: Config, s: State, a: Action) {
    match a
    case Accept => s.loop.Accepting? && !s.listenerClosed
    case AcceptFails => s.loop.Accepting?
    case Track => s.loop.Tracking?
    case RejectClose => s.loop.Rejecting?
    case RefuseClose => s.loop.Refusing?
    case HandOff => s.loop.Handing? && HasIdleWorker(cfg, s)
    case Spawn => s.loop.Spawning?
    case HandCancel => s.loop.Handing? && s.ctxDone
    case LoopClose => s.loop.CancelClose?
    case LoopDelete => s.loop.CancelDelete?
    case LoopDone => s.loop.CancelDone?
    case LoopStarts => s.loop.Leaving? && s.shutdown.NotStarted?
    case LoopResumes => s.loop.Leaving? && s.shutdown.Finished?
    case CloseDone => s.loop.ClosingDone?
    case CloseJobs => s.loop.ClosingJobs?
    case Join => s.loop.Joining? && s.exited == cfg.workers
    case _ => false
  }

  function LoopStep(cfg: Config, s: State, a: Action): State
    requires LoopEnabled(cfg, s, a)
  {
    match a
    case Accept => s.(loop := Tracking(s.next), next := s.next + 1)
    case AcceptFails => s.(loop := Leaving)
    case Track =>
      var c := s.loop.c;
      var (sh, r) := TrackShared(cfg.maxActive, s.sh, c);
      (match r
       case Tracked =>
         s.(sh := sh, tracked := s.tracked + {c},
            loop := if cfg.workers > 0 then Handing(c) else Spawning(c))
       case LimitReached => s.(sh := sh, limited := s.limited + {c}, loop := Rejecting(c))
       case ShuttingDown => s.(refused := s.refused + {c}, loop := Refusing(c)))
    case RejectClose => s.(closed := s.closed + {s.loop.c}, loop := Accepting)
    case RefuseClose => s.(closed := s.closed + {s.loop.c}, loop := Leaving)
    case HandOff => s.(running := s.running + {s.loop.c}, loop := Accepting)
    case Spawn => s.(running := s.running + {s.loop.c}, loop := Accepting)
    case HandCancel => s.(loop := CancelClose(s.loop.c))
    case LoopClose => s.(closed := s.closed + {s.loop.c}, loop := CancelDelete(s.loop.c))
    case LoopDelete =>
      s.(sh := DeleteShared(s.sh, s.loop.c), untracked := s.untracked + {s.loop.c},
         loop := CancelDone(s.loop.c))
    case LoopDone => s.(sh := DoneShared(s.sh), loop := Leaving)
    case LoopStarts => s.(shutdown := Begin)
    case LoopResumes => s.(loop := ClosingDone)
    case CloseDone => s.(doneClosed := true, loop := if cfg.workers > 0 then ClosingJobs else Returned)
    case CloseJobs => s.(jobsClosed := true, loop := Joining)
    case Join => s.(loop := Returned)
  }

  // A connection in its handler, up to the wait group's Done.

  predicate ConnEnabled(cfg: Config, s: State, a: Action) {
    match a
    case HandlerReturns(c) => c in s.running
    case Delete(c) => c in s.finishing
    case Done(c) => c in s.releasing
    case _ => false
  }

  function ConnStep(cfg: Config, s: State, a: Action): State
    requires ConnEnabled(cfg, s, a)
  {
    match a
    case HandlerReturns(c) =>
      s.(running := s.running - {c}, finishing := s.finishing + {c}, closed := s.closed + {c})
    case Delete(c) =>
      s.(sh := DeleteShared(s.sh, c), untracked := s.untracked + {c},
         finishing := s.finishing - {c}, releasing := s.releasing + {c})
    case Done(c) => s.(sh := DoneShared(s.sh), releasing := s.releasing - {c})
  }

  // The once-only shutdown.

  predicate ShutdownEnabled(cfg: Config, s: State, a: Action) {
    match a
    case BeginShutdown => s.shutdown.Begin?
    case ListenerClose => s.shutdown.CloseListener?
    case GraceOk => s.shutdown.Grace? && s.sh.wg == 0
    case GraceTimeout => s.shutdown.Grace?
    case TakeSnapshot => s.shutdown.Snapshot?
    case ForceClose(c) => s.shutdown.ForceClosing? && c in s.shutdown.pending
    case ForceDone => s.shutdown == ForceClosing({})
    case FinalDone => s.shutdown.FinalWait? && s.sh.wg == 0
    case _ => false
  }

  function ShutdownStep(cfg: Config, s: State, a: Action): State
    requires ShutdownEnabled(cfg, s, a)
  {
    match a
    case BeginShutdown => s.(sh := BeginShutdownShared(s.sh), shutdown := CloseListener)
    case ListenerClose => s.(listenerClosed := true, shutdown := Grace)
    case GraceOk => s.(shutdown := Finished)
    case GraceTimeout => s.(shutdown := Snapshot)
    case TakeSnapshot => s.(sh := BeginShutdownShared(s.sh), shutdown := ForceClosing(s.sh.active))
    case ForceClose(c) => s.(closed := s.closed + {c}, shutdown := ForceClosing(s.shutdown.pending - {c}))
    case ForceDone => s.(shutdown := FinalWait)
    case FinalDone => s.(shutdown := Finished)
  }

  // The end of the context, its watcher, and workers that leave.

  predicate WatchEnabled(cfg: Config, s: State, a: Action) {
    match a
    case CtxCancel => !s.ctxDone
    case WatcherStarts => s.watcher.Watching? && s.ctxDone
    case WatcherSeesDone => s.watcher.Watching? && s.doneClosed
    case WatcherReturns => s.watcher.InShutdown? && s.shutdown.Finished?
    case WorkerExits => s.jobsClosed && HasIdleWorker(cfg, s)
    case _ => false
  }

  function WatchStep(cfg: Config, s: State, a: Action): State
    requires WatchEnabled(cfg, s, a)
  {
    match a
    case CtxCancel => s.(ctxDone := true)
    case WatcherStarts =>
      s.(watcher := InShutdown, shutdown := if s.shutdown.NotStarted? then Begin else s.shutdown)
    case WatcherSeesDone => s.(watcher := Gone)
    case WatcherReturns => s.(watcher := Gone)
    case WorkerExits => s.(exited := s.exited + 1)
  }

  predicate Enabled(cfg: Config, s: State, a: Action) {
    match ProcessOf(a)
    case LoopProcess => LoopEnabled(cfg, s, a)
    case ConnProcess => ConnEnabled(cfg, s, a)
    case ShutdownProcess => ShutdownEnabled(cfg, s, a)
    case WatchProcess => WatchEnabled(cfg, s, a)
  }

  function Apply(cfg: Config, s: State, a: Action): State
    requires Enabled(cfg, s, a)
  {
    match ProcessOf(a)
    case LoopProcess => LoopStep(cfg, s, a)
    case ConnProcess => ConnStep(cfg, s, a)
    case ShutdownProcess => ShutdownStep(cfg, s, a)
    case WatchProcess => WatchStep(cfg, s, a)
  }

  ghost predicate ValidRun(cfg: Config, s: State, acts: seq<Action>)
    decreases acts
  {
    acts == [] || (Enabled(cfg, s, acts[0]) && ValidRun(cfg, Apply(cfg, s, acts[0]), acts[1..]))
  }

  /** The state a run reaches. */
  ghost function Exec(cfg: Config, s: State, acts: seq<Action>): State
    requires ValidRun(cfg, s, acts)
    decreases acts
  {
    if acts == [] then s else Exec(cfg, Apply(cfg, s, acts[0]), acts[1..])
  }

  ghost predicate Reachable(cfg: Config, s: State) {
    exists acts :: ValidRun(cfg, Init(), acts) && Exec(cfg, Init(), acts) == s
  }
}
