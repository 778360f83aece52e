/** How the worker pool and the connection limit meet: bounds that hold in every reachable state, and runs
    that reach them. */
module TcpPool {
  import opened TcpServer
  import opened TcpLifecycle
  import opened TcpInvariants

  // ----- bounds --------------------------------------------------------------------------------

  /** The most connections a server with workers tracks at once. The hand-off is unbuffered, so beyond the
      workers' own connections the accept loop holds at most one. */
  function Capacity(cfg: Config): nat {
    if 0 < cfg.maxActive <= cfg.workers then cfg.maxActive else cfg.workers + 1
  }

  /** In every reachable state of a server with workers at most one tracked connection waits for one. */
  lemma PoolBound(cfg: Config, s: State)
    requires Reachable(cfg, s) && cfg.workers > 0
    ensures |s.running| <= cfg.workers
    ensures |s.sh.active| <= Capacity(cfg)
    ensures |s.sh.active - s.running - s.finishing| <= 1
  {
    ReachableInv(cfg, s);
    assert s.sh.active == s.running + s.finishing + Held(s.loop);
    assert |s.running + s.finishing| == |s.running| + |s.finishing|;
    assert |Held(s.loop)| <= 1 && s.sh.active - s.running - s.finishing == Held(s.loop);
  }

  // ----- runs that fill the server -------------------------------------------------------------

  lemma {:induction false} RunAppend(cfg: Config, s: State, acts: seq<Action>, a: Action)
    requires ValidRun(cfg, s, acts) && Enabled(cfg, Exec(cfg, s, acts), a)
    ensures ValidRun(cfg, s, acts + [a])
    ensures Exec(cfg, s, acts + [a]) == Apply(cfg, Exec(cfg, s, acts), a)
    decreases acts
  {
    hide Enabled, Apply;
    if acts == [] {
      assert [] + [a] == [a] && [a][1..] == [];
    } else {
      assert (acts + [a])[1..] == acts[1..] + [a];
      RunAppend(cfg, Apply(cfg, s, acts[0]), acts[1..], a);
    }
  }

  lemma ReachStep(cfg: Config, s: State, a: Action)
    requires Reachable(cfg, s) && Enabled(cfg, s, a)
    ensures Reachable(cfg, Apply(cfg, s, a))
  {
    hide Enabled, Apply;
    var acts :| ValidRun(cfg, Init(), acts) && Exec(cfg, Init(), acts) == s;
    RunAppend(cfg, Init(), acts, a);
  }

  function UpTo(k: nat): (cs: set<Conn>)
    ensures forall c: Conn :: c in cs <==> c < k
    ensures |cs| == k
  {
    if k == 0 then {} else UpTo(k - 1) + {k - 1}
  }

  /** The first k connections are in their handlers and nothing else has happened. */
  function Filled(k: nat): State {
    Init().(sh := Shared(UpTo(k), 0, false, k), running := UpTo(k), next := k, tracked := UpTo(k))
  }

  /** The same with one more connection in the accept loop's hands. */
  function Holding(k: nat, loop: AcceptLoop, tracked: nat): State {
    Filled(k).(sh := Shared(UpTo(tracked), 0, false, tracked), loop := loop, next := k + 1, tracked := UpTo(tracked))
  }

  predicate HasRoom(cfg: Config, k: nat) {
    cfg.maxActive <= 0 || k < cfg.maxActive
  }

  function HandingOver(cfg: Config, k: nat): AcceptLoop {
    if cfg.workers > 0 then Handing(k) else Spawning(k)
  }

  lemma AcceptOne(cfg: Config, k: nat)
    requires Reachable(cfg, Filled(k))
    ensures Reachable(cfg, Holding(k, Tracking(k), k))
  {
    hide Reachable;
    ReachStep(cfg, Filled(k), Accept);
  }

  lemma TrackOne(cfg: Config, k: nat)
    requires Reachable(cfg, Filled(k)) && HasRoom(cfg, k)
    ensures Reachable(cfg, Holding(k, HandingOver(cfg, k), k + 1))
  {
    hide Reachable;
    AcceptOne(cfg, k);
    ReachStep(cfg, Holding(k, Tracking(k), k), Track);
  }

  lemma GiveOne(cfg: Config, k: nat)
    requires Reachable(cfg, Filled(k)) && HasRoom(cfg, k)
    requires cfg.workers > 0 ==> k < cfg.workers
    ensures Reachable(cfg, Filled(k + 1))
  {
    hide Reachable;
    TrackOne(cfg, k);
    ReachStep(cfg, Holding(k, HandingOver(cfg, k), k + 1), if cfg.workers > 0 then HandOff else Spawn);
    assert UpTo(k) + {k} == UpTo(k + 1);
  }

  lemma NothingYet(cfg: Config)
    ensures Reachable(cfg, Filled(0))
  {
    assert ValidRun(cfg, Init(), []) && Exec(cfg, Init(), []) == Filled(0);
  }

  lemma {:induction false} FilledReachable(cfg: Config, k: nat)
    requires cfg.workers > 0 ==> k <= cfg.workers
    requires cfg.maxActive > 0 ==> k <= cfg.maxActive
    ensures Reachable(cfg, Filled(k))
    decreases k
  {
    hide Reachable, Filled;
    if k == 0 {
      NothingYet(cfg);
    } else {
      FilledReachable(cfg, k - 1);
      GiveOne(cfg, k - 1);
    }
  }

  /** The bounds are reached: no smaller number would do. */
  lemma PoolBoundReached(cfg: Config) returns (s: State)
    requires cfg.workers > 0
    ensures Reachable(cfg, s) && |s.sh.active| == Capacity(cfg)
    ensures |s.running| == if Capacity(cfg) <= cfg.workers then Capacity(cfg) else cfg.workers
  {
    hide Reachable;
    if 0 < cfg.maxActive <= cfg.workers {
      s := Filled(cfg.maxActive);
      FilledReachable(cfg, cfg.maxActive);
    } else {
      FilledReachable(cfg, cfg.workers);
      TrackOne(cfg, cfg.workers);
      s := Holding(cfg.workers, HandingOver(cfg, cfg.workers), cfg.workers + 1);
    }
  }

  /** A server whose limit can be met turns a connection away in some run. */
  lemma LimitRejects(cfg: Config) returns (s: State)
    requires !NeverLimits(cfg)
    ensures Reachable(cfg, s) && s.sh.rejected > 0 && s.loop.Rejecting? && !s.listenerClosed
  {
    hide Reachable;
    FilledReachable(cfg, cfg.maxActive);
    AcceptOne(cfg, cfg.maxActive);
    ReachStep(cfg, Holding(cfg.maxActive, Tracking(cfg.maxActive), cfg.maxActive), Track);
    s := Apply(cfg, Holding(cfg.maxActive, Tracking(cfg.maxActive), cfg.maxActive), Track);
  }

  /** No run rejects a connection exactly when there is no limit, or there is a pool and the limit is above
      its size. */
  lemma NeverRejectsIff(cfg: Config)
    ensures (forall s :: Reachable(cfg, s) ==> s.sh.rejected == 0) <==> NeverLimits(cfg)
  {
    hide Reachable;
    if NeverLimits(cfg) {
      forall s | Reachable(cfg, s) ensures s.sh.rejected == 0 {
        NoneLimited(cfg, s);
      }
    } else {
      var s := LimitRejects(cfg);
    }
  }

  lemma NoneLimited(cfg: Config, s: State)
    requires Reachable(cfg, s) && NeverLimits(cfg)
    ensures s.sh.rejected == 0
  {
    ReachableInv(cfg, s);
  }
}
