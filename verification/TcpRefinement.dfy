/** The server object takes part in the lifecycle: calls of its methods and closes on the network have
    together the effect of each step of the step system, and any run of steps leaves the object in the
    state the step system predicts. */
module TcpRefinement {
  import opened TcpServer
  import opened TcpLifecycle
  import opened TcpInvariants
  import opened TcpPool
  import opened TcpAccept

  /** What a step does to the fields under the lock, to the wait group and to the network. */
  method Perform(cfg: Config, server: Server, net: Network, s: State, a: Action)
    requires Enabled(cfg, s, a) && server.maxActiveConns == cfg.maxActive
    requires server.View() == s.sh && net.closed == s.closed
    modifies server, net
    ensures server.View() == Apply(cfg, s, a).sh && net.closed == Apply(cfg, s, a).closed
  {
    match ProcessOf(a) {
      case LoopProcess => PerformLoop(cfg, server, net, s, a);
      case ConnProcess => PerformConn(cfg, server, net, s, a);
      case ShutdownProcess => PerformShutdown(cfg, server, net, s, a);
      case WatchProcess => WatchFrame(cfg, s, a);
    }
  }

  method PerformLoop(cfg: Config, server: Server, net: Network, s: State, a: Action)
    requires LoopEnabled(cfg, s, a) && server.maxActiveConns == cfg.maxActive
    requires server.View() == s.sh && net.closed == s.closed
    modifies server, net
    ensures server.View() == LoopStep(cfg, s, a).sh && net.closed == LoopStep(cfg, s, a).closed
  {
    match a {
      case Track => var r := server.TrackConn(s.loop.c);
      case RejectClose | RefuseClose | LoopClose => net.Close(s.loop.c);
      case LoopDelete => server.DeleteConn(s.loop.c);
      case LoopDone => server.Done();
      case _ =>
    }
  }

  method PerformConn(cfg: Config, server: Server, net: Network, s: State, a: Action)
    requires ConnEnabled(cfg, s, a)
    requires server.View() == s.sh && net.closed == s.closed
    modifies server, net
    ensures server.View() == ConnStep(cfg, s, a).sh && net.closed == ConnStep(cfg, s, a).closed
  {
    match a {
      case HandlerReturns(c) => net.Close(c);
      case Delete(c) => server.DeleteConn(c);
      case Done(_) => server.Done();
    }
  }

  method PerformShutdown(cfg: Config, server: Server, net: Network, s: State, a: Action)
    requires ShutdownEnabled(cfg, s, a)
    requires server.View() == s.sh && net.closed == s.closed
    modifies server, net
    ensures server.View() == ShutdownStep(cfg, s, a).sh && net.closed == ShutdownStep(cfg, s, a).closed
  {
    match a {
      case BeginShutdown => server.BeginShutdown();
      case TakeSnapshot =>
        var conns := server.Snapshot();
        assert ShutdownStep(cfg, s, a).shutdown == ForceClosing(conns);
      case ForceClose(c) => net.Close(c);
      case _ =>
    }
  }

  /** Any interleaving of the processes, played on a fresh server. When it ends with Serve's return, the
      server object holds no connection, its wait group is at zero and every accepted connection is
      closed. The object is not told to shut down unless the context ends or Accept fails, and no
      connection is closed under its handler unless the grace period expires. */
  method Play(cfg: Config, acts: seq<Action>) returns (server: Server, net: Network)
    requires ValidRun(cfg, Init(), acts)
    ensures server.View() == Exec(cfg, Init(), acts).sh && net.closed == Exec(cfg, Init(), acts).closed
    ensures
      var end := Exec(cfg, Init(), acts);
      end.loop.Returned? ==>
        server.activeConns == {} && server.wg == 0 && forall c: Conn :: c < end.next ==> c in net.closed
    ensures NeverLimits(cfg) ==> server.rejectedConns == 0
    ensures Undisturbed(acts) ==> !server.shuttingDown
    ensures GraceTimeout !in acts ==> Exec(cfg, Init(), acts).running !! net.closed
  {
    server := new Server(cfg.maxActive);
    net := new Network();
    var s := Init();
    for i := 0 to |acts|
      invariant server.maxActiveConns == cfg.maxActive && server.View() == s.sh && net.closed == s.closed
      invariant ValidRun(cfg, s, acts[i..]) && Exec(cfg, s, acts[i..]) == Exec(cfg, Init(), acts)
    {
      hide Apply, Enabled;
      assert acts[i..][1..] == acts[i + 1..];
      Perform(cfg, server, net, s, acts[i]);
      s := Apply(cfg, s, acts[i]);
    }
    EndOfRun(cfg, acts);
  }

  lemma EndOfRun(cfg: Config, acts: seq<Action>)
    requires ValidRun(cfg, Init(), acts)
    ensures
      var end := Exec(cfg, Init(), acts);
      && (end.loop.Returned? ==>
            end.sh.active == {} && end.sh.wg == 0 && forall c: Conn :: c < end.next ==> c in end.closed)
      && (NeverLimits(cfg) ==> end.sh.rejected == 0)
      && (Undisturbed(acts) ==> !end.sh.shuttingDown)
      && (GraceTimeout !in acts ==> end.running !! end.closed)
  {
    var end := Exec(cfg, Init(), acts);
    assert Reachable(cfg, end);
    if Undisturbed(acts) {
      KeepsServing(cfg, acts);
    }
    if GraceTimeout !in acts {
      GracePeriodSpares(cfg, acts);
    }
    if end.loop.Returned? {
      ServeReturnsClean(cfg, end);
    }
    if NeverLimits(cfg) {
      NoneLimited(cfg, end);
    }
  }
}
