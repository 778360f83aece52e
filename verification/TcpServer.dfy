/** The fields of Server that its mutex and wait group protect, and the methods that update them.
    Each method is one critical section, so its effect is a function on a snapshot of the fields;
    TcpLifecycle interleaves exactly these functions. */
module TcpServer {

  type Conn = nat

  datatype Shared = Shared(active: set<Conn>, rejected: nat, shuttingDown: bool, wg: int)

  datatype TrackResult = Tracked | LimitReached | ShuttingDown

  function TrackShared(maxActive: int, sh: Shared, c: Conn): (Shared, TrackResult) {
    if sh.shuttingDown then (sh, ShuttingDown)
    else if maxActive > 0 && |sh.active| >= maxActive then
      (sh.(rejected := sh.rejected + 1), LimitReached)
    else (sh.(active := sh.active + {c}, wg := sh.wg + 1), Tracked)
  }

  // untrackConn is two steps: the delete happens under the lock, the wait group's Done after it.
  function DeleteShared(sh: Shared, c: Conn): Shared {
    sh.(active := sh.active - {c})
  }

  function DoneShared(sh: Shared): Shared {
    sh.(wg := sh.wg - 1)
  }

  function BeginShutdownShared(sh: Shared): Shared {
    sh.(shuttingDown := true)
  }

  /** The connections of the network that have been closed; closing twice is harmless. */
  class Network {
    var closed: set<Conn>

    constructor ()
      ensures closed == {}
    {
      closed := {};
    }

    method Close(c: Conn)
      modifies this
      ensures closed == old(closed) + {c}
    {
      closed := closed + {c};
    }
  }

  class Server {
    const maxActiveConns: int
    var activeConns: set<Conn>
    var rejectedConns: nat
    var shuttingDown: bool
    var wg: int

    constructor (maxActiveConns: int)
      ensures this.maxActiveConns == maxActiveConns && View() == Shared({}, 0, false, 0)
    {
      this.maxActiveConns := maxActiveConns;
      activeConns := {};
      rejectedConns := 0;
      shuttingDown := false;
      wg := 0;
    }

    function View(): Shared
      reads this
    {
      Shared(activeConns, rejectedConns, shuttingDown, wg)
    }

    method TrackConn(c: Conn) returns (r: TrackResult)
      modifies this
      ensures (View(), r) == TrackShared(maxActiveConns, old(View()), c)
    {
      if shuttingDown {
        return ShuttingDown;
      }
      if maxActiveConns > 0 && |activeConns| >= maxActiveConns {
        rejectedConns := rejectedConns + 1;
        return LimitReached;
      }
      wg := wg + 1;
      activeConns := activeConns + {c};
      return Tracked;
    }

    /** The part of untrackConn under the lock. */
    method DeleteConn(c: Conn)
      modifies this
      ensures View() == DeleteShared(old(View()), c)
    {
      activeConns := activeConns - {c};
    }

    /** The wait group's Done, after the lock is released. */
    method Done()
      modifies this
      ensures View() == DoneShared(old(View()))
    {
      wg := wg - 1;
    }

    method BeginShutdown()
      modifies this
      ensures View() == BeginShutdownShared(old(View()))
    {
      shuttingDown := true;
    }

    /** The part of closeActiveConns under the lock. */
    method Snapshot() returns (conns: set<Conn>)
      modifies this
      ensures View() == BeginShutdownShared(old(View())) && conns == old(activeConns)
    {
      shuttingDown := true;
      conns := activeConns;
    }
  }
}
