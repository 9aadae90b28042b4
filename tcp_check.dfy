/**
 * The reachability probe of one address (`NetworkMonitor.checkTCP` and
 * `checkIP`). The socket itself is foreign I/O; what is modelled is the
 * guard that lets the first completion signal settle the promise and
 * destroy the socket, and ignores every later one.
 */
module TcpCheck {
  import opened Wrappers

  /** The ways a connection attempt can complete. */
  datatype Signal =
    | Connected     // the socket's 'connect' event
    | Errored       // the socket's 'error' event
    | TimedOut      // the socket's 'timeout' event (500 ms of inactivity)
    | ConnectThrew  // `socket.connect(80, ip)` threw synchronously

  /** The value `cleanup` is called with for a signal: only a connection counts as reachable. */
  function SignalResult(s: Signal): bool {
    s.Connected?
  }

  /** What the promise settles to after the signals `signals`: the first one decides; none leaves it pending. */
  function Settled(signals: seq<Signal>): Option<bool> {
    if |signals| == 0 then None else Some(SignalResult(signals[0]))
  }

  /** The state `checkTCP` keeps for one attempt: the `resolved` flag, the promise and the socket. */
  class Attempt {
    var resolved: bool
    /** What `resolve` was called with, if it was. */
    var outcome: Option<bool>
    /** How many times `socket.destroy()` ran. */
    var destroyCount: nat

    ghost predicate Valid()
      reads this
    {
      resolved == outcome.Some? && destroyCount == (if resolved then 1 else 0)
    }

    constructor ()
      ensures Valid() && !resolved
    {
      resolved := false;
      outcome := None;
      destroyCount := 0;
    }

    /** `cleanup(result)`: only the first call resolves and destroys the socket. */
    method Cleanup(result: bool)
      requires Valid()
      modifies this
      ensures Valid() && resolved
      ensures old(resolved) ==> outcome == old(outcome) && destroyCount == old(destroyCount)
      ensures !old(resolved) ==> outcome == Some(result) && destroyCount == old(destroyCount) + 1
    {
      if !resolved {
        resolved := true;
        destroyCount := destroyCount + 1;
        outcome := Some(result);
      }
    }

    method OnConnect()
      requires Valid()
      modifies this
      ensures Valid() && resolved
      ensures outcome == if old(resolved) then old(outcome) else Some(true)
      ensures destroyCount == 1
    {
      Cleanup(true);
    }

    method OnError()
      requires Valid()
      modifies this
      ensures Valid() && resolved
      ensures outcome == if old(resolved) then old(outcome) else Some(false)
      ensures destroyCount == 1
    {
      Cleanup(false);
    }

    method OnTimeout()
      requires Valid()
      modifies this
      ensures Valid() && resolved
      ensures outcome == if old(resolved) then old(outcome) else Some(false)
      ensures destroyCount == 1
    {
      Cleanup(false);
    }

    /** The `catch` around `socket.connect`. */
    method OnConnectThrew()
      requires Valid()
      modifies this
      ensures Valid() && resolved
      ensures outcome == if old(resolved) then old(outcome) else Some(false)
      ensures destroyCount == 1
    {
      Cleanup(false);
    }

    /** Dispatch one signal to its handler. */
    method Deliver(s: Signal)
      requires Valid()
      modifies this
      ensures Valid() && resolved
      ensures outcome == if old(resolved) then old(outcome) else Some(SignalResult(s))
      ensures destroyCount == 1
    {
      match s
      case Connected => OnConnect();
      case Errored => OnError();
      case TimedOut => OnTimeout();
      case ConnectThrew => OnConnectThrew();
    }
  }

  /**
   * `checkTCP(ip)` given the signals the socket delivers, in order: the
   * promise settles to the first signal's verdict, and the socket is
   * destroyed exactly once if any signal arrived.
   */
  method CheckTcp(signals: seq<Signal>) returns (outcome: Option<bool>, destroys: nat)
    ensures outcome == Settled(signals)
    ensures outcome == Some(true) <==> |signals| > 0 && signals[0] == Connected
    ensures destroys == if |signals| == 0 then 0 else 1
  {
    var attempt := new Attempt();
    var i := 0;
    while i < |signals|
      invariant 0 <= i <= |signals|
      invariant attempt.Valid()
      invariant attempt.resolved == (i > 0)
      invariant i > 0 ==> attempt.outcome == Some(SignalResult(signals[0]))
    {
      attempt.Deliver(signals[i]);
      i := i + 1;
    }
    outcome, destroys := attempt.outcome, attempt.destroyCount;
  }

  /** What `checkTCP` did for one address: its promise was rejected, or the socket delivered these signals. */
  datatype TcpRun = Rejected | Delivered(signals: seq<Signal>)

  /** `checkIP(ip)`: a rejection becomes `false`; otherwise the result of `checkTCP`. */
  method CheckIp(run: TcpRun) returns (reachable: Option<bool>)
    ensures run.Rejected? ==> reachable == Some(false)
    ensures run.Delivered? ==> reachable == Settled(run.signals)
    ensures reachable == Some(true) ==> run.Delivered? && run.signals[0] == Connected
  {
    match run {
      case Rejected =>
        reachable := Some(false);
      case Delivered(signals) =>
        var destroys;
        reachable, destroys := CheckTcp(signals);
    }
  }
}
