/** The push-channel owner in the front end's provider: open/close/error
    handlers, the reconnect timer with exponential backoff, and teardown on
    unmount (frontend/src/context/digitizer-context.tsx). Timers and sockets
    are abstract: the environment delivers their events one at a time.
    Messages go through the corrected handler `LiveState.OnMessage`, which
    drops a malformed frame, rather than `LiveState.OnMessageAsWritten`,
    whose updater can throw outside the handler's `catch`. */
module Channel {
  import opened Wrappers
  import opened Json
  import LiveState

  const InitialDelay := 1000
  const MaxDelay := 30000

  /** Life cycle of the one socket the provider holds. */
  datatype Socket = Connecting | Open | Closed

  /** The provider's refs: whether it is mounted, the backoff delay, the
      pending reconnect timer (armed with the wait it was scheduled for),
      the current socket, and how many sockets it has created. */
  datatype Conn = Conn(mounted: bool, delay: int, timer: Option<int>, socket: Socket, sockets: nat)

  /** The provider: its connection refs and the live snapshot it exposes. */
  datatype Provider = Provider(conn: Conn, live: LiveState.State)

  /** What the environment can deliver to the provider. */
  datatype Event =
    | SocketOpened
    | SocketClosed
    | SocketErrored
    | TimerFired
    | Message(parsed: Option<JsValue>)
    | Teardown

  /** Right after mounting: the effect has called `connect()` once. */
  const Mounted := Provider(Conn(true, InitialDelay, None, Connecting, 1), LiveState.Initial)

  /** The delay is within the backoff bounds, and a torn-down provider holds no timer. */
  predicate Valid(p: Provider) {
    && InitialDelay <= p.conn.delay <= MaxDelay
    && (!p.conn.mounted ==> p.conn.timer.None?)
  }

  /** `onclose`: mark disconnected and, while mounted, schedule a reconnect
      after the current delay. A socket closes at most once. */
  function OnClose(p: Provider): Provider {
    if p.conn.socket.Closed? then p
    else
      var live := p.live.(connected := false);
      var timer := if p.conn.mounted then Some(p.conn.delay) else p.conn.timer;
      Provider(p.conn.(socket := Closed, timer := timer), live)
  }

  /** One event handled by the provider. */
  function Step(p: Provider, e: Event): (r: Provider)
    ensures Valid(p) ==> Valid(r)
    ensures e.SocketOpened? && p.conn.socket.Connecting? ==> r.conn.delay == InitialDelay && r.live.connected
    ensures e.SocketClosed? && !p.conn.socket.Closed? ==> !r.live.connected
    ensures e.SocketClosed? && !p.conn.socket.Closed? && p.conn.mounted ==> r.conn.timer == Some(p.conn.delay)
    ensures e.SocketErrored? ==> r == OnClose(p)
    ensures e.TimerFired? && p.conn.timer.Some? ==>
      r.conn.delay == Min(2 * p.conn.delay, MaxDelay) && r.conn.sockets == p.conn.sockets + 1
    ensures Valid(p) && !p.conn.mounted ==> r.conn.sockets == p.conn.sockets
    ensures e.Teardown? ==> !r.conn.mounted && r.conn.timer.None?
    ensures e.Message? ==> r.conn == p.conn && r.live.connected == p.live.connected
  {
    match e
    case SocketOpened =>
      if p.conn.socket.Connecting? then
        Provider(p.conn.(delay := InitialDelay, socket := Open), p.live.(connected := true))
      else p
    case SocketClosed => OnClose(p)
    case SocketErrored =>
      // `onerror` closes the socket, which runs `onclose`.
      OnClose(p)
    case TimerFired =>
      if p.conn.timer.None? then p
      else
        var delay := Min(2 * p.conn.delay, MaxDelay);
        Provider(p.conn.(delay := delay, timer := None, socket := Connecting, sockets := p.conn.sockets + 1), p.live)
    case Message(parsed) =>
      Provider(p.conn, LiveState.OnMessage(p.live, parsed))
    case Teardown =>
      // The cleanup clears the timer and closes the socket; the close event
      // that follows finds the provider unmounted.
      Provider(p.conn.(mounted := false, timer := None), p.live)
  }

  function Min(a: int, b: int): int {
    if a <= b then a else b
  }

  /** Events handled in order. */
  function Run(p: Provider, events: seq<Event>): Provider
    decreases |events|
  {
    if events == [] then p else Run(Step(p, events[0]), events[1..])
  }

  /** Any sequence of events keeps the provider valid. */
  lemma {:induction false} RunPreservesValid(p: Provider, events: seq<Event>)
    requires Valid(p)
    ensures Valid(Run(p, events))
    decreases |events|
  {
    if events != [] {
      RunPreservesValid(Step(p, events[0]), events[1..]);
    }
  }

  /** Every state the provider reaches from mounting keeps the delay within
      [1000, 30000]. */
  lemma DelayStaysBounded(events: seq<Event>)
    ensures InitialDelay <= Run(Mounted, events).conn.delay <= MaxDelay
  {
    RunPreservesValid(Mounted, events);
  }

  /** After teardown no event sequence creates another socket, and no
      reconnect timer is ever pending. */
  lemma {:induction false} NoReconnectAfterTeardown(p: Provider, events: seq<Event>)
    requires Valid(p) && !p.conn.mounted
    ensures Run(p, events).conn.sockets == p.conn.sockets
    ensures Run(p, events).conn.timer.None?
    decreases |events|
  {
    if events != [] {
      assert Valid(Step(p, events[0]));
      NoReconnectAfterTeardown(Step(p, events[0]), events[1..]);
    }
  }

  function Pow2(k: nat): nat {
    if k == 0 then 1 else 2 * Pow2(k - 1)
  }

  /** The wait before the (k+1)-th reconnect after a reset:
      1000, 2000, 4000, 8000, 16000, 30000, 30000, ... */
  function BackoffWait(k: nat): int {
    Min(InitialDelay * Pow2(k), MaxDelay)
  }

  /** `k` failed attempts in a row: each socket closes and the timer fires. */
  function Failures(k: nat): seq<Event> {
    if k == 0 then [] else Failures(k - 1) + [SocketClosed, TimerFired]
  }

  /** From a freshly opened connection that then drops `k` times in a row,
      the delay in force is `BackoffWait(k)`, so the next close arms the
      timer with that wait. */
  lemma {:induction false} BackoffSequence(p: Provider, k: nat)
    requires p.conn.mounted && p.conn.socket.Open? && p.conn.delay == InitialDelay && p.conn.timer.None?
    ensures Run(p, Failures(k)).conn.delay == BackoffWait(k)
    ensures Run(p, Failures(k)).conn.mounted
    ensures k > 0 ==> Run(p, Failures(k)).conn.socket.Connecting?
    ensures Run(p, Failures(k)).conn.timer.None?
  {
    if k > 0 {
      BackoffSequence(p, k - 1);
      var q := Run(p, Failures(k - 1));
      RunAppend(p, Failures(k - 1), [SocketClosed, TimerFired]);
      var q1 := Step(q, SocketClosed);
      assert q1.conn.timer == Some(q.conn.delay);
      var q2 := Step(q1, TimerFired);
      assert Run(q, [SocketClosed, TimerFired]) == q2 by {
        assert [SocketClosed, TimerFired][1..] == [TimerFired];
      }
      assert q2.conn.delay == Min(2 * BackoffWait(k - 1), MaxDelay);
    }
  }

  lemma {:induction false} RunAppend(p: Provider, xs: seq<Event>, ys: seq<Event>)
    ensures Run(p, xs + ys) == Run(Run(p, xs), ys)
    decreases |xs|
  {
    if xs == [] {
      assert xs + ys == ys;
    } else {
      assert (xs + ys)[0] == xs[0];
      assert (xs + ys)[1..] == xs[1..] + ys;
      RunAppend(Step(p, xs[0]), xs[1..], ys);
    }
  }

  /** A successful open resets the backoff whatever the delay had grown to. */
  lemma OpenResetsBackoff(p: Provider)
    requires Valid(p) && p.conn.socket.Connecting?
    ensures Step(p, SocketOpened).conn.delay == InitialDelay
    ensures Step(p, SocketOpened).live.connected
  {
  }
}
