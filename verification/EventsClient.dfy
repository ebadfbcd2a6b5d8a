/** The events subscription: one socket at a time, reconnected with a bounded backoff until it is closed. */
module EventsClient {
  /** `Ended` has had its close event; only an open socket gets messages (WHATWG WebSockets Standard). */
  datatype Socket = NoSocket | Connecting | Open | Closing | Ended

  type Handler = nat

  /** A frame that parses, with its contents, or one that does not. */
  datatype Frame = Data(contents: int) | Malformed

  /**
   * The closure variables: the socket made last, whether the variable still points at it, the timer with its delay, the
   * flag, the attempt count and the handlers; and how many credential requests are under way.
   */
  datatype State = State(
    socket: Socket, pointed: bool, timer: bool, delay: nat, closed: bool, attempt: nat, handlers: set<Handler>,
    pending: nat)

  datatype Event =
    | CredentialsResolved
    | ConnectFailed
    | SocketOpened
    | SocketMessage(frame: Frame)
    | PeerCloses
    | SocketError
    | SocketClosed
    | TimerFires
    | Subscribe(handler: Handler)
    | Unsubscribe(handler: Handler)
    | Close

  const DELAYS: seq<nat> := [500, 1000, 2000, 5000, 10000]

  function Backoff(attempt: nat): nat {
    DELAYS[if attempt < |DELAYS| - 1 then attempt else |DELAYS| - 1]
  }

  // ----- the closures -----

  function Shut(socket: Socket): Socket {
    if socket.Connecting? || socket.Open? then Closing else socket
  }

  function ScheduleReconnect(s: State): State {
    if s.closed || s.timer then s else s.(timer := true, delay := Backoff(s.attempt), attempt := s.attempt + 1)
  }

  function Connected(s: State): State {
    var t := s.(pending := if s.pending > 0 then s.pending - 1 else 0);
    if s.closed then t else t.(socket := Connecting, pointed := true)
  }

  function Failed(s: State): State {
    ScheduleReconnect(s.(pending := if s.pending > 0 then s.pending - 1 else 0))
  }

  function Errored(s: State): State {
    if s.pointed then s.(socket := Shut(s.socket)) else s
  }

  function Closed(s: State): State {
    s.(closed := true, handlers := {}, timer := false,
       socket := if s.pointed then Shut(s.socket) else s.socket, pointed := false)
  }

  predicate Enabled(s: State, e: Event) {
    match e
    case CredentialsResolved => s.pending > 0
    case ConnectFailed => s.pending > 0
    case SocketOpened => s.socket.Connecting?
    case SocketMessage(_) => s.socket.Open?
    case PeerCloses => s.socket.Open?
    case SocketError => s.socket.Connecting? || s.socket.Open? || s.socket.Closing?
    case SocketClosed => s.socket.Connecting? || s.socket.Open? || s.socket.Closing?
    case TimerFires => s.timer
    case _ => true
  }

  function Step(s: State, e: Event): State {
    match e
    case CredentialsResolved => Connected(s)
    case ConnectFailed => Failed(s)
    case SocketOpened => s.(socket := Open, attempt := 0)
    case SocketMessage(_) => s
    case PeerCloses => s.(socket := Closing)
    case SocketError => Errored(s)
    case SocketClosed => ScheduleReconnect(s.(socket := Ended, pointed := false))
    case TimerFires => s.(timer := false, pending := s.pending + 1)
    case Subscribe(h) => s.(handlers := s.handlers + {h})
    case Unsubscribe(h) => s.(handlers := s.handlers - {h})
    case Close => Closed(s)
  }

  /** The handlers that get a frame in an event. */
  function Receivers(s: State, e: Event): set<Handler> {
    if e.SocketMessage? && e.frame.Data? then s.handlers else {}
  }

  const AT_START := State(NoSocket, false, false, 0, false, 0, {}, 1)

  class Subscription {
    var socket: Socket
    var pointed: bool
    var timer: bool
    var delay: nat
    var closed: bool
    var attempt: nat
    var handlers: set<Handler>
    var pending: nat

    ghost function Now(): State
      reads this
    {
      State(socket, pointed, timer, delay, closed, attempt, handlers, pending)
    }

    constructor ()
      ensures Now() == AT_START
    {
      socket, pointed, timer, delay, closed, attempt, handlers, pending := NoSocket, false, false, 0, false, 0, {}, 1;
    }

    method Reconnect()
      modifies this
      ensures Now() == ScheduleReconnect(old(Now()))
    {
      if closed || timer {
        return;
      }
      delay := Backoff(attempt);
      attempt := attempt + 1;
      timer := true;
    }

    method OnCredentials()
      requires Enabled(Now(), CredentialsResolved)
      modifies this
      ensures Now() == Connected(old(Now()))
    {
      pending := pending - 1;
      if closed {
        return;
      }
      socket, pointed := Connecting, true;
    }

    method OnConnectFailed()
      requires Enabled(Now(), ConnectFailed)
      modifies this
      ensures Now() == Failed(old(Now()))
    {
      pending := pending - 1;
      Reconnect();
    }

    method OnOpen()
      requires Enabled(Now(), SocketOpened)
      modifies this
      ensures Now() == Step(old(Now()), SocketOpened)
    {
      socket := Open;
      attempt := 0;
    }

    method OnError()
      requires Enabled(Now(), SocketError)
      modifies this
      ensures Now() == Errored(old(Now()))
    {
      if pointed {
        socket := Shut(socket);
      }
    }

    method OnClose()
      requires Enabled(Now(), SocketClosed)
      modifies this
      ensures Now() == Step(old(Now()), SocketClosed)
    {
      socket, pointed := Ended, false;
      Reconnect();
    }

    method OnTimer()
      requires Enabled(Now(), TimerFires)
      modifies this
      ensures Now() == Step(old(Now()), TimerFires)
    {
      timer := false;
      pending := pending + 1;
    }

    method CloseAll()
      modifies this
      ensures Now() == Closed(old(Now()))
    {
      closed := true;
      handlers := {};
      timer := false;
      if pointed {
        socket := Shut(socket);
      }
      pointed := false;
    }
  }

  // ----- runs -----

  function After(events: seq<Event>): State {
    if events == [] then AT_START else Step(After(events[..|events| - 1]), events[|events| - 1])
  }

  predicate Possible(events: seq<Event>) {
    events != [] ==> Possible(events[..|events| - 1]) && Enabled(After(events[..|events| - 1]), events[|events| - 1])
  }

  predicate Live(socket: Socket) {
    !socket.NoSocket? && !socket.Ended?
  }

  /** How many ways there are by which the next connection can come about or the present one is up. */
  function Ways(s: State): nat {
    s.pending + (if Live(s.socket) then 1 else 0) + if s.timer then 1 else 0
  }

  predicate Right(s: State) {
    && (!s.closed ==> Ways(s) == 1 && (Live(s.socket) <==> s.pointed))
    && (s.closed ==> !s.timer && !s.pointed && !s.socket.Connecting? && !s.socket.Open?)
  }

  lemma StepKeepsRight(s: State, e: Event)
    requires Right(s) && Enabled(s, e)
    ensures Right(Step(s, e))
  {
  }

  /**
   * Until it is closed the subscription always has exactly one of: a connection being made, a socket, a reconnect
   * timer. Once closed it has no timer and no socket that is connecting or open.
   */
  lemma {:induction false} ExactlyOneWay(events: seq<Event>)
    requires Possible(events)
    ensures var s := After(events);
            && Right(s)
            && (!s.closed ==> s.pending + (if Live(s.socket) then 1 else 0) + (if s.timer then 1 else 0) == 1)
            && (s.closed ==> !s.timer && !s.socket.Connecting? && !s.socket.Open?)
  {
    if events != [] {
      ExactlyOneWay(events[..|events| - 1]);
      StepKeepsRight(After(events[..|events| - 1]), events[|events| - 1]);
    }
  }

  /**
   * After a close nothing is ever created again: no socket, no timer, no request for credentials; and no frame is
   * handed on.
   */
  lemma {:induction false} ClosedForGood(events: seq<Event>, e: Event)
    requires Possible(events + [e]) && After(events).closed
    ensures var s, t := After(events), After(events + [e]);
            && t.closed && !t.timer && t.pending <= s.pending
            && (t.socket == s.socket || t.socket == Ended)
            && Receivers(s, e) == {}
  {
    assert (events + [e])[..|events|] == events;
    ExactlyOneWay(events);
  }

  // ----- the backoff -----

  /** Failed attempts and lost sockets since a socket last opened. */
  function FailuresSinceOpen(events: seq<Event>): nat {
    if events == [] then 0
    else
      var before, e := FailuresSinceOpen(events[..|events| - 1]), events[|events| - 1];
      if e.SocketOpened? then 0
      else if (e.ConnectFailed? || e.SocketClosed?) && !After(events[..|events| - 1]).closed then before + 1
      else before
  }

  lemma {:induction false} AttemptCountsFailures(events: seq<Event>)
    requires Possible(events)
    ensures After(events).attempt == FailuresSinceOpen(events)
  {
    if events != [] {
      AttemptCountsFailures(events[..|events| - 1]);
      ExactlyOneWay(events[..|events| - 1]);
    }
  }

  /**
   * The wait before each reconnect is set by the failures in a row since a socket last opened: half a second after the
   * first, ten seconds from the fifth on, and never less than before in between.
   */
  lemma {:induction false} BackoffGrows(events: seq<Event>, e: Event)
    requires Possible(events + [e]) && (e.ConnectFailed? || e.SocketClosed?) && !After(events).closed
    ensures var n := FailuresSinceOpen(events);
            && After(events + [e]).timer
            && After(events + [e]).delay
               == (match n case 0 => 500 case 1 => 1000 case 2 => 2000 case 3 => 5000 case _ => 10000)
            && After(events + [e]).delay == Backoff(n)
            && 500 <= Backoff(n) <= Backoff(n + 1) <= 10000
            && (n >= 4 ==> Backoff(n) == 10000)
  {
    assert (events + [e])[..|events|] == events;
    AttemptCountsFailures(events);
    ExactlyOneWay(events);
  }

  // ----- the handlers -----

  /** Who is subscribed, told from the events alone. */
  function Subscribed(events: seq<Event>): set<Handler> {
    if events == [] then {}
    else
      var before := Subscribed(events[..|events| - 1]);
      match events[|events| - 1]
      case Subscribe(h) => before + {h}
      case Unsubscribe(h) => before - {h}
      case Close => {}
      case _ => before
  }

  /** A frame that parses reaches exactly the handlers subscribed then; one that does not parse reaches nobody. */
  lemma {:induction false} FramesReachSubscribers(events: seq<Event>, frame: Frame)
    ensures After(events).handlers == Subscribed(events)
    ensures Receivers(After(events), SocketMessage(frame)) == if frame.Data? then Subscribed(events) else {}
  {
    if events != [] {
      FramesReachSubscribers(events[..|events| - 1], frame);
    }
  }

  /** A socket that fails before the close is shut down, so that its close event brings the next connection. */
  lemma {:induction false} ErrorsShutTheSocket(events: seq<Event>)
    requires Possible(events + [SocketError])
    ensures var s := After(events + [SocketError]); !s.socket.Connecting? && !s.socket.Open?
  {
    assert (events + [SocketError])[..|events|] == events;
    ExactlyOneWay(events);
  }

  // ----- the socket -----

  /** What the last word about the socket was: made, opened, closing or closed; a frame is no such word. */
  function SocketTold(events: seq<Event>): Socket {
    if events == [] then NoSocket
    else
      match events[|events| - 1]
      case CredentialsResolved => Connecting
      case SocketOpened => Open
      case PeerCloses => Closing
      case SocketError => Closing
      case SocketClosed => Ended
      case _ => SocketTold(events[..|events| - 1])
  }

  /**
   * Until the subscription is closed its socket is as its last event says: an open one stays so from frame to frame.
   */
  lemma {:induction false} SocketExactly(events: seq<Event>)
    requires Possible(events) && !After(events).closed
    ensures After(events).socket == SocketTold(events)
  {
    if events != [] {
      SocketExactly(events[..|events| - 1]);
      ExactlyOneWay(events[..|events| - 1]);
    }
  }
}
