/** The streaming chat client: callbacks of credentials, a socket, three timers and a cancel, as one automaton. */
module StreamClient {
  /**
   * The current socket. `Broken` has failed but its close event is still to come; the WHATWG WebSockets Standard lets a
   * message event fire only while a socket is open, an open event only while it connects, and nothing after close.
   */
  datatype Socket = NoSocket | Connecting | Open | Closing | Broken | Closed

  /** `NullJson` is the JSON text null, which parses but has no type to look at. */
  datatype Frame =
    Started | ToolCall | ToolResult | Keepalive | Chunk | Done | ErrorFrame | UnknownType | Malformed | NullJson

  datatype Call = OnStarted | OnToolCall | OnChunk | OnDone | OnError

  /** Which of the three timers are armed. */
  datatype Timers = Timers(opening: bool, firstFrame: bool, idle: bool)

  const NONE := Timers(false, false, false)

  /** The promise the client was started with. */
  datatype Promise = Pending | Resolved | Rejected

  /** The closure variables, whether credentials are awaited, and the promise. */
  datatype Control = Control(
    ws: Socket, cancelled: bool, completed: bool, started: bool, retried: bool, errorSent: bool,
    timers: Timers, awaiting: bool, promise: Promise)

  /** What has happened so far: handler calls, messages sent and credential fetches. */
  datatype History = History(calls: seq<Call>, sent: nat, fetches: nat)

  datatype Event =
    | CredentialsResolved
    | CredentialsRejected
    | SocketOpened
    | SocketMessage(frame: Frame)
    | PeerCloses
    | SocketError
    | SocketClosed(code: nat)
    | OpenTimeout
    | FirstFrameTimeout
    | IdleTimeout
    | Cancel

  /** Abnormal closure, section 7.4.1 of RFC 6455, and the bridge's own code in the private range of section 7.4.2. */
  const ABNORMAL := 1006
  const UNAUTHORISED := 4001

  // ----- the closures: what each does to the variables, and the handler calls it makes -----

  datatype Turn = Turn(now: Control, calls: seq<Call>)

  function Shut(ws: Socket): Socket {
    if ws.Connecting? || ws.Open? then Closing else ws
  }

  predicate Settled(s: Control) {
    s.cancelled || s.completed || s.errorSent
  }

  function Fail(s: Control): Turn {
    if Settled(s) then Turn(s, []) else Turn(s.(errorSent := true, timers := NONE, ws := Shut(s.ws)), [OnError])
  }

  function Connected(s: Control): Turn {
    Turn(if s.cancelled then s.(awaiting := false)
         else s.(awaiting := false, ws := Connecting, started := false, completed := false, errorSent := false,
                 promise := Resolved, timers := s.timers.(opening := true)), [])
  }

  function Refused(s: Control): Turn {
    if s.promise.Resolved? then Fail(s.(awaiting := false)) else Turn(s.(awaiting := false, promise := Rejected), [])
  }

  function Opened(s: Control): Turn {
    Turn(if s.cancelled then s.(ws := Open) else s.(ws := Open, timers := Timers(false, true, s.timers.idle)), [])
  }

  function Heard(s: Control): Control {
    s.(timers := Timers(s.timers.opening, false, true))
  }

  function Received(s: Control, frame: Frame): Turn {
    if s.cancelled || s.completed then Turn(s, [])
    else
      match frame
      case Started => Turn(Heard(s).(started := true), [OnStarted])
      case ToolCall => Turn(Heard(s), [OnToolCall])
      case Chunk => Turn(Heard(s), [OnChunk])
      case Done => Turn(s.(completed := true, timers := NONE, ws := Shut(s.ws)), [OnDone])
      case ErrorFrame => Fail(Heard(s))
      case UnknownType => Fail(Heard(s))
      case Malformed => Fail(Heard(s))
      case _ => Turn(Heard(s), [])
  }

  function Errored(s: Control): Turn {
    var t := s.(ws := Broken);
    if s.cancelled || s.completed || (!s.started && !s.retried) then Turn(t, []) else Fail(t)
  }

  predicate Authish(code: nat) {
    code == UNAUTHORISED || code == ABNORMAL
  }

  /** Does a close make the client fetch new credentials and connect again? */
  predicate Retries(s: Control, code: nat) {
    !Settled(s) && !s.started && Authish(code) && !s.retried
  }

  function SawClose(s: Control, code: nat): Turn {
    if Retries(s, code) then Turn(s.(ws := Closed, retried := true, timers := NONE, awaiting := true), [])
    else Fail(s.(ws := Closed))
  }

  function Cancelled(s: Control): Turn {
    Turn(s.(cancelled := true, timers := NONE, ws := Shut(s.ws)), [])
  }

  // ----- events -----

  /** Can this event happen now? A timer that fires is no longer armed. */
  predicate Enabled(s: Control, e: Event) {
    match e
    case CredentialsResolved => s.awaiting
    case CredentialsRejected => s.awaiting
    case SocketOpened => s.ws.Connecting?
    case SocketMessage(_) => s.ws.Open?
    case PeerCloses => s.ws.Open?
    case SocketError => s.ws.Connecting? || s.ws.Open? || s.ws.Closing?
    case SocketClosed(_) => s.ws.Connecting? || s.ws.Open? || s.ws.Closing? || s.ws.Broken?
    case OpenTimeout => s.timers.opening
    case FirstFrameTimeout => s.timers.firstFrame
    case IdleTimeout => s.timers.idle
    case Cancel => s.promise.Resolved?
  }

  function Step(s: Control, e: Event): Turn {
    match e
    case CredentialsResolved => Connected(s)
    case CredentialsRejected => Refused(s)
    case SocketOpened => Opened(s)
    case SocketMessage(frame) => Received(s, frame)
    case PeerCloses => Turn(s.(ws := Closing), [])
    case SocketError => Errored(s)
    case SocketClosed(code) => SawClose(s, code)
    case OpenTimeout => Fail(s.(timers := s.timers.(opening := false)))
    case FirstFrameTimeout => Fail(s.(timers := s.timers.(firstFrame := false)))
    case IdleTimeout => Fail(s.(timers := s.timers.(idle := false)))
    case Cancel => Cancelled(s)
  }

  predicate Sends(s: Control, e: Event) {
    e.SocketOpened? && !s.cancelled
  }

  predicate Fetches(s: Control, e: Event) {
    e.SocketClosed? && Retries(s, e.code)
  }

  const AT_START := Control(NoSocket, false, false, false, false, false, NONE, true, Pending)

  // ----- the client -----

  class Client {
    var ws: Socket
    var cancelled: bool
    var completed: bool
    var started: bool
    var retriedCredentials: bool
    var errorSent: bool
    var timers: Timers
    var awaiting: bool
    var promise: Promise
    ghost var past: History

    ghost function Now(): Control
      reads this
    {
      Control(ws, cancelled, completed, started, retriedCredentials, errorSent, timers, awaiting, promise)
    }

    constructor ()
      ensures Now() == AT_START && past == History([], 0, 1)
    {
      ws := NoSocket;
      cancelled, completed, started, retriedCredentials, errorSent := false, false, false, false, false;
      timers, awaiting, promise := NONE, true, Pending;
      past := History([], 0, 1);
    }

    method FailWith()
      modifies this
      ensures Now() == Fail(old(Now())).now
      ensures past == old(past).(calls := old(past).calls + Fail(old(Now())).calls)
    {
      if cancelled || completed || errorSent {
        return;
      }
      errorSent := true;
      timers := NONE;
      past := past.(calls := past.calls + [OnError]);
      ws := Shut(ws);
    }

    method OnCredentials()
      requires Enabled(Now(), CredentialsResolved)
      modifies this
      ensures Now() == Connected(old(Now())).now && past == old(past)
    {
      awaiting := false;
      if cancelled {
        return;
      }
      ws, started, completed, errorSent := Connecting, false, false, false;
      timers := timers.(opening := true);
      promise := Resolved;
    }

    method OnNoCredentials()
      requires Enabled(Now(), CredentialsRejected)
      modifies this
      ensures Now() == Refused(old(Now())).now
      ensures past == old(past).(calls := old(past).calls + Refused(old(Now())).calls)
    {
      awaiting := false;
      if promise.Resolved? {
        FailWith();
      } else {
        promise := Rejected;
      }
    }

    method OnOpen()
      requires Enabled(Now(), SocketOpened)
      modifies this
      ensures Now() == Opened(old(Now())).now
      ensures past == old(past).(sent := old(past).sent + if old(cancelled) then 0 else 1)
    {
      ws := Open;
      if cancelled {
        return;
      }
      timers := timers.(opening := false);
      timers := timers.(firstFrame := true);
      past := past.(sent := past.sent + 1);
    }

    method OnMessage(frame: Frame)
      requires Enabled(Now(), SocketMessage(frame))
      modifies this
      ensures Now() == Received(old(Now()), frame).now
      ensures past == old(past).(calls := old(past).calls + Received(old(Now()), frame).calls)
    {
      if cancelled || completed {
        return;
      }
      timers := timers.(firstFrame := false);
      timers := timers.(idle := true);
      match frame {
        case Malformed => FailWith();
        case NullJson =>
        case Started =>
          started := true;
          past := past.(calls := past.calls + [OnStarted]);
        case ToolCall => past := past.(calls := past.calls + [OnToolCall]);
        case ToolResult =>
        case Keepalive =>
        case Chunk => past := past.(calls := past.calls + [OnChunk]);
        case Done =>
          completed := true;
          timers := NONE;
          past := past.(calls := past.calls + [OnDone]);
          ws := Shut(ws);
        case ErrorFrame => FailWith();
        case UnknownType => FailWith();
      }
    }

    method OnSocketError()
      requires Enabled(Now(), SocketError)
      modifies this
      ensures Now() == Errored(old(Now())).now
      ensures past == old(past).(calls := old(past).calls + Errored(old(Now())).calls)
    {
      ws := Broken;
      if cancelled || completed {
        return;
      }
      if !started && !retriedCredentials {
        return;
      }
      FailWith();
    }

    method OnClose(code: nat)
      requires Enabled(Now(), SocketClosed(code))
      modifies this
      ensures Now() == SawClose(old(Now()), code).now
      ensures past == old(past).(calls := old(past).calls + SawClose(old(Now()), code).calls,
                                 fetches := old(past).fetches + if Retries(old(Now()), code) then 1 else 0)
    {
      ws := Closed;
      if cancelled || completed || errorSent {
        return;
      }
      var authishClose := code == UNAUTHORISED || code == ABNORMAL;
      if !started && authishClose && !retriedCredentials {
        retriedCredentials := true;
        timers := NONE;
        awaiting := true;
        past := past.(fetches := past.fetches + 1);
        return;
      }
      FailWith();
    }

    /** A timer fires and runs its closure. */
    method OnTimeout(e: Event)
      requires (e.OpenTimeout? || e.FirstFrameTimeout? || e.IdleTimeout?) && Enabled(Now(), e)
      modifies this
      ensures Now() == Step(old(Now()), e).now
      ensures past == old(past).(calls := old(past).calls + Step(old(Now()), e).calls)
    {
      timers := match e
        case OpenTimeout => timers.(opening := false)
        case FirstFrameTimeout => timers.(firstFrame := false)
        case _ => timers.(idle := false);
      FailWith();
    }

    method CancelStream()
      requires Enabled(Now(), Cancel)
      modifies this
      ensures Now() == Cancelled(old(Now())).now && past == old(past)
    {
      cancelled := true;
      timers := NONE;
      ws := Shut(ws);
    }
  }

  // ----- runs -----

  datatype Run = Run(now: Control, past: History)

  function Continued(r: Run, e: Event): Run {
    var turn := Step(r.now, e);
    Run(turn.now, History(r.past.calls + turn.calls, r.past.sent + (if Sends(r.now, e) then 1 else 0),
                          r.past.fetches + if Fetches(r.now, e) then 1 else 0))
  }

  function After(events: seq<Event>): Run {
    if events == [] then Run(AT_START, History([], 0, 1))
    else Continued(After(events[..|events| - 1]), events[|events| - 1])
  }

  /** A run in which every event can happen where it happens. */
  predicate Possible(events: seq<Event>) {
    events != [] ==>
      Possible(events[..|events| - 1]) && Enabled(After(events[..|events| - 1]).now, events[|events| - 1])
  }

  // ----- what the client waits for -----

  predicate Ended(s: Control) {
    Settled(s) || s.promise.Rejected?
  }

  predicate LiveSocket(ws: Socket) {
    ws.Connecting? || ws.Open?
  }

  const OPENING := Timers(true, false, false)
  const FIRST_FRAME := Timers(false, true, false)
  const IDLING := Timers(false, false, true)

  predicate OneArmed(t: Timers) {
    t == OPENING || t == FIRST_FRAME || t == IDLING
  }

  /**
   * A stream that goes on waits for credentials with no timer, or has a socket and exactly one timer, the right one.
   */
  predicate GoesOn(s: Control) {
    match s.ws
    case NoSocket => s.awaiting && s.timers == NONE
    case Closed => s.awaiting && s.timers == NONE
    case Connecting => !s.awaiting && s.timers == OPENING
    case Open => !s.awaiting && (s.timers == FIRST_FRAME || s.timers == IDLING)
    case _ => !s.awaiting && OneArmed(s.timers)
  }

  predicate WaitsRight(s: Control) {
    && (if Ended(s) then s.timers == NONE && !LiveSocket(s.ws) else GoesOn(s))
    && (s.awaiting ==> !s.errorSent && !s.completed && !s.promise.Rejected?)
    && !(s.errorSent && s.completed)
    && (s.promise.Resolved? <==> !s.ws.NoSocket?)
    && (s.ws.NoSocket? ==> !Settled(s) && !s.started && !s.retried)
    && (s.awaiting && !s.ws.NoSocket? ==> s.retried)
  }

  lemma FrameWaits(s: Control, frame: Frame)
    requires WaitsRight(s) && s.ws.Open?
    ensures WaitsRight(Received(s, frame).now)
  {
  }

  lemma SocketWaits(s: Control, e: Event)
    requires WaitsRight(s) && Enabled(s, e)
    requires e.PeerCloses? || e.SocketError? || e.SocketClosed? || e.SocketOpened?
    ensures WaitsRight(Step(s, e).now)
  {
  }

  lemma StepWaits(s: Control, e: Event)
    requires WaitsRight(s) && Enabled(s, e)
    ensures WaitsRight(Step(s, e).now)
  {
    match e
    case SocketMessage(frame) => FrameWaits(s, frame);
    case PeerCloses => SocketWaits(s, e);
    case SocketError => SocketWaits(s, e);
    case SocketClosed(_) => SocketWaits(s, e);
    case SocketOpened => SocketWaits(s, e);
    case _ =>
  }

  lemma {:induction false} RunWaits(events: seq<Event>)
    requires Possible(events)
    ensures WaitsRight(After(events).now)
  {
    if events != [] {
      RunWaits(events[..|events| - 1]);
      StepWaits(After(events[..|events| - 1]).now, events[|events| - 1]);
    }
  }

  /**
   * In every run: no timer is armed once the stream has ended; until then it waits for credentials or for one armed
   * timer.
   */
  lemma {:induction false} NeverHangsSilently(events: seq<Event>)
    requires Possible(events)
    ensures var s := After(events).now;
            && (Ended(s) ==> s.timers == NONE)
            && (!Ended(s) ==> if s.awaiting then s.timers == NONE else OneArmed(s.timers))
  {
    RunWaits(events);
  }

  /** Whichever timer is armed, its firing ends the stream with a call of the error handler. */
  lemma {:induction false} TimeoutsReport(events: seq<Event>, e: Event)
    requires Possible(events) && (e.OpenTimeout? || e.FirstFrameTimeout? || e.IdleTimeout?)
            && Enabled(After(events).now, e)
    ensures var s := After(events).now;
            !Ended(s) && Step(s, e).calls == [OnError] && Ended(Step(s, e).now) && Step(s, e).now.timers == NONE
  {
    RunWaits(events);
  }

  /** No timer handle is overwritten while its timer is armed: each arming finds the timer disarmed. */
  lemma {:induction false} NoTimerIsLost(events: seq<Event>, e: Event)
    requires Possible(events) && Enabled(After(events).now, e) && !After(events).now.cancelled
    ensures e.CredentialsResolved? ==> After(events).now.timers == NONE
    ensures e.SocketOpened? ==> After(events).now.timers == OPENING
    ensures e.SocketMessage? ==> !After(events).now.timers.opening
  {
    RunWaits(events);
  }

  // ----- how a stream ends -----

  predicate Terminal(c: Call) {
    c == OnDone || c == OnError
  }

  /**
   * Once ended, for whatever reason, a stream stays ended, and no handler is called, nothing sent and nothing fetched.
   */
  lemma EndedStaysQuiet(s: Control, e: Event)
    requires WaitsRight(s) && Enabled(s, e) && Ended(s)
    ensures Ended(Step(s, e).now) && Step(s, e).calls == [] && !Sends(s, e) && !Fetches(s, e)
    ensures Step(s, e).now.completed == s.completed && Step(s, e).now.errorSent == s.errorSent
  {
  }

  lemma {:induction false} QuietAfterTheEnd(events: seq<Event>, more: seq<Event>)
    requires Possible(events + more) && Possible(events) && Ended(After(events).now)
    ensures Ended(After(events + more).now)
    ensures After(events + more).past == After(events).past
  {
    if more == [] {
      assert events + more == events;
    } else {
      var front := events + more[..|more| - 1];
      assert (events + more)[..|events + more| - 1] == front;
      QuietAfterTheEnd(events, more[..|more| - 1]);
      RunWaits(front);
      EndedStaysQuiet(After(front).now, more[|more| - 1]);
    }
  }

  /** A call that reports the end is the one call of its event, and sets the flag that goes with it. */
  lemma StepEnds(s: Control, e: Event)
    requires WaitsRight(s) && Enabled(s, e)
    ensures var t := Step(s, e);
            && |t.calls| <= 1
            && (!s.errorSent && t.now.errorSent <==> t.calls == [OnError])
            && (!s.completed && t.now.completed <==> t.calls == [OnDone])
            && (s.errorSent ==> t.now.errorSent) && (s.completed ==> t.now.completed)
  {
  }

  /** No call reports the end but perhaps the last, which is what the flags say. */
  ghost predicate CallsRight(completed: bool, errorSent: bool, calls: seq<Call>) {
    && (forall k :: 0 <= k < |calls| - 1 ==> !Terminal(calls[k]))
    && (errorSent <==> calls != [] && calls[|calls| - 1] == OnError)
    && (completed <==> calls != [] && calls[|calls| - 1] == OnDone)
  }

  lemma CallsStayRight(completed: bool, errorSent: bool, calls: seq<Call>, completed': bool, errorSent': bool,
                       more: seq<Call>)
    requires CallsRight(completed, errorSent, calls) && |more| <= 1
    requires completed || errorSent ==> more == [] && completed' == completed && errorSent' == errorSent
    requires (!errorSent && errorSent' <==> more == [OnError]) && (!completed && completed' <==> more == [OnDone])
    ensures CallsRight(completed', errorSent', calls + more)
  {
    if more == [] {
      assert calls + more == calls;
    }
  }

  /**
   * On every sequence of events at most one of the done and error handlers is called, at most once, and it is the last
   * call of all: no handler is called after it.
   */
  lemma {:induction false} EndsAtMostOnce(events: seq<Event>)
    requires Possible(events)
    ensures CallsRight(After(events).now.completed, After(events).now.errorSent, After(events).past.calls)
  {
    if events != [] {
      var before, e := After(events[..|events| - 1]), events[|events| - 1];
      EndsAtMostOnce(events[..|events| - 1]);
      RunWaits(events[..|events| - 1]);
      StepEnds(before.now, e);
      if Ended(before.now) {
        EndedStaysQuiet(before.now, e);
      }
      var t := Step(before.now, e);
      CallsStayRight(before.now.completed, before.now.errorSent, before.past.calls, t.now.completed, t.now.errorSent,
                     t.calls);
    }
  }

  /** After a cancel no handler is called at all. */
  lemma {:induction false} QuietAfterCancel(events: seq<Event>, more: seq<Event>)
    requires Possible(events + [Cancel] + more) && Possible(events + [Cancel])
    ensures After(events + [Cancel] + more).past.calls == After(events).past.calls
  {
    assert (events + [Cancel])[..|events|] == events;
    QuietAfterTheEnd(events + [Cancel], more);
  }

  // ----- the retry -----

  /** Credentials are fetched once and once more by the retry; messages go out once per socket that opened. */
  ghost predicate CountsRight(s: Control, h: History) {
    && h.fetches == (if s.retried then 2 else 1)
    && h.sent <= h.fetches
    && (s.awaiting || s.ws.Connecting? ==> h.sent < h.fetches)
    && (!s.retried ==> (s.started <==> OnStarted in h.calls))
  }

  lemma StepStarts(s: Control, e: Event, calls: seq<Call>)
    requires WaitsRight(s) && Enabled(s, e) && !s.retried && (s.started <==> OnStarted in calls)
    ensures var t := Step(s, e); !t.now.retried ==> (t.now.started <==> OnStarted in calls + t.calls)
  {
    StepEnds(s, e);
  }

  lemma StepCounts(s: Control, e: Event)
    requires WaitsRight(s) && Enabled(s, e)
    ensures Fetches(s, e) <==> !s.retried && Step(s, e).now.retried
    ensures s.retried ==> Step(s, e).now.retried
    ensures Sends(s, e) ==> s.ws.Connecting? && !Step(s, e).now.awaiting && !Step(s, e).now.ws.Connecting?
    ensures !Fetches(s, e) && (Step(s, e).now.awaiting || Step(s, e).now.ws.Connecting?) ==>
            s.awaiting || s.ws.Connecting?
  {
  }

  lemma {:induction false} RunCounts(events: seq<Event>)
    requires Possible(events)
    ensures CountsRight(After(events).now, After(events).past)
  {
    if events != [] {
      var front, e := events[..|events| - 1], events[|events| - 1];
      var before := After(front);
      RunCounts(front);
      RunWaits(front);
      StepCounts(before.now, e);
      if !before.now.retried {
        StepStarts(before.now, e, before.past.calls);
      }
    }
  }

  /**
   * The client connects at most twice: a second time only after a close with an authentication code before any started
   * frame was seen, and it sends the user's message at most once per connection - so twice only after such a close.
   */
  lemma {:induction false} OneRetryBeforeStarted(events: seq<Event>, e: Event)
    requires Possible(events + [e])
    ensures var r, after := After(events), After(events + [e]);
            && after.past.fetches <= 2 && after.past.sent <= after.past.fetches
            && (after.past.fetches > r.past.fetches ==>
                  && e.SocketClosed? && (e.code == 4001 || e.code == 1006)
                  && OnStarted !in r.past.calls && r.past.fetches == 1)
  {
    assert (events + [e])[..|events|] == events;
    RunCounts(events);
    RunCounts(events + [e]);
  }

  // ----- when the message goes out twice -----

  /** The message is sent at event k: a socket opens and nothing was cancelled. */
  predicate SendsAt(events: seq<Event>, k: nat) {
    k < |events| && Sends(After(events[..k]).now, events[k])
  }

  /** Event k is the close that makes the client connect again. */
  predicate RetriesAt(events: seq<Event>, k: nat) {
    k < |events| && Fetches(After(events[..k]).now, events[k])
  }

  lemma FrameKeepsCancelled(s: Control, frame: Frame)
    ensures Received(s, frame).now.cancelled == s.cancelled
  {
  }

  lemma StepCancels(s: Control, e: Event)
    ensures Step(s, e).now.cancelled <==> s.cancelled || e.Cancel?
  {
    if e.SocketMessage? {
      FrameKeepsCancelled(s, e.frame);
    }
  }

  lemma {:induction false} CancelledMeans(events: seq<Event>)
    ensures After(events).now.cancelled <==> Cancel in events
  {
    if events != [] {
      var front, e := events[..|events| - 1], events[|events| - 1];
      CancelledMeans(front);
      StepCancels(After(front).now, e);
      assert events == front + [e];
      assert After(events) == Continued(After(front), e);
    }
  }

  lemma {:induction false} PrefixPossible(events: seq<Event>, n: nat)
    requires Possible(events) && n <= |events|
    ensures Possible(events[..n])
    ensures n < |events| ==> Enabled(After(events[..n]).now, events[n])
    decreases |events|
  {
    if n < |events| {
      var front := events[..|events| - 1];
      if n < |front| {
        PrefixPossible(front, n);
      }
      assert front[..n] == events[..n];
    } else {
      assert events[..n] == events;
    }
  }

  lemma {:induction false} SentCounts(events: seq<Event>, n: nat)
    requires n < |events|
    ensures After(events[..n + 1]).past.sent == After(events[..n]).past.sent + if SendsAt(events, n) then 1 else 0
  {
    assert events[..n + 1][..n] == events[..n];
  }

  lemma {:induction false} SentGrows(events: seq<Event>, n: nat, m: nat)
    requires n <= m <= |events|
    ensures After(events[..n]).past.sent <= After(events[..m]).past.sent
    decreases m - n
  {
    if n < m {
      SentCounts(events, n);
      SentGrows(events, n + 1, m);
    }
  }

  lemma {:induction false} SendRaises(events: seq<Event>, n: nat, m: nat)
    requires SendsAt(events, n) && n < m <= |events|
    ensures After(events[..n]).past.sent < After(events[..m]).past.sent
  {
    SentCounts(events, n);
    SentGrows(events, n + 1, m);
  }

  lemma {:induction false} SentAtMostTwice(events: seq<Event>)
    requires Possible(events)
    ensures After(events).past.sent <= 2
  {
    RunCounts(events);
  }

  lemma {:induction false} TwoSendsCount(events: seq<Event>, i: nat, k: nat)
    requires Possible(events) && i < k && SendsAt(events, i) && SendsAt(events, k)
    ensures After(events).past.sent == 2
  {
    SendRaises(events, i, k);
    SendRaises(events, k, |events|);
    assert events[..|events|] == events;
    SentAtMostTwice(events);
  }

  /** Up to here the message went out, and then the first connection was given up for a retry. */
  ghost predicate SentThenRetried(events: seq<Event>, i: nat, j: nat) {
    i < j && SendsAt(events, i) && RetriesAt(events, j) && After(events[..j]).past.sent == 1
  }

  lemma {:induction false} SentSomewhere(events: seq<Event>) returns (i: nat)
    requires After(events).past.sent > 0
    ensures SendsAt(events, i)
  {
    var front := events[..|events| - 1];
    if After(front).past.sent > 0 {
      i := SentSomewhere(front);
      assert front[..i] == events[..i];
    } else {
      i := |events| - 1;
    }
  }

  /** A retrying client that has sent one message and waits for its next connection sent it on the first. */
  lemma {:induction false} WaitingToResend(events: seq<Event>) returns (i: nat, j: nat)
    requires Possible(events) && After(events).past.sent == 1
    requires var s := After(events).now; s.retried && (s.awaiting || s.ws.Connecting?)
    ensures SentThenRetried(events, i, j)
  {
    var front, e := events[..|events| - 1], events[|events| - 1];
    var before := After(front);
    RunWaits(front);
    RunCounts(front);
    StepCounts(before.now, e);
    if Fetches(before.now, e) {
      i := SentSomewhere(front);
      j := |front|;
    } else {
      i, j := WaitingToResend(front);
    }
    assert front[..i] == events[..i] && (j < |front| ==> front[..j] == events[..j]);
  }

  /** The last event brought the second send. */
  lemma {:induction false} LastSends(events: seq<Event>, e: Event)
    requires Possible(events) && Enabled(After(events).now, e)
    requires After(events).past.sent < 2 && After(events + [e]).past.sent == 2
    ensures Sends(After(events).now, e) && After(events).past.sent == 1
    ensures After(events).now.retried && After(events).now.ws.Connecting?
  {
    assert (events + [e])[..|events|] == events;
    RunWaits(events);
    RunCounts(events);
    StepCounts(After(events).now, e);
  }

  lemma {:induction false} SentTwiceMeans(events: seq<Event>) returns (i: nat, j: nat, k: nat)
    requires Possible(events) && After(events).past.sent == 2
    ensures j < k && SentThenRetried(events, i, j) && SendsAt(events, k)
  {
    var front, e := events[..|events| - 1], events[|events| - 1];
    assert events == front + [e];
    SentAtMostTwice(front);
    if After(front).past.sent == 2 {
      i, j, k := SentTwiceMeans(front);
      assert front[..i] == events[..i] && front[..j] == events[..j] && front[..k] == events[..k];
    } else {
      LastSends(front, e);
      i, j := WaitingToResend(front);
      k := |front|;
      assert front[..i] == events[..i] && front[..j] == events[..j];
    }
  }

  /**
   * A socket opened, was closed with an authentication code before any started frame, and another one opened; all
   * before any cancel.
   */
  ghost predicate ResentAt(events: seq<Event>, i: nat, j: nat, k: nat) {
    && i < j < k < |events| && Cancel !in events[..k]
    && events[i].SocketOpened? && events[k].SocketOpened?
    && events[j].SocketClosed? && Authish(events[j].code) && OnStarted !in After(events[..j]).past.calls
  }

  /** The user's message goes out twice exactly in the runs in which that happens. */
  lemma {:induction false} SentTwiceExactly(events: seq<Event>)
    requires Possible(events)
    ensures After(events).past.sent == 2 <==> exists i: nat, j: nat, k: nat :: ResentAt(events, i, j, k)
  {
    if After(events).past.sent == 2 {
      var i, j, k := SentTwiceMeans(events);
      PrefixPossible(events, j);
      RunCounts(events[..j]);
      CancelledMeans(events[..k]);
      assert ResentAt(events, i, j, k);
    }
    if i: nat, j: nat, k: nat :| ResentAt(events, i, j, k) {
      CancelledMeans(events[..k]);
      CancelledMeans(events[..i]);
      assert forall x :: x in events[..i] ==> x in events[..k];
      TwoSendsCount(events, i, k);
    }
  }

  /**
   * The second message is sent exactly when the socket of the retry opens, uncancelled, after the first one carried it
   * too.
   */
  lemma {:induction false} SecondSendExactly(events: seq<Event>, e: Event)
    requires Possible(events + [e])
    ensures var r, after := After(events), After(events + [e]);
            r.past.sent < 2 && after.past.sent == 2
            <==> e.SocketOpened? && !r.now.cancelled && r.now.retried && r.past.sent == 1
  {
    assert (events + [e])[..|events|] == events;
    RunCounts(events);
    RunWaits(events);
  }

  lemma {:induction false} Extended(events: seq<Event>, e: Event, r: Run, next: Run)
    requires Possible(events) && After(events) == r && Enabled(r.now, e) && Continued(r, e) == next
    ensures Possible(events + [e]) && After(events + [e]) == next
  {
    assert (events + [e])[..|events|] == events;
  }

  /** Such a run: opened, closed abnormally before any frame, connected again, opened again. */
  lemma {:induction false} MessageSentTwice()
    ensures var run := [CredentialsResolved, SocketOpened, SocketClosed(ABNORMAL), CredentialsResolved, SocketOpened];
            Possible(run) && After(run).past.sent == 2
  {
    var dialled := Control(Connecting, false, false, false, false, false, OPENING, false, Resolved);
    var connected := Control(Open, false, false, false, false, false, FIRST_FRAME, false, Resolved);
    var retrying := Control(Closed, false, false, false, true, false, NONE, true, Resolved);
    var redialled := Control(Connecting, false, false, false, true, false, OPENING, false, Resolved);
    var reopened := Control(Open, false, false, false, true, false, FIRST_FRAME, false, Resolved);
    var first := [] + [CredentialsResolved];
    var second := first + [SocketOpened];
    var third := second + [SocketClosed(ABNORMAL)];
    var fourth := third + [CredentialsResolved];
    Extended([], CredentialsResolved, Run(AT_START, History([], 0, 1)), Run(dialled, History([], 0, 1)));
    Extended(first, SocketOpened, Run(dialled, History([], 0, 1)), Run(connected, History([], 1, 1)));
    Extended(second, SocketClosed(ABNORMAL), Run(connected, History([], 1, 1)), Run(retrying, History([], 1, 2)));
    Extended(third, CredentialsResolved, Run(retrying, History([], 1, 2)), Run(redialled, History([], 1, 2)));
    Extended(fourth, SocketOpened, Run(redialled, History([], 1, 2)), Run(reopened, History([], 2, 2)));
    assert fourth + [SocketOpened]
      == [CredentialsResolved, SocketOpened, SocketClosed(ABNORMAL), CredentialsResolved, SocketOpened];
  }

  // ----- what is observed, from the events alone -----

  /** The handler a frame calls: a failure is an error frame, an unknown one or one that does not parse. */
  function CallsFor(frame: Frame): seq<Call> {
    match frame
    case Started => [OnStarted]
    case ToolCall => [OnToolCall]
    case Chunk => [OnChunk]
    case Done => [OnDone]
    case ErrorFrame => [OnError]
    case UnknownType => [OnError]
    case Malformed => [OnError]
    case _ => []
  }

  /** The handler calls so far, whether the client has connected again, and how often the message went out. */
  datatype Told = Told(calls: seq<Call>, retried: bool, sent: nat)

  /** Nothing was cancelled, done or failed so far. */
  predicate Running(events: seq<Event>, so: Told) {
    Cancel !in events && OnDone !in so.calls && OnError !in so.calls
  }

  /** A close that makes the client connect again: the first with an authentication code, before any started frame. */
  predicate AsksAgain(so: Told, e: Event) {
    e.SocketClosed? && (e.code == 4001 || e.code == 1006) && OnStarted !in so.calls && !so.retried
  }

  /** What other than a frame ends a running stream with an error. */
  predicate Breaks(so: Told, e: Event) {
    match e
    case OpenTimeout => true
    case FirstFrameTimeout => true
    case IdleTimeout => true
    case SocketError => OnStarted in so.calls || so.retried
    case SocketClosed(_) => !AsksAgain(so, e)
    case CredentialsRejected => so.retried
    case _ => false
  }

  function ToldOnce(running: bool, cancelled: bool, so: Told, e: Event): Told {
    Told(so.calls + (if !running then []
                     else if e.SocketMessage? then CallsFor(e.frame)
                     else if Breaks(so, e) then [OnError] else []),
         so.retried || (running && AsksAgain(so, e)),
         so.sent + if e.SocketOpened? && !cancelled then 1 else 0)
  }

  /** All that can be observed of a run, told from its events. */
  function Observed(events: seq<Event>): Told {
    if events == [] then Told([], false, 0)
    else
      var front := events[..|events| - 1];
      var so := Observed(front);
      ToldOnce(Running(front, so), Cancel in front, so, events[|events| - 1])
  }

  lemma FrameTold(s: Control, frame: Frame)
    requires WaitsRight(s) && s.ws.Open?
    ensures Received(s, frame).calls == if Settled(s) then [] else CallsFor(frame)
  {
  }

  lemma EventTold(s: Control, e: Event, so: Told)
    requires WaitsRight(s) && Enabled(s, e) && !e.SocketMessage?
    requires s.retried == so.retried && (!s.retried ==> (s.started <==> OnStarted in so.calls))
    ensures Step(s, e).calls == if !Settled(s) && Breaks(so, e) then [OnError] else []
  {
  }

  lemma RetryTold(s: Control, e: Event, so: Told)
    requires WaitsRight(s) && Enabled(s, e)
    requires s.retried == so.retried && (!s.retried ==> (s.started <==> OnStarted in so.calls))
    ensures Step(s, e).now.retried <==> s.retried || (!Settled(s) && AsksAgain(so, e))
  {
  }

  lemma {:induction false} SettledTold(events: seq<Event>, so: Told)
    requires Possible(events) && After(events).past.calls == so.calls
    ensures Settled(After(events).now) <==> !Running(events, so)
  {
    EndsAtMostOnce(events);
    CancelledMeans(events);
  }

  /**
   * On every possible sequence of events the handler calls, the messages sent and the credential fetches are exactly
   * what the events alone tell: each frame heard before the end calls its own handler and none else, in order; done and
   * error end the stream; a timeout, an early socket error after a retry, a close that is not retried and refused
   * credentials of the retry call the error handler.
   */
  lemma {:induction false} ObservedExactly(events: seq<Event>)
    requires Possible(events)
    ensures var so := Observed(events);
            && After(events).past == History(so.calls, so.sent, if so.retried then 2 else 1)
            && After(events).now.retried == so.retried
  {
    if events != [] {
      var front, e := events[..|events| - 1], events[|events| - 1];
      ObservedExactly(front);
      RunWaits(front);
      RunCounts(front);
      RunCounts(events);
      var s, so := After(front).now, Observed(front);
      SettledTold(front, so);
      CancelledMeans(front);
      RetryTold(s, e, so);
      if e.SocketMessage? {
        FrameTold(s, e.frame);
      } else {
        EventTold(s, e, so);
      }
    }
  }

  /** A frame heard while the stream runs calls its own handler; one heard later calls none. */
  lemma {:induction false} FrameReachesItsHandler(events: seq<Event>, frame: Frame)
    requires Possible(events + [SocketMessage(frame)])
    ensures var before, after := After(events).past.calls, After(events + [SocketMessage(frame)]).past.calls;
            var ended := Cancel in events || OnDone in before || OnError in before;
            after == before + if ended then [] else CallsFor(frame)
  {
    var longer := events + [SocketMessage(frame)];
    assert longer[..|events|] == events;
    ObservedExactly(events);
    ObservedExactly(longer);
  }

  /** The timer that runs while the stream waits: the last of opening, first frame and idle that was begun. */
  function TimerDue(events: seq<Event>): Timers {
    if events == [] then NONE
    else
      match events[|events| - 1]
      case CredentialsResolved => OPENING
      case SocketOpened => FIRST_FRAME
      case SocketMessage(_) => IDLING
      case SocketClosed(_) => NONE
      case _ => TimerDue(events[..|events| - 1])
  }

  lemma StepTimer(s: Control, e: Event)
    requires WaitsRight(s) && Enabled(s, e) && !Ended(Step(s, e).now)
    ensures !Ended(s)
    ensures Step(s, e).now.timers
            == match e
               case CredentialsResolved => OPENING
               case SocketOpened => FIRST_FRAME
               case SocketMessage(_) => IDLING
               case SocketClosed(_) => NONE
               case _ => s.timers
  {
  }

  /**
   * Which timer is armed, told from the events: the opening one from the credentials on, the first-frame one from the
   * opening on, the idle one from each frame on, none while credentials are awaited again or once the stream has ended.
   */
  lemma {:induction false} TimerExactly(events: seq<Event>)
    requires Possible(events)
    ensures After(events).now.timers == if Ended(After(events).now) then NONE else TimerDue(events)
  {
    RunWaits(events);
    if events != [] && !Ended(After(events).now) {
      var front := events[..|events| - 1];
      RunWaits(front);
      StepTimer(After(front).now, events[|events| - 1]);
      TimerExactly(front);
    }
  }
}
