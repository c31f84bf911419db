/**
 * The generic WebSocket hook: a second reconnect machine over a reconnect counter,
 * with a guarded `connect`, a `disconnect` that switches reconnection off by saturating
 * the counter, a send gate, and a parse fallback for inbound frames.
 *
 * Socket callbacks and the reconnect timer are events; `JSON.parse` and
 * `JSON.stringify` are given by their results. `connect()` does not catch the
 * exception `new WebSocket(url)` throws for a URL it rejects: whether the
 * constructor accepts is a parameter of every event that calls `connect()`, and a
 * rejected URL leaves the refs as they were while the exception escapes.
 */
module WebSocketHook {
  import opened Wrappers
  import opened Transport

  const DefaultReconnectAttempts := 5
  const DefaultReconnectInterval := 3000

  /**
   * A JavaScript value as the hook passes it along: a string, or any other value,
   * given by the JSON text `JSON.stringify` produces for it.
   */
  datatype Data = Text(text: string) | Structured(json: string)

  /** The hook's options after defaults; the `on…` flags say which callbacks were supplied. */
  datatype Options = Options(
    url: string,
    reconnectAttempts: int,
    reconnectInterval: int,
    autoConnect: bool,
    hasOnMessage: bool,
    hasOnConnect: bool,
    hasOnDisconnect: bool)

  /** Defaults: 5 attempts, 3000 ms, connect on mount; given options and callbacks are kept. */
  function WithDefaults(url: string, reconnectAttempts: Option<int>, reconnectInterval: Option<int>,
                        autoConnect: Option<bool>, hasOnMessage: bool, hasOnConnect: bool,
                        hasOnDisconnect: bool): (o: Options)
    ensures o.url == url
    ensures reconnectAttempts.None? ==> o.reconnectAttempts == 5
    ensures reconnectAttempts.Some? ==> o.reconnectAttempts == reconnectAttempts.value
    ensures reconnectInterval.None? ==> o.reconnectInterval == 3000
    ensures reconnectInterval.Some? ==> o.reconnectInterval == reconnectInterval.value
    ensures o.hasOnMessage == hasOnMessage && o.hasOnConnect == hasOnConnect && o.hasOnDisconnect == hasOnDisconnect
    ensures autoConnect.None? ==> o.autoConnect
    ensures autoConnect.Some? ==> o.autoConnect == autoConnect.value
  {
    Options(url, reconnectAttempts.GetOr(DefaultReconnectAttempts),
      reconnectInterval.GetOr(DefaultReconnectInterval), autoConnect.GetOr(true),
      hasOnMessage, hasOnConnect, hasOnDisconnect)
  }

  /** What `send` writes: a string as it is, anything else as its JSON text. */
  function Serialize(d: Data): (wire: string)
    ensures d.Text? ==> wire == d.text
    ensures d.Structured? ==> wire == d.json
  {
    match d
    case Text(t) => t
    case Structured(j) => j
  }

  /** What `onmessage` hands on: the parsed value, or the raw frame text when parsing failed. */
  function Delivered(raw: string, parsed: Option<Data>): (d: Data)
    ensures parsed.None? ==> d == Text(raw)
    ensures parsed.Some? ==> d == parsed.value
  {
    parsed.GetOr(Text(raw))
  }

  /** The outcome of one inbound frame: the final `lastMessage` and the values `onMessage` was called with, in order. */
  datatype Delivery = Delivery(last: Data, calls: seq<Data>)

  /**
   * `onmessage` in full. The `try` block covers the call to `onMessage` too: when the
   * frame parsed but `onMessage` throws on the parsed value, the `catch` block sets
   * `lastMessage` to the raw text and calls `onMessage` again with it.
   */
  function Receive(raw: string, parsed: Option<Data>, hasOnMessage: bool, throwsOnParsed: bool): (d: Delivery)
    ensures !(parsed.Some? && hasOnMessage && throwsOnParsed) ==>
      d == Delivery(Delivered(raw, parsed), if hasOnMessage then [Delivered(raw, parsed)] else [])
    ensures parsed.Some? && hasOnMessage && throwsOnParsed ==>
      d == Delivery(Text(raw), [parsed.value, Text(raw)])
  {
    if parsed.Some? && hasOnMessage && throwsOnParsed then Delivery(Text(raw), [parsed.value, Text(raw)])
    else if hasOnMessage then Delivery(Delivered(raw, parsed), [Delivered(raw, parsed)])
    else Delivery(Delivered(raw, parsed), [])
  }

  /**
   * `lastMessage` always ends as the value `onMessage` last saw (when there is one)
   * and is the parsed value or the raw text; `onMessage` is called at most twice, and
   * twice exactly when it threw on a parsed frame, the second time with the raw text.
   */
  lemma ReceiveMeaning(raw: string, parsed: Option<Data>, hasOnMessage: bool, throwsOnParsed: bool)
    ensures var d := Receive(raw, parsed, hasOnMessage, throwsOnParsed);
      && (d.last == Text(raw) || parsed == Some(d.last))
      && (hasOnMessage <==> d.calls != [])
      && (d.calls != [] ==> d.calls[|d.calls| - 1] == d.last)
      && |d.calls| <= 2
      && (|d.calls| == 2 <==> parsed.Some? && hasOnMessage && throwsOnParsed)
      && (|d.calls| == 2 ==> d.calls == [parsed.value, Text(raw)])
  {
  }

  /** Calls the hook makes to the supplied callbacks. */
  datatype Notice = ConnectedNotice | DisconnectedNotice | MessageNotice(data: Data)

  /** The `onMessage` calls, one notice per value. */
  function Notices(calls: seq<Data>): (ns: seq<Notice>)
    ensures |ns| == |calls| && forall i :: 0 <= i < |calls| ==> ns[i] == MessageNotice(calls[i])
  {
    if calls == [] then [] else [MessageNotice(calls[0])] + Notices(calls[1..])
  }

  /** The refs and state: current socket, `isConnected`, `readyState`, the counter, a pending timer. */
  datatype Machine = Machine(
    socket: Option<ReadyState>,
    isConnected: bool,
    readyState: ReadyState,
    count: int,
    timerPending: bool)

  /** Hook events; `accepted` says whether `new WebSocket(url)` accepts the URL when `connect()` runs. */
  datatype LifeEvent =
    | ConnectCalled(accepted: bool)
    | SocketOpened
    | SocketClosed
    | SocketErrored
    | TimerFired(accepted: bool)
    | DisconnectCalled

  /** Before mounting: not connected, `readyState` CLOSED, counter 0. */
  const Fresh := Machine(None, false, Closed, 0, false)

  /**
   * When an event can happen: `open` on a connecting socket; `error` and `close` on a
   * socket not yet closed, `close` (one pending timer at a time) only with no timer pending.
   */
  predicate Enabled(m: Machine, e: LifeEvent) {
    match e
    case ConnectCalled(_) => true
    case SocketOpened => m.socket == Some(Connecting)
    case SocketClosed => m.socket.Some? && m.socket.value != Closed && !m.timerPending
    case SocketErrored => m.socket.Some? && m.socket.value != Closed
    case TimerFired(_) => m.timerPending
    case DisconnectCalled => true
  }

  /**
   * `connect()`: nothing when the current socket is open, otherwise a new connecting
   * socket; when the constructor rejects the URL, nothing changes either.
   */
  function ConnectMachine(m: Machine, accepted: bool): (m': Machine)
    ensures m.socket == Some(Open) || !accepted ==> m' == m
    ensures m.socket != Some(Open) && accepted ==> m' == m.(socket := Some(Connecting))
  {
    if m.socket == Some(Open) || !accepted then m else m.(socket := Some(Connecting))
  }

  /** `connect()` throws: past the open-socket guard, the constructor rejects the URL. */
  predicate ConnectThrows(m: Machine, accepted: bool) {
    m.socket != Some(Open) && !accepted
  }

  function Step(o: Options, m: Machine, e: LifeEvent): Machine {
    match e
    case ConnectCalled(accepted) => ConnectMachine(m, accepted)
    case SocketOpened => m.(socket := Some(Open), isConnected := true, readyState := Open, count := 0)
    case SocketClosed =>
      m.(socket := Some(Closed), isConnected := false, readyState := Closed,
         timerPending := m.count < o.reconnectAttempts)
    case SocketErrored => m.(socket := CloseIfPresent(m.socket))
    case TimerFired(accepted) => ConnectMachine(m.(count := m.count + 1, timerPending := false), accepted)
    case DisconnectCalled =>
      m.(count := o.reconnectAttempts, timerPending := false, socket := CloseIfPresent(m.socket))
  }

  /** The state after mounting; with a rejected URL the mount effect throws and leaves the fresh state. */
  function Mounted(o: Options, accepted: bool): Machine {
    if o.autoConnect then Step(o, Fresh, ConnectCalled(accepted)) else Fresh
  }

  /**
   * `isConnected` mirrors `readyState`; the counter is saturated by `disconnect`, or 0,
   * or within the bound; a pending timer was scheduled while attempts remained.
   */
  predicate Inv(o: Options, m: Machine) {
    && (m.isConnected <==> m.readyState == Open)
    && (m.readyState == Open || m.readyState == Closed)
    && (m.count == o.reconnectAttempts || m.count == 0 || 0 < m.count <= o.reconnectAttempts)
    && (m.timerPending ==> m.count < o.reconnectAttempts)
  }

  function Run(o: Options, m: Machine, es: seq<LifeEvent>): Machine
    decreases |es|
  {
    if es == [] then m else Run(o, Step(o, m, es[0]), es[1..])
  }

  predicate AllEnabled(o: Options, m: Machine, es: seq<LifeEvent>)
    decreases |es|
  {
    es == [] || (Enabled(m, es[0]) && AllEnabled(o, Step(o, m, es[0]), es[1..]))
  }

  lemma StepKeepsInv(o: Options, m: Machine, e: LifeEvent)
    requires Inv(o, m) && Enabled(m, e)
    ensures Inv(o, Step(o, m, e))
  {
  }

  /** The state after mounting satisfies the invariant: not connected and CLOSED. */
  lemma MountedInv(o: Options, accepted: bool)
    ensures Inv(o, Mounted(o, accepted))
    ensures !Mounted(o, accepted).isConnected && Mounted(o, accepted).readyState == Closed
    ensures Mounted(o, accepted).socket == if o.autoConnect && accepted then Some(Connecting) else None
  {
  }

  /** On every possible run, the counter stays 0 or within `reconnectAttempts`. */
  lemma {:induction false} RunKeepsInv(o: Options, m: Machine, es: seq<LifeEvent>)
    requires Inv(o, m) && AllEnabled(o, m, es)
    ensures Inv(o, Run(o, m, es))
    decreases |es|
  {
    if es != [] {
      StepKeepsInv(o, m, es[0]);
      RunKeepsInv(o, Step(o, m, es[0]), es[1..]);
    }
  }

  /** `connect()` on an open socket changes nothing. */
  lemma ConnectGuard(o: Options, m: Machine, accepted: bool)
    requires m.socket == Some(Open)
    ensures Step(o, m, ConnectCalled(accepted)) == m
    ensures !ConnectThrows(m, accepted)
  {
  }

  /**
   * A reconnect timer that fires while the URL is rejected still counts the attempt,
   * then `connect()` throws: no new socket and no timer are left, so a closed socket
   * stays closed and no callback can fire until `connect()` is called again.
   */
  lemma RejectedReconnectStrands(o: Options, m: Machine)
    requires Enabled(m, TimerFired(false)) && m.socket != Some(Open)
    ensures ConnectThrows(m.(count := m.count + 1, timerPending := false), false)
    ensures var m' := Step(o, m, TimerFired(false));
      && m' == m.(count := m.count + 1, timerPending := false)
      && (m.socket == None || m.socket == Some(Closed) ==>
            && !Enabled(m', SocketOpened) && !Enabled(m', SocketClosed) && !Enabled(m', SocketErrored)
            && !m'.timerPending)
  {
  }

  /** An error closes the socket, and the close that follows has exactly the effect of a plain close. */
  lemma ErrorThenClose(o: Options, m: Machine)
    requires Enabled(m, SocketErrored) && !m.timerPending
    ensures var m' := Step(o, m, SocketErrored);
      && m'.socket == Some(Closing)
      && Enabled(m', SocketClosed)
      && Step(o, m', SocketClosed) == Step(o, m, SocketClosed)
  {
  }

  /**
   * After `disconnect()`, no reconnect is ever scheduled until a socket opens again:
   * whatever closes, connects or errors follow, the counter stays saturated and no timer
   * is pending.
   */
  lemma {:induction false} DisconnectSuppressesReconnect(o: Options, m: Machine, es: seq<LifeEvent>)
    requires forall i :: 0 <= i < |es| ==> es[i] != SocketOpened
    requires AllEnabled(o, Step(o, m, DisconnectCalled), es)
    ensures var r := Run(o, Step(o, m, DisconnectCalled), es);
      !r.timerPending && r.count == o.reconnectAttempts
  {
    SuppressedRun(o, Step(o, m, DisconnectCalled), es);
  }

  /** The invariant behind `DisconnectSuppressesReconnect`, carried along the run. */
  lemma {:induction false} SuppressedRun(o: Options, m: Machine, es: seq<LifeEvent>)
    requires !m.timerPending && m.count == o.reconnectAttempts
    requires forall i :: 0 <= i < |es| ==> es[i] != SocketOpened
    requires AllEnabled(o, m, es)
    ensures !Run(o, m, es).timerPending && Run(o, m, es).count == o.reconnectAttempts
    decreases |es|
  {
    if es != [] {
      assert es[0] != SocketOpened;
      var m' := Step(o, m, es[0]);
      assert forall i :: 0 <= i < |es[1..]| ==> es[1..][i] == es[i + 1];
      SuppressedRun(o, m', es[1..]);
    }
  }

  /** One mounted `useWebSocket` instance. */
  class Hook {
    const options: Options
    var socket: Option<ReadyState>
    var isConnected: bool
    var readyState: ReadyState
    var count: int
    var timerPending: bool
    var lastMessage: Option<Data>
    /** Calls made to the supplied callbacks, in order. */
    var notices: seq<Notice>
    /** Every frame written to a socket, in order. */
    var sent: seq<string>

    function State(): Machine
      reads this
    {
      Machine(socket, isConnected, readyState, count, timerPending)
    }

    ghost predicate Valid()
      reads this
    {
      Inv(options, State())
    }

    /**
     * Mounting: the initial state, then `connect()` when `autoConnect` is set; with a
     * rejected URL the exception escapes the effect and the state stays fresh.
     */
    constructor (o: Options, accepted: bool)
      ensures Valid() && options == o
      ensures State() == Mounted(o, accepted)
      ensures lastMessage == None && notices == [] && sent == []
    {
      options := o;
      socket := None;
      isConnected := false;
      readyState := Closed;
      count := 0;
      timerPending := false;
      lastMessage := None;
      notices := [];
      sent := [];
      new;
      if o.autoConnect {
        var _ := Connect(accepted);
      }
    }

    /** `connect()`; `threw` reports the exception a rejected URL raises. */
    method Connect(accepted: bool) returns (threw: bool)
      requires Valid()
      modifies this
      ensures Valid()
      ensures State() == Step(options, old(State()), ConnectCalled(accepted))
      ensures threw == ConnectThrows(old(State()), accepted)
      ensures lastMessage == old(lastMessage) && notices == old(notices) && sent == old(sent)
    {
      threw := false;
      if socket == Some(Open) {
        return;
      }
      if !accepted {
        threw := true;
        return;
      }
      socket := Some(Connecting);
    }

    /** `onopen`. */
    method OnOpen()
      requires Valid() && Enabled(State(), SocketOpened)
      modifies this
      ensures Valid()
      ensures State() == Step(options, old(State()), SocketOpened)
      ensures notices == old(notices) + (if options.hasOnConnect then [ConnectedNotice] else [])
      ensures lastMessage == old(lastMessage) && sent == old(sent)
    {
      socket := Some(Open);
      isConnected := true;
      readyState := Open;
      count := 0;
      if options.hasOnConnect {
        notices := notices + [ConnectedNotice];
      }
    }

    /**
     * `onmessage`: the parsed value, or the raw text when parsing failed, becomes
     * `lastMessage` and goes to `onMessage`; `throwsOnParsed` says whether `onMessage`
     * throws on the parsed value, which sends control to the `catch` block.
     */
    method OnMessage(raw: string, parsed: Option<Data>, throwsOnParsed: bool)
      requires Valid() && socket == Some(Open)
      modifies this
      ensures Valid()
      ensures var d := Receive(raw, parsed, options.hasOnMessage, throwsOnParsed);
        && lastMessage == Some(d.last)
        && notices == old(notices) + Notices(d.calls)
      ensures State() == old(State()) && sent == old(sent)
    {
      var threw := false;
      if parsed.Some? {
        lastMessage := Some(parsed.value);
        if options.hasOnMessage {
          notices := notices + [MessageNotice(parsed.value)];
          threw := throwsOnParsed;
        }
      }
      if parsed.None? || threw {
        lastMessage := Some(Text(raw));
        if options.hasOnMessage {
          notices := notices + [MessageNotice(Text(raw))];
        }
      }
    }

    /** `onclose`: disconnected; a reconnect timer only while `count < reconnectAttempts`. */
    method OnClose()
      requires Valid() && Enabled(State(), SocketClosed)
      modifies this
      ensures Valid()
      ensures State() == Step(options, old(State()), SocketClosed)
      ensures timerPending <==> count < options.reconnectAttempts
      ensures notices == old(notices) + (if options.hasOnDisconnect then [DisconnectedNotice] else [])
      ensures lastMessage == old(lastMessage) && sent == old(sent)
    {
      socket := Some(Closed);
      isConnected := false;
      readyState := Closed;
      if options.hasOnDisconnect {
        notices := notices + [DisconnectedNotice];
      }
      if count < options.reconnectAttempts {
        timerPending := true;
      }
    }

    /** `onerror`: close the socket. */
    method OnError()
      requires Valid() && Enabled(State(), SocketErrored)
      modifies this
      ensures Valid()
      ensures State() == Step(options, old(State()), SocketErrored)
      ensures lastMessage == old(lastMessage) && notices == old(notices) && sent == old(sent)
    {
      socket := CloseIfPresent(socket);
    }

    /** The reconnect timer: count one more attempt, then `connect()`, which may throw. */
    method OnTimer(accepted: bool) returns (threw: bool)
      requires Valid() && Enabled(State(), TimerFired(accepted))
      modifies this
      ensures Valid()
      ensures State() == Step(options, old(State()), TimerFired(accepted))
      ensures threw == ConnectThrows(old(State()).(count := old(count) + 1, timerPending := false), accepted)
      ensures lastMessage == old(lastMessage) && notices == old(notices) && sent == old(sent)
    {
      count := count + 1;
      timerPending := false;
      threw := Connect(accepted);
    }

    /** `disconnect()` (also the unmount cleanup): saturate the counter, clear the timer, close the socket. */
    method Disconnect()
      requires Valid()
      modifies this
      ensures Valid()
      ensures State() == Step(options, old(State()), DisconnectCalled)
      ensures count == options.reconnectAttempts && !timerPending
      ensures lastMessage == old(lastMessage) && notices == old(notices) && sent == old(sent)
    {
      count := options.reconnectAttempts;
      timerPending := false;
      socket := CloseIfPresent(socket);
    }

    /** `send(data)`: written only when the socket is open; strings unchanged, other values as JSON. */
    method Send(data: Data)
      requires Valid()
      modifies this
      ensures Valid()
      ensures sent == old(sent) + (if socket == Some(Open) then [Serialize(data)] else [])
      ensures State() == old(State()) && lastMessage == old(lastMessage) && notices == old(notices)
    {
      if socket == Some(Open) {
        sent := sent + [Serialize(data)];
      }
    }
  }
}
