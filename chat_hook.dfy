/**
 * The connection side of the chat hook: socket URL, the reconnect machine over the
 * attempt counter, the `init` frame on open, and the optimistic send.
 *
 * Sockets and timers are abstract: the socket's `open`/`close`/`message` callbacks, a
 * reconnect timer firing, the caller's `reconnect()` and the component unmounting are
 * events. Whether `new WebSocket(url)` accepted the URL (it throws otherwise, and the
 * hook only logs) is a parameter of every event that opens a socket.
 */
module ChatHook {
  import opened Wrappers
  import opened ChatTypes
  import opened Transport
  import opened ChatReducer

  const DefaultReconnectInterval := 3000
  const DefaultMaxReconnectAttempts := 5

  /** The hook's options after destructuring defaults are applied. */
  datatype Settings = Settings(
    wsUrl: string,
    userId: string,
    token: Option<string>,
    autoReconnect: bool,
    reconnectInterval: int,
    maxReconnectAttempts: int)

  /** Option defaults: reconnection on, every 3000 ms, at most 5 attempts. */
  function Resolve(cfg: ChatConfig): (s: Settings)
    ensures s.wsUrl == cfg.wsUrl && s.userId == cfg.userId && s.token == cfg.token
    ensures cfg.autoReconnect.None? ==> s.autoReconnect
    ensures cfg.autoReconnect.Some? ==> s.autoReconnect == cfg.autoReconnect.value
    ensures cfg.reconnectInterval.None? ==> s.reconnectInterval == 3000
    ensures cfg.reconnectInterval.Some? ==> s.reconnectInterval == cfg.reconnectInterval.value
    ensures cfg.maxReconnectAttempts.None? ==> s.maxReconnectAttempts == 5
    ensures cfg.maxReconnectAttempts.Some? ==> s.maxReconnectAttempts == cfg.maxReconnectAttempts.value
  {
    Settings(cfg.wsUrl, cfg.userId, cfg.token,
      cfg.autoReconnect.GetOr(true),
      cfg.reconnectInterval.GetOr(DefaultReconnectInterval),
      cfg.maxReconnectAttempts.GetOr(DefaultMaxReconnectAttempts))
  }

  /** The URL a socket is opened with: the token, when truthy, goes in a `token` query parameter. */
  function SocketUrl(wsUrl: string, token: Option<string>): (url: string)
    ensures token.Some? && token.value != "" ==> url == wsUrl + "?token=" + token.value
    ensures token.None? || token.value == "" ==> url == wsUrl
  {
    match token
    case Some(t) => if t != "" then wsUrl + "?token=" + t else wsUrl
    case None => wsUrl
  }

  /** The URL always starts with the endpoint, and a non-empty token can be read back from it. */
  lemma SocketUrlCarriesToken(wsUrl: string, t: string)
    requires t != ""
    ensures var url := SocketUrl(wsUrl, Some(t));
      && url[..|wsUrl|] == wsUrl
      && url[|wsUrl|..|wsUrl| + 7] == "?token="
      && url[|wsUrl| + 7..] == t
  {
    var url := SocketUrl(wsUrl, Some(t));
    assert url == wsUrl + "?token=" + t;
    assert url[..|wsUrl|] == wsUrl;
    assert url[|wsUrl|..|wsUrl| + 7] == "?token=";
    assert url[|wsUrl| + 7..] == t;
  }

  /** Frames the hook writes to the socket. */
  datatype Outbound = InitFrame(userId: string) | SendMessageFrame(message: Message)

  /** The connection refs and flag: the current socket, `isConnected`, the attempt counter, a pending timer. */
  datatype Conn = Conn(
    socket: Option<ReadyState>,
    isConnected: bool,
    attempts: nat,
    timerPending: bool)

  datatype LifeEvent =
    | SocketOpened
    | SocketClosed
    | TimerFired(accepted: bool)
    | ReconnectCalled(accepted: bool)
    | Unmounted

  /** `connect()`: a new socket in the connecting state, unless the constructor threw. */
  function ConnectConn(c: Conn, accepted: bool): (c': Conn)
    ensures c'.isConnected == c.isConnected && c'.attempts == c.attempts && c'.timerPending == c.timerPending
    ensures c'.socket == if accepted then Some(Connecting) else c.socket
  {
    if accepted then c.(socket := Some(Connecting)) else c
  }

  /** The state right after mounting: nothing connected, no attempts, then `connect()`. */
  function Mounted(accepted: bool): Conn {
    ConnectConn(Conn(None, false, 0, false), accepted)
  }

  /**
   * When an event can happen: `open` only on a connecting socket; `close` only on a socket
   * not yet closed, and (one pending timer at a time) only when no timer is pending; a
   * timer only fires when pending.
   */
  predicate Enabled(c: Conn, e: LifeEvent) {
    match e
    case SocketOpened => c.socket == Some(Connecting)
    case SocketClosed => c.socket.Some? && c.socket.value != Closed && !c.timerPending
    case TimerFired(_) => c.timerPending
    case ReconnectCalled(_) => true
    case Unmounted => true
  }

  /** One lifecycle event. */
  function Step(st: Settings, c: Conn, e: LifeEvent): Conn {
    match e
    case SocketOpened => c.(socket := Some(Open), isConnected := true, attempts := 0)
    case SocketClosed =>
      c.(socket := Some(Closed), isConnected := false,
         timerPending := st.autoReconnect && c.attempts < st.maxReconnectAttempts)
    case TimerFired(accepted) =>
      ConnectConn(c.(attempts := c.attempts + 1, timerPending := false), accepted)
    case ReconnectCalled(accepted) =>
      ConnectConn(c.(socket := CloseIfPresent(c.socket), attempts := 0), accepted)
    case Unmounted => c.(socket := CloseIfPresent(c.socket), timerPending := false)
  }

  /**
   * The attempt counter is bounded by the maximum (or is 0), and a pending timer was
   * scheduled because reconnection is on and attempts remained.
   */
  predicate Inv(st: Settings, c: Conn) {
    && (c.timerPending ==> st.autoReconnect && c.attempts < st.maxReconnectAttempts)
    && (c.attempts == 0 || c.attempts <= st.maxReconnectAttempts)
  }

  lemma StepKeepsInv(st: Settings, c: Conn, e: LifeEvent)
    requires Inv(st, c) && Enabled(c, e)
    ensures Inv(st, Step(st, c, e))
  {
  }

  /** The state after a sequence of events. */
  function Run(st: Settings, c: Conn, es: seq<LifeEvent>): Conn
    decreases |es|
  {
    if es == [] then c else Run(st, Step(st, c, es[0]), es[1..])
  }

  /** Every event of `es` is possible when it happens. */
  predicate AllEnabled(st: Settings, c: Conn, es: seq<LifeEvent>)
    decreases |es|
  {
    es == [] || (Enabled(c, es[0]) && AllEnabled(st, Step(st, c, es[0]), es[1..]))
  }

  /** From the mounted state, on any possible sequence of events, `attempts <= maxReconnectAttempts` or it is 0. */
  lemma {:induction false} RunKeepsInv(st: Settings, c: Conn, es: seq<LifeEvent>)
    requires Inv(st, c) && AllEnabled(st, c, es)
    ensures Inv(st, Run(st, c, es))
    decreases |es|
  {
    if es != [] {
      StepKeepsInv(st, c, es[0]);
      RunKeepsInv(st, Step(st, c, es[0]), es[1..]);
    }
  }

  /** Right after mounting: not connected, no attempt counted, no timer, and a connecting socket iff the URL was accepted. */
  lemma MountedInv(st: Settings, accepted: bool)
    ensures Inv(st, Mounted(accepted))
    ensures Mounted(accepted) == Conn(if accepted then Some(Connecting) else None, false, 0, false)
  {
  }

  /** `n` rounds of a connection attempt that fails: the socket closes, the timer fires, a new socket opens. */
  function FailedRounds(n: nat): (es: seq<LifeEvent>)
    ensures |es| == 2 * n
  {
    if n == 0 then [] else [SocketClosed, TimerFired(true)] + FailedRounds(n - 1)
  }

  /**
   * Each failed round costs exactly one attempt while attempts remain: after `n` rounds
   * from `k` attempts (`k + n` within the maximum) a socket is connecting with `k + n`
   * attempts used and no timer pending.
   */
  lemma {:induction false} FailedRoundsCount(st: Settings, k: nat, n: nat)
    requires st.autoReconnect && k + n <= st.maxReconnectAttempts
    ensures var c := Conn(Some(Connecting), false, k, false);
      && AllEnabled(st, c, FailedRounds(n))
      && Run(st, c, FailedRounds(n)) == Conn(Some(Connecting), false, k + n, false)
    decreases n
  {
    var c := Conn(Some(Connecting), false, k, false);
    if n > 0 {
      var es := FailedRounds(n);
      var rest := FailedRounds(n - 1);
      assert es == [SocketClosed, TimerFired(true)] + rest;
      var c1 := Step(st, c, SocketClosed);
      assert c1 == Conn(Some(Closed), false, k, true);
      var c2 := Step(st, c1, TimerFired(true));
      assert c2 == Conn(Some(Connecting), false, k + 1, false);
      FailedRoundsCount(st, k + 1, n - 1);
      assert es[1..] == [TimerFired(true)] + rest;
      assert es[1..][1..] == rest;
    }
  }

  /**
   * After `maxReconnectAttempts` failed rounds from a fresh start, the next close
   * schedules no timer: the socket stays closed until `reconnect()` is called.
   */
  lemma RetriesExhaust(st: Settings)
    requires st.autoReconnect && st.maxReconnectAttempts >= 0
    ensures var c := Run(st, Conn(Some(Connecting), false, 0, false), FailedRounds(st.maxReconnectAttempts));
      && Enabled(c, SocketClosed)
      && Step(st, c, SocketClosed) == Conn(Some(Closed), false, st.maxReconnectAttempts, false)
  {
    FailedRoundsCount(st, 0, st.maxReconnectAttempts);
  }

  /** `reconnect()` resets the counter before connecting, from any state. */
  lemma ReconnectResets(st: Settings, c: Conn)
    ensures Step(st, c, ReconnectCalled(true)).attempts == 0
    ensures Step(st, c, ReconnectCalled(true)).socket == Some(Connecting)
  {
  }

  /**
   * The unmount cleanup clears the timer and closes the socket but leaves the socket's
   * `onclose` handler in place. When that close arrives, with reconnection on and
   * attempts left, it schedules a new timer, and the timer opens a new socket for a
   * component that is gone.
   */
  lemma ReconnectAfterUnmount(st: Settings, c: Conn)
    requires st.autoReconnect && c.attempts < st.maxReconnectAttempts
    requires c.socket == Some(Open) || c.socket == Some(Connecting)
    ensures var es := [Unmounted, SocketClosed, TimerFired(true)];
      && AllEnabled(st, c, es)
      && Run(st, c, es).socket == Some(Connecting)
      && Run(st, c, es).attempts == c.attempts + 1
  {
    var c1 := Step(st, c, Unmounted);
    assert c1.socket == Some(Closing) && !c1.timerPending;
    var c2 := Step(st, c1, SocketClosed);
    assert c2.timerPending;
    var es := [Unmounted, SocketClosed, TimerFired(true)];
    assert es[1..] == [SocketClosed, TimerFired(true)];
    assert es[1..][1..] == [TimerFired(true)];
    assert es[1..][1..][1..] == [];
  }

  /**
   * The cleanup as evidently intended ("disconnect on unmount"): close the socket and
   * detach it, so that none of its handlers can run afterwards.
   */
  function DetachedUnmount(c: Conn): (c': Conn)
    ensures c'.socket.None? && !c'.timerPending
    ensures c'.attempts == c.attempts && c'.isConnected == c.isConnected
  {
    c.(socket := None, timerPending := false)
  }

  /**
   * After the corrected cleanup no socket callback and no timer can fire, so only an
   * explicit `reconnect()` can open a socket; the invariant is kept.
   */
  lemma DetachedUnmountStaysDown(st: Settings, c: Conn)
    requires Inv(st, c)
    ensures Inv(st, DetachedUnmount(c))
    ensures var d := DetachedUnmount(c);
      && !Enabled(d, SocketOpened) && !Enabled(d, SocketClosed)
      && forall accepted :: !Enabled(d, TimerFired(accepted))
  {
  }

  /**
   * Every possible run after the corrected cleanup that holds no `reconnect()` call leaves
   * the detached state as it is: no socket is ever opened again and no timer is scheduled.
   */
  lemma {:induction false} DetachedRunStaysDown(st: Settings, c: Conn, es: seq<LifeEvent>)
    requires AllEnabled(st, DetachedUnmount(c), es)
    requires forall i :: 0 <= i < |es| ==> !es[i].ReconnectCalled?
    ensures Run(st, DetachedUnmount(c), es) == DetachedUnmount(c)
    decreases |es|
  {
    if es != [] {
      var d := DetachedUnmount(c);
      assert Step(st, d, es[0]) == d;
      assert forall i :: 0 <= i < |es[1..]| ==> es[1..][i] == es[i + 1];
      DetachedRunStaysDown(st, c, es[1..]);
    }
  }

  /** The optimistic entry `sendMessage` appends: status `sending`, type `text`, from the hook's user. */
  function OptimisticMessage(st: Settings, id: string, conversationId: string, content: string, now: int): Message {
    Message(id, conversationId, st.userId, content, now, Sending, TextKind)
  }

  /** One mounted `useChat` instance. */
  class Session {
    const settings: Settings
    var chat: ChatState
    var activeConversationId: Option<string>
    var socket: Option<ReadyState>
    var isConnected: bool
    var attempts: nat
    var timerPending: bool
    /** The URL of every socket created, in order. */
    var sockets: seq<string>
    /** Every frame written to a socket, in order. */
    var outbox: seq<Outbound>

    function Connection(): Conn
      reads this
    {
      Conn(socket, isConnected, attempts, timerPending)
    }

    ghost predicate Valid()
      reads this
    {
      Inv(settings, Connection())
    }

    function Url(): string
      reads this
    {
      SocketUrl(settings.wsUrl, settings.token)
    }

    /** Mounting: loading starts and `connect()` runs. */
    constructor (config: ChatConfig, accepted: bool)
      ensures Valid()
      ensures settings == Resolve(config)
      ensures chat == ChatState([], [], true) && activeConversationId == None
      ensures Connection() == Mounted(accepted)
      ensures sockets == (if accepted then [Url()] else []) && outbox == []
    {
      settings := Resolve(config);
      chat := ChatState([], [], true);
      activeConversationId := None;
      socket := None;
      isConnected := false;
      attempts := 0;
      timerPending := false;
      outbox := [];
      new;
      sockets := [];
      Connect(accepted);
    }

    /** `connect()`. */
    method Connect(accepted: bool)
      modifies this
      ensures Connection() == ConnectConn(old(Connection()), accepted)
      ensures sockets == old(sockets) + (if accepted then [Url()] else [])
      ensures chat == old(chat) && outbox == old(outbox) && activeConversationId == old(activeConversationId)
    {
      if accepted {
        socket := Some(Connecting);
        sockets := sockets + [Url()];
      }
    }

    /** `onopen`: connected, counter reset, and one `init` frame carrying the user id. */
    method OnOpen()
      requires Valid() && Enabled(Connection(), SocketOpened)
      modifies this
      ensures Valid()
      ensures Connection() == Step(settings, old(Connection()), SocketOpened)
      ensures outbox == old(outbox) + [InitFrame(settings.userId)]
      ensures chat == old(chat) && sockets == old(sockets) && activeConversationId == old(activeConversationId)
    {
      isConnected := true;
      attempts := 0;
      socket := Some(Open);
      outbox := outbox + [InitFrame(settings.userId)];
    }

    /** `onclose`: disconnected; a reconnect timer only when enabled and attempts remain. */
    method OnClose()
      requires Valid() && Enabled(Connection(), SocketClosed)
      modifies this
      ensures Valid()
      ensures Connection() == Step(settings, old(Connection()), SocketClosed)
      ensures timerPending <==> settings.autoReconnect && attempts < settings.maxReconnectAttempts
      ensures chat == old(chat) && sockets == old(sockets) && outbox == old(outbox)
      ensures activeConversationId == old(activeConversationId)
    {
      isConnected := false;
      socket := Some(Closed);
      if settings.autoReconnect && attempts < settings.maxReconnectAttempts {
        timerPending := true;
      }
    }

    /** `onmessage`: the reducer applied to the parsed frame; a malformed frame changes nothing. */
    method OnMessage(f: Frame, now: int)
      requires Valid() && socket == Some(Open)
      modifies this
      ensures Valid()
      ensures chat == ReceiveFrame(old(chat), f, now)
      ensures Connection() == old(Connection()) && sockets == old(sockets) && outbox == old(outbox)
      ensures activeConversationId == old(activeConversationId)
    {
      chat := ReceiveFrame(chat, f, now);
    }

    /** The reconnect timer: one more attempt, then `connect()`. */
    method OnTimer(accepted: bool)
      requires Valid() && Enabled(Connection(), TimerFired(accepted))
      modifies this
      ensures Valid()
      ensures Connection() == Step(settings, old(Connection()), TimerFired(accepted))
      ensures attempts == old(attempts) + 1
      ensures sockets == old(sockets) + (if accepted then [Url()] else [])
      ensures chat == old(chat) && outbox == old(outbox) && activeConversationId == old(activeConversationId)
    {
      attempts := attempts + 1;
      timerPending := false;
      Connect(accepted);
    }

    /** `reconnect()`: close the current socket, reset the counter, `connect()`. */
    method Reconnect(accepted: bool)
      requires Valid()
      modifies this
      ensures Valid()
      ensures Connection() == Step(settings, old(Connection()), ReconnectCalled(accepted))
      ensures sockets == old(sockets) + (if accepted then [Url()] else [])
      ensures chat == old(chat) && outbox == old(outbox) && activeConversationId == old(activeConversationId)
    {
      socket := CloseIfPresent(socket);
      attempts := 0;
      Connect(accepted);
    }

    /** Unmount cleanup: clear the timer and close the socket. */
    method Unmount()
      requires Valid()
      modifies this
      ensures Valid()
      ensures Connection() == Step(settings, old(Connection()), Unmounted)
      ensures chat == old(chat) && sockets == old(sockets) && outbox == old(outbox)
      ensures activeConversationId == old(activeConversationId)
    {
      timerPending := false;
      socket := CloseIfPresent(socket);
    }

    /**
     * `sendMessage`: nothing at all unless the socket is open; then the optimistic entry
     * is appended and exactly one `send_message` frame carrying it is written.
     */
    method SendMessage(content: string, conversationId: string, id: string, now: int)
      requires Valid()
      modifies this
      ensures Valid()
      ensures socket != Some(Open) ==> chat == old(chat) && outbox == old(outbox)
      ensures socket == Some(Open) ==>
        var m := OptimisticMessage(settings, id, conversationId, content, now);
        chat == old(chat).(messages := old(chat).messages + [m])
        && outbox == old(outbox) + [SendMessageFrame(m)]
      ensures Connection() == old(Connection()) && sockets == old(sockets)
      ensures activeConversationId == old(activeConversationId)
    {
      if socket != Some(Open) {
        return;
      }
      var m := OptimisticMessage(settings, id, conversationId, content, now);
      chat := chat.(messages := chat.messages + [m]);
      outbox := outbox + [SendMessageFrame(m)];
    }

    /** `setActiveConversation`. */
    method SetActiveConversation(id: Option<string>)
      requires Valid()
      modifies this
      ensures Valid()
      ensures activeConversationId == id
      ensures chat == old(chat) && Connection() == old(Connection())
      ensures sockets == old(sockets) && outbox == old(outbox)
    {
      activeConversationId := id;
    }
  }
}
