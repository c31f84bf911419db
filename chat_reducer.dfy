/**
 * The state update the chat hook performs for each frame the server sends:
 * a reducer over the message list, the conversation list and the loading flag.
 * The server's frames arrive already parsed into a closed set of tagged events.
 */
module ChatReducer {
  import opened Wrappers
  import opened ChatTypes

  /** A parsed inbound frame, by its `type` tag. */
  datatype ServerEvent =
    | ConversationsEvent(conversations: seq<Conversation>)
    | MessageEvent(message: Message)
    | MessageStatusEvent(messageId: string, status: MessageStatus)
    | HistoryEvent(messages: seq<Message>)
    | UnknownEvent(tag: string)

  /** What the socket delivered: a frame `JSON.parse` accepted, or text it rejected. */
  datatype Frame = Parsed(event: ServerEvent) | Malformed(raw: string)

  /** The hook's React state that server frames change. */
  datatype ChatState = ChatState(
    messages: seq<Message>,
    conversations: seq<Conversation>,
    isLoading: bool)

  /** A conversation after a message for it arrived at time `now`. */
  function WithLastMessage(c: Conversation, m: Message, now: int): Conversation {
    c.(lastMessage := Some(m), updatedAt := now)
  }

  /**
   * The conversation list after message `m` arrived: every conversation whose id is
   * the message's conversation gets it as last message; the list keeps its order.
   */
  function TouchConversations(convs: seq<Conversation>, m: Message, now: int): (r: seq<Conversation>)
    ensures |r| == |convs|
    ensures forall i :: 0 <= i < |convs| ==>
      r[i] == if convs[i].id == m.conversationId then WithLastMessage(convs[i], m, now) else convs[i]
  {
    if convs == [] then []
    else
      var c := convs[0];
      [if c.id == m.conversationId then WithLastMessage(c, m, now) else c]
        + TouchConversations(convs[1..], m, now)
  }

  /** The message list after a status update: every entry with id `id` gets status `st`. */
  function SetStatus(msgs: seq<Message>, id: string, st: MessageStatus): (r: seq<Message>)
    ensures |r| == |msgs|
    ensures forall i :: 0 <= i < |msgs| ==>
      r[i] == if msgs[i].id == id then msgs[i].(status := st) else msgs[i]
  {
    if msgs == [] then []
    else
      var m := msgs[0];
      [if m.id == id then m.(status := st) else m] + SetStatus(msgs[1..], id, st)
  }

  /** `handleServerMessage`: the state after one parsed server frame. */
  function HandleServerMessage(s: ChatState, e: ServerEvent, now: int): (r: ChatState)
    ensures r.isLoading == (if e.ConversationsEvent? then false else s.isLoading)
    ensures e.ConversationsEvent? ==> r.conversations == e.conversations && r.messages == s.messages
    ensures !e.ConversationsEvent? && !e.MessageEvent? ==> r.conversations == s.conversations
    ensures e.UnknownEvent? ==> r == s
  {
    match e
    case ConversationsEvent(cs) => s.(conversations := cs, isLoading := false)
    case MessageEvent(m) =>
      s.(messages := s.messages + [m], conversations := TouchConversations(s.conversations, m, now))
    case MessageStatusEvent(id, st) => s.(messages := SetStatus(s.messages, id, st))
    case HistoryEvent(batch) => s.(messages := batch + s.messages)
    case UnknownEvent(_) => s
  }

  /** `onmessage`: a frame that does not parse is dropped and changes nothing. */
  function ReceiveFrame(s: ChatState, f: Frame, now: int): (r: ChatState)
    ensures f.Malformed? ==> r == s
    ensures f.Parsed? ==> r == HandleServerMessage(s, f.event, now)
  {
    match f
    case Parsed(e) => HandleServerMessage(s, e, now)
    case Malformed(_) => s
  }

  /**
   * A `message` frame appends exactly one entry at the end, leaves earlier entries as
   * they were, and keeps the loading flag.
   */
  lemma MessageAppends(s: ChatState, m: Message, now: int)
    ensures var r := HandleServerMessage(s, MessageEvent(m), now);
      && |r.messages| == |s.messages| + 1
      && r.messages[..|s.messages|] == s.messages
      && r.messages[|s.messages|] == m
      && r.isLoading == s.isLoading
  {
    var r := HandleServerMessage(s, MessageEvent(m), now);
    assert r.messages == s.messages + [m];
  }

  /** There is no de-duplication: the same message frame twice yields two entries, whatever the list holds. */
  lemma {:induction false} MessageNotDeduplicated(s: ChatState, m: Message, now: int, later: int)
    ensures var r := HandleServerMessage(HandleServerMessage(s, MessageEvent(m), now), MessageEvent(m), later);
      r.messages == s.messages + [m, m] && |r.messages| == |s.messages| + 2
  {
    var r1 := HandleServerMessage(s, MessageEvent(m), now);
    assert r1.messages == s.messages + [m];
    assert r1.messages + [m] == s.messages + [m, m];
  }

  /**
   * A `message` frame keeps the conversation list's length and ids in order; the
   * conversations with the message's conversation id get it as last message and the
   * new time, and every other conversation stays as it was.
   */
  lemma MessageTouchesConversations(s: ChatState, m: Message, now: int)
    ensures var r := HandleServerMessage(s, MessageEvent(m), now);
      && |r.conversations| == |s.conversations|
      && (forall i :: 0 <= i < |s.conversations| ==> r.conversations[i].id == s.conversations[i].id)
      && (forall i :: 0 <= i < |s.conversations| && s.conversations[i].id == m.conversationId ==>
            r.conversations[i].lastMessage == Some(m) && r.conversations[i].updatedAt == now
            && r.conversations[i].title == s.conversations[i].title
            && r.conversations[i].unreadCount == s.conversations[i].unreadCount)
      && (forall i :: 0 <= i < |s.conversations| && s.conversations[i].id != m.conversationId ==>
            r.conversations[i] == s.conversations[i])
  {
  }

  /**
   * A `message_status` frame keeps the list's length and order and changes only the
   * status field, only of entries with the named id, whatever status they had.
   */
  lemma StatusOverwrites(s: ChatState, id: string, st: MessageStatus, now: int)
    ensures var r := HandleServerMessage(s, MessageStatusEvent(id, st), now);
      && |r.messages| == |s.messages|
      && (forall i :: 0 <= i < |s.messages| ==>
            r.messages[i].(status := s.messages[i].status) == s.messages[i])
      && (forall i :: 0 <= i < |s.messages| ==>
            r.messages[i].status == if s.messages[i].id == id then st else s.messages[i].status)
      && r.conversations == s.conversations && r.isLoading == s.isLoading
  {
  }

  /**
   * Status updates are not monotone: the later of two updates wins, so `read`
   * followed by `sent` leaves the message `sent`.
   */
  lemma {:induction false} LaterStatusWins(msgs: seq<Message>, id: string, first: MessageStatus, second: MessageStatus)
    ensures SetStatus(SetStatus(msgs, id, first), id, second) == SetStatus(msgs, id, second)
  {
    if msgs != [] {
      LaterStatusWins(msgs[1..], id, first, second);
    }
  }

  /** A `history` frame puts the batch in front of the existing messages, unchanged. */
  lemma HistoryPrepends(s: ChatState, batch: seq<Message>, now: int)
    ensures var r := HandleServerMessage(s, HistoryEvent(batch), now);
      && r.messages == batch + s.messages
      && r.messages[..|batch|] == batch && r.messages[|batch|..] == s.messages
      && r.conversations == s.conversations && r.isLoading == s.isLoading
  {
    var r := HandleServerMessage(s, HistoryEvent(batch), now);
    assert r.messages[..|batch|] == batch;
    assert r.messages[|batch|..] == s.messages;
  }

  /** A `conversations` frame replaces the conversation list and ends loading. */
  lemma ConversationsReplace(s: ChatState, cs: seq<Conversation>, now: int)
    ensures HandleServerMessage(s, ConversationsEvent(cs), now)
      == ChatState(s.messages, cs, false)
  {
  }
}
