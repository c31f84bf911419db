/**
 * The chat window: it keeps the id of the active conversation, shows that
 * conversation's messages as bubbles (or an empty-state note), a header with
 * the conversation's title and participant count, and a message input that is
 * disabled while no conversation is active. Selecting a conversation and
 * sending are recorded as the calls made to `onSelectConversation` and
 * `onSendMessage`.
 */
module ChatWindow {
  import opened Wrappers
  import opened Seqs
  import opened ChatTypes
  import ChatReducer
  import MessageInput
  import MessageBubble
  import Text

  /** The active conversation when the window mounts: the first one's id, or no conversation (""). */
  function InitialActive(convs: seq<Conversation>): string {
    if convs == [] then "" else convs[0].id
  }

  /** The messages of conversation `active`, in the order of the whole list. */
  function ActiveMessages(msgs: seq<Message>, active: string): seq<Message> {
    Filter(msgs, (m: Message) => m.conversationId == active)
  }

  /**
   * The view shows exactly the messages of the active conversation, each as
   * often as in the whole list, in their original order.
   */
  lemma ActiveMessagesExact(msgs: seq<Message>, active: string)
    ensures var v := ActiveMessages(msgs, active);
      && (forall i :: 0 <= i < |v| ==> v[i].conversationId == active)
      && (forall m: Message :: m in v <==> m in msgs && m.conversationId == active)
      && (forall m: Message :: m.conversationId == active ==> multiset(v)[m] == multiset(msgs)[m])
      && IsSubsequence(v, msgs)
  {
    var p := (m: Message) => m.conversationId == active;
    FilterSatisfies(msgs, p);
    FilterCount(msgs, p);
    FilterIsSubsequence(msgs, p);
    forall m ensures m in ActiveMessages(msgs, active) <==> m in msgs && m.conversationId == active {
      FilterMembership(msgs, p, m);
    }
  }

  /**
   * A `message` frame adds its message at the end of the view when it belongs
   * to the active conversation, and leaves the view as it was otherwise.
   */
  lemma IncomingMessageView(s: ChatReducer.ChatState, m: Message, now: int, active: string)
    ensures ActiveMessages(ChatReducer.HandleServerMessage(s, ChatReducer.MessageEvent(m), now).messages, active)
      == ActiveMessages(s.messages, active) + (if m.conversationId == active then [m] else [])
  {
    FilterConcat(s.messages, [m], (m: Message) => m.conversationId == active);
  }

  /** A `history` frame puts the batch's messages of the active conversation in front of those already shown. */
  lemma HistoryView(s: ChatReducer.ChatState, batch: seq<Message>, now: int, active: string)
    ensures ActiveMessages(ChatReducer.HandleServerMessage(s, ChatReducer.HistoryEvent(batch), now).messages, active)
      == ActiveMessages(batch, active) + ActiveMessages(s.messages, active)
  {
    FilterConcat(batch, s.messages, (m: Message) => m.conversationId == active);
  }

  /** A status update never moves a message in or out of the view: it updates the shown messages in place. */
  lemma {:induction false} StatusUpdateView(msgs: seq<Message>, id: string, st: MessageStatus, active: string)
    ensures ActiveMessages(ChatReducer.SetStatus(msgs, id, st), active)
      == ChatReducer.SetStatus(ActiveMessages(msgs, active), id, st)
  {
    if msgs != [] {
      StatusUpdateView(msgs[1..], id, st, active);
      var r := ChatReducer.SetStatus(msgs, id, st);
      assert r[1..] == ChatReducer.SetStatus(msgs[1..], id, st);
    }
  }

  /** `conversations.find`: the first conversation with id `id`, if any. */
  function Find(convs: seq<Conversation>, id: string): (r: Option<Conversation>)
    ensures r.None? <==> forall i :: 0 <= i < |convs| ==> convs[i].id != id
    ensures r.Some? ==> exists i ::
      && 0 <= i < |convs| && convs[i] == r.value && r.value.id == id
      && forall j :: 0 <= j < i ==> convs[j].id != id
  {
    if convs == [] then None
    else if convs[0].id == id then Some(convs[0])
    else
      var r := Find(convs[1..], id);
      if r.Some? then
        var i :| 0 <= i < |convs[1..]| && convs[1..][i] == r.value && r.value.id == id
          && forall j :: 0 <= j < i ==> convs[1..][j].id != id;
        assert convs[i + 1] == r.value;
        r
      else r
  }

  const NoConversationTitle := "Select a conversation"

  /** The header: the title, and the participant count when a conversation is found. */
  datatype Header = Header(title: string, participants: Option<nat>)

  function RenderHeader(convs: seq<Conversation>, active: string): Header {
    match Find(convs, active)
    case Some(c) => Header(c.title, Some(|c.participants|))
    case None => Header(NoConversationTitle, None)
  }

  /** Position `i` holds the first conversation with id `id`. */
  predicate FirstWithId(convs: seq<Conversation>, id: string, i: int) {
    0 <= i < |convs| && convs[i].id == id && forall j :: 0 <= j < i ==> convs[j].id != id
  }

  /**
   * The header names the first conversation with the active id and counts its
   * participants; when no conversation has that id it asks for a selection
   * and shows no count.
   */
  lemma HeaderShowsActive(convs: seq<Conversation>, active: string)
    ensures var h := RenderHeader(convs, active);
      && (h.participants.None? <==> forall i :: 0 <= i < |convs| ==> convs[i].id != active)
      && (h.participants.None? ==> h.title == NoConversationTitle)
      && (forall i :: FirstWithId(convs, active, i) ==> h == Header(convs[i].title, Some(|convs[i].participants|)))
  {
    var r := Find(convs, active);
    if r.Some? {
      var k :| 0 <= k < |convs| && convs[k] == r.value && r.value.id == active
        && forall j :: 0 <= j < k ==> convs[j].id != active;
      forall i | FirstWithId(convs, active, i)
        ensures i == k
      {
      }
    }
  }

  /** On mount the header shows the first conversation, or asks for one when there are none. */
  lemma InitialHeader(convs: seq<Conversation>)
    ensures convs == [] ==> RenderHeader(convs, InitialActive(convs)) == Header(NoConversationTitle, None)
    ensures convs != [] ==>
      RenderHeader(convs, InitialActive(convs)) == Header(convs[0].title, Some(|convs[0].participants|))
  {
  }

  /** The props each bubble gets: own exactly when the current user sent it, an avatar otherwise, no sender and no retry. */
  function BubblePropsFor(m: Message, currentUserId: string): MessageBubble.BubbleProps {
    MessageBubble.BubbleProps(m, m.senderId == currentUserId, m.senderId != currentUserId, None, false)
  }

  function RenderBubbles(msgs: seq<Message>, currentUserId: string): (r: seq<MessageBubble.BubbleView>)
    ensures |r| == |msgs|
    ensures forall i :: 0 <= i < |msgs| ==> r[i] == MessageBubble.RenderBubble(BubblePropsFor(msgs[i], currentUserId))
  {
    if msgs == [] then [] else [MessageBubble.RenderBubble(BubblePropsFor(msgs[0], currentUserId))] + RenderBubbles(msgs[1..], currentUserId)
  }

  /** The message area: the empty-state note, or the bubbles. */
  datatype MessageArea = EmptyState | Bubbles(bubbles: seq<MessageBubble.BubbleView>)

  function RenderMessages(msgs: seq<Message>, active: string, currentUserId: string): MessageArea {
    var shown := ActiveMessages(msgs, active);
    if shown == [] then EmptyState else Bubbles(RenderBubbles(shown, currentUserId))
  }

  /**
   * The empty-state note appears exactly when the active conversation has no
   * message; otherwise there is one bubble per shown message, with the status
   * exactly on the current user's messages, the avatar exactly on the others',
   * no sender name and no retry button.
   */
  lemma MessageAreaMeaning(msgs: seq<Message>, active: string, me: string)
    ensures RenderMessages(msgs, active, me).EmptyState? <==> forall m :: m in msgs ==> m.conversationId != active
    ensures var a := RenderMessages(msgs, active, me);
      var shown := ActiveMessages(msgs, active);
      a.Bubbles? ==>
        && |a.bubbles| == |shown|
        && forall i :: 0 <= i < |shown| ==>
          && (a.bubbles[i].status.Some? <==> shown[i].senderId == me)
          && (a.bubbles[i].avatar.Some? <==> shown[i].senderId != me)
          && a.bubbles[i].senderName.None?
          && a.bubbles[i].retry.None?
  {
    var shown := ActiveMessages(msgs, active);
    ActiveMessagesExact(msgs, active);
    if shown != [] {
      assert shown[0] in shown;
    }
    forall i | 0 <= i < |shown| ensures var b := MessageBubble.RenderBubble(BubblePropsFor(shown[i], me));
      && (b.status.Some? <==> shown[i].senderId == me)
      && (b.avatar.Some? <==> shown[i].senderId != me)
      && b.senderName.None? && b.retry.None?
    {
      MessageBubble.BubbleVisibility(BubblePropsFor(shown[i], me));
    }
  }

  /** The input's props: disabled exactly while no conversation is active, default length cap. */
  function InputProps(active: string): MessageInput.Props {
    MessageInput.Props(active == "", MessageInput.DefaultMaxLength)
  }

  /** A call to `onSendMessage`. */
  datatype SendCall = SendCall(content: string, conversationId: string)

  /**
   * The window's state and the calls it has made to its callbacks; `hasOnSelect` says
   * whether the optional `onSelectConversation` was supplied, and `selections` records
   * its calls.
   */
  datatype WindowState = WindowState(active: string, hasOnSelect: bool, selections: seq<string>, sends: seq<SendCall>)

  datatype WindowEvent = SelectConversation(id: string) | SendContent(content: string)

  /** The state when the window mounts with these conversations. */
  function Initial(convs: seq<Conversation>, hasOnSelect: bool): WindowState {
    WindowState(InitialActive(convs), hasOnSelect, [], [])
  }

  /**
   * `handleSelectConversation` makes `id` active and reports it to
   * `onSelectConversation` when one was supplied; `handleSend` forwards the content
   * with the active id, and drops it when none is active.
   */
  function Step(s: WindowState, e: WindowEvent): WindowState {
    match e
    case SelectConversation(id) =>
      s.(active := id, selections := if s.hasOnSelect then s.selections + [id] else s.selections)
    case SendContent(c) =>
      if s.active != "" then s.(sends := s.sends + [SendCall(c, s.active)]) else s
  }

  function Run(s: WindowState, events: seq<WindowEvent>): WindowState
    decreases |events|
  {
    if events == [] then s else Run(Step(s, events[0]), events[1..])
  }

  /** A send is forwarded exactly when a conversation is active, and then to that conversation. */
  lemma SendForwardsIffActive(s: WindowState, c: string)
    ensures Step(s, SendContent(c)).sends == s.sends + [SendCall(c, s.active)] <==> s.active != ""
    ensures s.active == "" ==> Step(s, SendContent(c)) == s
    ensures Step(s, SendContent(c)).active == s.active && Step(s, SendContent(c)).selections == s.selections
  {
    if s.active == "" {
      assert |s.sends + [SendCall(c, s.active)]| != |s.sends|;
    }
  }

  /** After selecting a conversation, a send goes to that conversation (unless its id is empty). */
  lemma SelectThenSend(s: WindowState, id: string, c: string)
    ensures var t := Step(Step(s, SelectConversation(id)), SendContent(c));
      && t.active == id
      && t.selections == s.selections + (if s.hasOnSelect then [id] else [])
      && t.sends == s.sends + (if id != "" then [SendCall(c, id)] else [])
  {
  }

  /** The input is disabled exactly when a send from it would be dropped. */
  lemma InputDisabledIffDropped(s: WindowState, c: string)
    ensures InputProps(s.active).disabled <==> Step(s, SendContent(c)) == s
  {
    SendForwardsIffActive(s, c);
  }

  /**
   * Whatever the input box does, every content it passes to `onSend` is
   * forwarded: the disabled input sends nothing while no conversation is
   * active, and otherwise the window passes the trimmed text on with the
   * active id.
   */
  lemma InputSendReachesWindow(s: WindowState, text: string, e: MessageInput.InputEvent)
    ensures var o := MessageInput.Handle(InputProps(s.active), text, e);
      o.sent.Some? ==>
        && s.active != ""
        && Step(s, SendContent(o.sent.value)).sends == s.sends + [SendCall(o.sent.value, s.active)]
        && o.sent.value == Text.Trim(text) && o.sent.value != ""
  {
  }

  /** While no conversation is active, no sequence of input events ever calls `onSend`. */
  lemma NoConversationNoSend(input: MessageInput.Session, events: seq<MessageInput.InputEvent>)
    ensures MessageInput.Run(InputProps(""), input, events).sent == input.sent
  {
    MessageInput.DisabledNeverSends(InputProps(""), input, events);
  }

  /** Every forwarded send names a conversation. */
  predicate Inv(s: WindowState) {
    forall i :: 0 <= i < |s.sends| ==> s.sends[i].conversationId != ""
  }

  lemma StepKeepsInv(s: WindowState, e: WindowEvent)
    requires Inv(s)
    ensures Inv(Step(s, e))
    ensures Step(s, e).sends[..|s.sends|] == s.sends
  {
  }

  /** From mounting on, every send the window forwards names a conversation, and earlier calls are never changed. */
  lemma {:induction false} RunKeepsInv(s: WindowState, events: seq<WindowEvent>)
    requires Inv(s)
    ensures Inv(Run(s, events))
    ensures |Run(s, events).sends| >= |s.sends| && Run(s, events).sends[..|s.sends|] == s.sends
    decreases |events|
  {
    if events != [] {
      var s' := Step(s, events[0]);
      StepKeepsInv(s, events[0]);
      RunKeepsInv(s', events[1..]);
      var r := Run(s', events[1..]);
      assert r.sends[..|s.sends|] == r.sends[..|s'.sends|][..|s.sends|];
    }
  }

  lemma MountedInv(convs: seq<Conversation>, hasOnSelect: bool, events: seq<WindowEvent>)
    ensures Inv(Run(Initial(convs, hasOnSelect), events))
  {
    RunKeepsInv(Initial(convs, hasOnSelect), events);
  }

  /** The window's `activeConversation` state and the calls it made. */
  class Window {
    var active: string
    const hasOnSelect: bool
    var selections: seq<string>
    var sends: seq<SendCall>

    function State(): WindowState
      reads this
    {
      WindowState(active, hasOnSelect, selections, sends)
    }

    ghost predicate Valid()
      reads this
    {
      Inv(State())
    }

    /** Mounting with the given conversations. */
    constructor (convs: seq<Conversation>, hasOnSelect: bool)
      ensures Valid() && State() == Initial(convs, hasOnSelect)
    {
      this.hasOnSelect := hasOnSelect;
      active := if convs == [] then "" else convs[0].id;
      selections := [];
      sends := [];
    }

    /** `handleSelectConversation`. */
    method HandleSelectConversation(id: string)
      requires Valid()
      modifies this
      ensures Valid()
      ensures State() == Step(old(State()), SelectConversation(id))
    {
      active := id;
      if hasOnSelect {
        selections := selections + [id];
      }
    }

    /** `handleSend`. */
    method HandleSend(content: string)
      requires Valid()
      modifies this
      ensures Valid()
      ensures State() == Step(old(State()), SendContent(content))
    {
      if active != "" {
        sends := sends + [SendCall(content, active)];
      }
    }
  }
}
