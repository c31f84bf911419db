/**
 * The message input box: a text buffer that refuses edits longer than the
 * length cap, a send gate on the trimmed text and the `disabled` prop, Enter
 * (without Shift) as a shortcut for send, and the remaining-characters
 * counter. The `onSend` callback is recorded as the list of contents it was
 * called with.
 */
module MessageInput {
  import opened Wrappers
  import opened Text

  const DefaultMaxLength := 2000

  /** The counter appears once fewer than this many characters remain. */
  const NearLimitMargin := 100

  /** The props that decide behaviour; `maxLength` is whatever number the caller passed. */
  datatype Props = Props(disabled: bool, maxLength: int)

  /** The props when the caller sets neither. */
  const DefaultProps := Props(false, DefaultMaxLength)

  /** What the user does to the box. */
  datatype InputEvent =
    | Change(value: string)
    | SendClick
    | KeyDown(key: string, shiftKey: bool)

  /** The text after an event, what `onSend` received (if it was called), and whether the key's default was prevented. */
  datatype Outcome = Outcome(text: string, sent: Option<string>, prevented: bool)

  /** `handleSend` does something: the trimmed text is non-empty and the box is enabled. */
  predicate WouldSend(p: Props, text: string) {
    Trim(text) != "" && !p.disabled
  }

  /** The send button's `disabled` attribute. */
  predicate SendButtonDisabled(p: Props, text: string) {
    p.disabled || Trim(text) == ""
  }

  /** `handleSend`: send the trimmed text and clear the box, or do nothing. */
  function Send(p: Props, text: string): Outcome {
    if WouldSend(p, text) then Outcome("", Some(Trim(text)), false)
    else Outcome(text, None, false)
  }

  /** `handleChange`: accept the new value only when it fits the cap. */
  function ChangeText(p: Props, text: string, value: string): string {
    if |value| <= p.maxLength then value else text
  }

  /** The box's response to one event. */
  function Handle(p: Props, text: string, e: InputEvent): Outcome {
    match e
    case Change(v) => Outcome(ChangeText(p, text, v), None, false)
    case SendClick => Send(p, text)
    case KeyDown(k, shift) =>
      if k == "Enter" && !shift then Send(p, text).(prevented := true)
      else Outcome(text, None, false)
  }

  /** An edit is taken exactly when it fits; otherwise the text stays as it was. */
  lemma ChangeAcceptedIffFits(p: Props, text: string, value: string)
    ensures Handle(p, text, Change(value)).text == value <==> |value| <= p.maxLength || value == text
    ensures |value| > p.maxLength ==> Handle(p, text, Change(value)).text == text
    ensures Handle(p, text, Change(value)).sent == None
  {
  }

  /**
   * Sending calls `onSend` exactly when the gate is open, with the trimmed text,
   * which is non-empty and has no whitespace at either end, and clears the box;
   * otherwise nothing is sent and the text is unchanged.
   */
  lemma SendGate(p: Props, text: string)
    ensures var o := Handle(p, text, SendClick);
      && (o.sent.Some? <==> WouldSend(p, text))
      && (o.sent.Some? ==>
            && o.sent.value == Trim(text) && o.text == ""
            && o.sent.value != "" && !IsSpace(o.sent.value[0]) && !IsSpace(o.sent.value[|o.sent.value| - 1]))
      && (o.sent.None? ==> o.text == text)
  {
  }

  /** What `onSend` receives is the text with the surrounding whitespace, and only that, removed. */
  lemma SentIsTextWithoutOuterSpace(p: Props, text: string)
    requires WouldSend(p, text)
    ensures var c := Handle(p, text, SendClick).sent.value;
      && Trim(c) == c
      && exists i, j :: 0 <= i <= j <= |text| && c == text[i..j] && AllSpace(text[..i]) && AllSpace(text[j..])
  {
    TrimIdempotent(text);
    TrimIsSlice(text);
  }

  /** Enter without Shift is a send that also prevents the newline; any other key, Shift+Enter included, changes nothing. */
  lemma EnterSends(p: Props, text: string, key: string, shift: bool)
    ensures key == "Enter" && !shift ==>
      Handle(p, text, KeyDown(key, shift)) == Handle(p, text, SendClick).(prevented := true)
    ensures !(key == "Enter" && !shift) ==>
      Handle(p, text, KeyDown(key, shift)) == Outcome(text, None, false)
  {
  }

  /** The send button is disabled exactly when clicking it would do nothing. */
  lemma ButtonDisabledIffNoop(p: Props, text: string)
    ensures SendButtonDisabled(p, text) <==> Handle(p, text, SendClick) == Outcome(text, None, false)
  {
  }

  /** Characters left before the cap. */
  function RemainingChars(p: Props, text: string): int {
    p.maxLength - |text|
  }

  /** The counter is shown exactly when fewer than 100 characters remain, and it shows that number. */
  function Counter(p: Props, text: string): (c: Option<int>)
    ensures c.Some? <==> RemainingChars(p, text) < NearLimitMargin
    ensures c.Some? ==> c.value == p.maxLength - |text| && c.value < NearLimitMargin
  {
    if RemainingChars(p, text) < NearLimitMargin then Some(RemainingChars(p, text)) else None
  }

  /** The box's one invariant: the text is empty or within the cap. */
  predicate Bounded(p: Props, text: string) {
    text == "" || |text| <= p.maxLength
  }

  /** Every event keeps the text within the cap. */
  lemma HandleKeepsBounded(p: Props, text: string, e: InputEvent)
    requires Bounded(p, text)
    ensures Bounded(p, Handle(p, text, e).text)
  {
  }

  /** Within the cap, with a non-negative cap, the remaining count is never negative. */
  lemma RemainingNonNegative(p: Props, text: string)
    requires Bounded(p, text) && p.maxLength >= 0
    ensures 0 <= RemainingChars(p, text) <= p.maxLength
  {
  }

  /** The text and the `onSend` calls after a sequence of events. */
  datatype Session = Session(text: string, sent: seq<string>)

  /** The session after one event: the new text, and the content `onSend` received appended to the calls. */
  function Step(p: Props, s: Session, e: InputEvent): Session {
    var o := Handle(p, s.text, e);
    Session(o.text, if o.sent.Some? then s.sent + [o.sent.value] else s.sent)
  }

  function Run(p: Props, s: Session, events: seq<InputEvent>): Session
    decreases |events|
  {
    if events == [] then s else Run(p, Step(p, s, events[0]), events[1..])
  }

  /** A sent content: non-empty and already trimmed. */
  predicate Sendable(c: string) {
    c != "" && Trim(c) == c
  }

  /** The session invariant: the text within the cap, every sent content non-empty and trimmed. */
  predicate SessionOk(p: Props, s: Session) {
    Bounded(p, s.text) && forall i :: 0 <= i < |s.sent| ==> Sendable(s.sent[i])
  }

  /** Appending a sendable content keeps every call sendable. */
  lemma AppendSendable(sent: seq<string>, c: string)
    requires forall i :: 0 <= i < |sent| ==> Sendable(sent[i])
    requires Sendable(c)
    ensures forall i :: 0 <= i < |sent + [c]| ==> Sendable((sent + [c])[i])
  {
  }

  /** One event keeps the session invariant and only ever adds calls. */
  lemma StepKeepsInvariant(p: Props, s: Session, e: InputEvent)
    requires SessionOk(p, s)
    ensures SessionOk(p, Step(p, s, e))
    ensures |Step(p, s, e).sent| >= |s.sent| && Step(p, s, e).sent[..|s.sent|] == s.sent
  {
    var o := Handle(p, s.text, e);
    HandleKeepsBounded(p, s.text, e);
    if o.sent.Some? {
      assert o.sent.value == Trim(s.text) && Trim(s.text) != "";
      TrimIdempotent(s.text);
      AppendSendable(s.sent, o.sent.value);
      assert (s.sent + [o.sent.value])[..|s.sent|] == s.sent;
    }
  }

  /**
   * Any sequence of events keeps the session invariant, and the calls made
   * earlier stay as they were: `onSend` calls are only ever added.
   */
  lemma {:induction false} RunKeepsInvariant(p: Props, s: Session, events: seq<InputEvent>)
    requires SessionOk(p, s)
    ensures SessionOk(p, Run(p, s, events))
    ensures |Run(p, s, events).sent| >= |s.sent| && Run(p, s, events).sent[..|s.sent|] == s.sent
    decreases |events|
  {
    if events != [] {
      var s' := Step(p, s, events[0]);
      StepKeepsInvariant(p, s, events[0]);
      RunKeepsInvariant(p, s', events[1..]);
      var r := Run(p, s', events[1..]);
      assert r.sent[..|s.sent|] == r.sent[..|s'.sent|][..|s.sent|];
    }
  }

  /** From the empty box, every session keeps the text within the cap and sends only trimmed, non-empty contents. */
  lemma FreshSessionOk(p: Props, events: seq<InputEvent>)
    ensures SessionOk(p, Run(p, Session("", []), events))
  {
    RunKeepsInvariant(p, Session("", []), events);
  }

  /** A disabled box never calls `onSend`, whatever the user does. */
  lemma {:induction false} DisabledNeverSends(p: Props, s: Session, events: seq<InputEvent>)
    requires p.disabled
    ensures Run(p, s, events).sent == s.sent
    decreases |events|
  {
    if events != [] {
      DisabledNeverSends(p, Step(p, s, events[0]), events[1..]);
    }
  }

  /** The box with its `text` state; `sent` records the calls to `onSend`. */
  class InputBox {
    const props: Props
    var text: string
    var sent: seq<string>

    ghost predicate Valid()
      reads this
    {
      SessionOk(props, Session(text, sent))
    }

    /** Mounting: an empty box. */
    constructor (p: Props)
      ensures Valid() && props == p && text == "" && sent == []
    {
      props := p;
      text := "";
      sent := [];
    }

    /** `handleChange`. */
    method HandleChange(value: string)
      requires Valid()
      modifies this
      ensures Valid()
      ensures Session(text, sent) == Step(props, old(Session(text, sent)), Change(value))
    {
      if |value| <= props.maxLength {
        text := value;
      }
    }

    /** `handleSend`. */
    method HandleSend()
      requires Valid()
      modifies this
      ensures Valid()
      ensures Session(text, sent) == Step(props, old(Session(text, sent)), SendClick)
    {
      var trimmed := Trim(text);
      ghost var before := Session(text, sent);
      StepKeepsInvariant(props, before, SendClick);
      if trimmed != "" && !props.disabled {
        sent := sent + [trimmed];
        text := "";
      }
    }

    /** `handleKeyDown`: reports whether the default (a newline) was prevented. */
    method HandleKeyDown(key: string, shiftKey: bool) returns (prevented: bool)
      requires Valid()
      modifies this
      ensures Valid()
      ensures Session(text, sent) == Step(props, old(Session(text, sent)), KeyDown(key, shiftKey))
      ensures prevented == Handle(props, old(text), KeyDown(key, shiftKey)).prevented
    {
      prevented := false;
      if key == "Enter" && !shiftKey {
        prevented := true;
        HandleSend();
      }
    }
  }
}
