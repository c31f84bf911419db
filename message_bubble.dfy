/**
 * What one message bubble shows: the class tokens of the row and the bubble,
 * the sender's avatar and name for other people's messages, the content by
 * message type, the delivery status icon for one's own messages, and the retry
 * button for failed ones. The time line (`Intl` formatting) is not modelled.
 */
module MessageBubble {
  import opened Wrappers
  import opened Text
  import opened Seqs
  import opened ChatTypes

  const Hourglass: char := 0x23F3 as char
  const CheckMark: char := 0x2713 as char
  const Warning: char := 0x26A0 as char

  /** `statusIcons`: one icon per status; delivered and read share the double check mark. */
  function StatusIcon(st: MessageStatus): (icon: string)
    ensures |icon| == if st.Delivered? || st.Read? then 2 else 1
  {
    match st
    case Sending => [Hourglass]
    case Sent => [CheckMark]
    case Delivered => [CheckMark, CheckMark]
    case Read => [CheckMark, CheckMark]
    case Failed => [Warning]
  }

  /** The icon table tells the statuses apart except delivered and read. */
  lemma StatusIconsDistinct(a: MessageStatus, b: MessageStatus)
    ensures StatusIcon(a) == StatusIcon(b) <==> a == b || ((a.Delivered? || a.Read?) && (b.Delivered? || b.Read?))
  {
    if StatusIcon(a) == StatusIcon(b) {
      assert StatusIcon(a)[0] == StatusIcon(b)[0];
    }
  }

  /** The status's name as the `MessageStatus` string union spells it. */
  function StatusName(st: MessageStatus): string {
    match st
    case Sending => "sending"
    case Sent => "sent"
    case Delivered => "delivered"
    case Read => "read"
    case Failed => "failed"
  }

  /** Distinct statuses get distinct names, so the status class and title identify the status. */
  lemma StatusNameInjective(a: MessageStatus, b: MessageStatus)
    requires StatusName(a) == StatusName(b)
    ensures a == b
  {
  }

  const BubbleToken := "message-bubble"
  const OwnToken := "message-own"
  const OtherToken := "message-other"
  const FailedToken := "message-failed"

  /** `Boolean` on a string: it is not empty. */
  predicate NonEmpty(t: string) {
    t != ""
  }

  /** The three candidate class tokens, the third empty unless the message failed. */
  function BubbleTokens(isOwn: bool, st: MessageStatus): seq<string> {
    [BubbleToken, if isOwn then OwnToken else OtherToken, if st == Failed then FailedToken else ""]
  }

  /** `bubbleClass`: the non-empty tokens joined by single spaces. */
  function BubbleClass(isOwn: bool, st: MessageStatus): string {
    Join(Filter(BubbleTokens(isOwn, st), NonEmpty), " ")
  }

  /** The class tokens have no spaces and none is empty. */
  lemma TokensAreWords()
    ensures ' ' !in BubbleToken && ' ' !in OwnToken && ' ' !in OtherToken && ' ' !in FailedToken
    ensures BubbleToken != "" && OwnToken != "" && OtherToken != "" && FailedToken != ""
    ensures OwnToken != OtherToken && OwnToken != FailedToken && OtherToken != FailedToken
    ensures BubbleToken != OwnToken && BubbleToken != OtherToken && BubbleToken != FailedToken
  {
    assert OwnToken[9] != OtherToken[9] && OwnToken[9] != FailedToken[9] && OtherToken[9] != FailedToken[9];
    assert BubbleToken[9] != OwnToken[9] && BubbleToken[9] != OtherToken[9] && BubbleToken[9] != FailedToken[9];
  }

  /** Dropping empty tokens from two non-empty ones and a third. */
  lemma FilterThree(a: string, b: string, c: string)
    requires a != "" && b != ""
    ensures Filter([a, b, c], NonEmpty) == if c == "" then [a, b] else [a, b, c]
  {
    assert [c][1..] == [];
    assert Filter([c], NonEmpty) == if c == "" then [] else [c];
    assert [b, c][1..] == [c];
    assert Filter([b, c], NonEmpty) == [b] + Filter([c], NonEmpty);
    assert [a, b, c][1..] == [b, c];
    assert Filter([a, b, c], NonEmpty) == [a] + Filter([b, c], NonEmpty);
  }

  /** Joining two or three words with spaces. */
  lemma JoinWords(a: string, b: string, c: string)
    ensures Join([a, b], " ") == a + " " + b
    ensures Join([a, b, c], " ") == a + " " + b + " " + c
  {
    assert [a, b][1..] == [b];
    assert [a, b, c][1..] == [b, c] && [b, c][1..] == [c];
    assert Join([c], " ") == c;
    assert Join([b, c], " ") == b + " " + c;
    assert Join([a, b, c], " ") == a + " " + Join([b, c], " ");
    assert a + " " + (b + " " + c) == a + " " + b + " " + c;
  }

  /**
   * The class string, spelled out: `message-bubble`, then `message-own` or
   * `message-other`, then ` message-failed` exactly for a failed message.
   */
  lemma BubbleClassSpelledOut(isOwn: bool, st: MessageStatus)
    ensures var own := if isOwn then OwnToken else OtherToken;
      BubbleClass(isOwn, st)
        == if st == Failed then BubbleToken + " " + own + " " + FailedToken else BubbleToken + " " + own
  {
    TokensAreWords();
    var own := if isOwn then OwnToken else OtherToken;
    var third := if st == Failed then FailedToken else "";
    FilterThree(BubbleToken, own, third);
    JoinWords(BubbleToken, own, third);
  }

  /** Splitting the class string at spaces gives back the kept tokens, in order. */
  lemma BubbleClassTokens(isOwn: bool, st: MessageStatus)
    ensures Split(BubbleClass(isOwn, st), ' ')
      == [BubbleToken, if isOwn then OwnToken else OtherToken] + (if st == Failed then [FailedToken] else [])
  {
    BubbleClassSpelledOut(isOwn, st);
    TokensAreWords();
    var own := if isOwn then OwnToken else OtherToken;
    if st == Failed {
      SplitThree(BubbleToken, own, FailedToken, ' ');
    } else {
      SplitTwo(BubbleToken, own, ' ');
    }
  }

  /** Two words joined by the separator split back into the two. */
  lemma SplitTwo(a: string, b: string, sep: char)
    requires sep !in a && sep !in b
    ensures Split(a + [sep] + b, sep) == [a, b]
  {
    SplitWords(a, sep, b);
    SplitWord(b, sep);
  }

  /** Three words joined by the separator split back into the three. */
  lemma SplitThree(a: string, b: string, c: string, sep: char)
    requires sep !in a && sep !in b && sep !in c
    ensures Split(a + [sep] + b + [sep] + c, sep) == [a, b, c]
  {
    assert a + [sep] + b + [sep] + c == a + [sep] + (b + [sep] + c);
    SplitWords(a, sep, b + [sep] + c);
    SplitTwo(b, c, sep);
  }

  /** The row's class: `message-row ` and `message-row-own` for one's own message (a trailing space otherwise). */
  function RowClass(isOwn: bool): string {
    "message-row " + (if isOwn then "message-row-own" else "")
  }

  /** The bubble's avatar: the sender's picture at a non-empty address, or a one-letter placeholder. */
  datatype BubbleAvatar = SenderImage(src: string, alt: string) | SenderInitial(text: string)

  /** The content element by message type; a file message has none. */
  datatype Content = TextPara(text: string) | SharedImage(src: string) | SystemPara(text: string) | NoContent

  /** The status indicator: its class, its title and its icon. */
  datatype StatusView = StatusView(className: string, title: string, icon: string)

  /** The props that decide what a bubble shows; `hasRetry` says whether `onRetry` was passed. */
  datatype BubbleProps = BubbleProps(
    message: Message,
    isOwn: bool,
    showAvatar: bool,
    sender: Option<ChatUser>,
    hasRetry: bool)

  /** What one bubble shows; `retry` is the id the retry button passes to `onRetry`. */
  datatype BubbleView = BubbleView(
    rowClass: string,
    avatar: Option<BubbleAvatar>,
    bubbleClass: string,
    senderName: Option<string>,
    content: Content,
    status: Option<StatusView>,
    retry: Option<string>)

  /** The avatar for a sender, or for no sender at all (`?`). */
  function AvatarFor(sender: Option<ChatUser>): (a: BubbleAvatar)
    ensures a.SenderImage? <==> sender.Some? && sender.value.avatar.Some? && sender.value.avatar.value != ""
    ensures a.SenderInitial? && sender.None? ==> a.text == "?"
    ensures a.SenderInitial? && sender.Some? ==> a.text == FirstUpper(sender.value.name)
  {
    if sender.Some? && sender.value.avatar.Some? && sender.value.avatar.value != "" then
      SenderImage(sender.value.avatar.value, sender.value.name)
    else
      var name := if sender.Some? then sender.value.name else "?";
      SenderInitial(FirstUpper(name))
  }

  function ContentFor(m: Message): Content {
    match m.kind
    case TextKind => TextPara(m.content)
    case ImageKind => SharedImage(m.content)
    case SystemKind => SystemPara(m.content)
    case FileKind => NoContent
  }

  /** The whole bubble. */
  function RenderBubble(p: BubbleProps): BubbleView {
    var m := p.message;
    BubbleView(
      RowClass(p.isOwn),
      if p.showAvatar && !p.isOwn then Some(AvatarFor(p.sender)) else None,
      BubbleClass(p.isOwn, m.status),
      if !p.isOwn && p.sender.Some? then Some(p.sender.value.name) else None,
      ContentFor(m),
      if p.isOwn then Some(StatusView("message-status status-" + StatusName(m.status), StatusName(m.status), StatusIcon(m.status))) else None,
      if m.status == Failed && p.hasRetry then Some(m.id) else None)
  }

  /**
   * The visibility rules: the status only for one's own messages, the avatar only
   * when asked for and not one's own, the sender's name only for others with a sender,
   * and the retry button exactly for a failed message with a retry callback, passing its id.
   */
  lemma BubbleVisibility(p: BubbleProps)
    ensures var v := RenderBubble(p);
      && (v.status.Some? <==> p.isOwn)
      && (v.status.Some? ==> v.status.value.icon == StatusIcon(p.message.status))
      && (v.avatar.Some? <==> p.showAvatar && !p.isOwn)
      && (v.senderName.Some? <==> !p.isOwn && p.sender.Some?)
      && (v.retry.Some? <==> p.message.status == Failed && p.hasRetry)
      && (v.retry.Some? ==> v.retry.value == p.message.id)
  {
  }

  /** Text, image and system messages show their content; a file message shows none. */
  lemma ContentByKind(p: BubbleProps)
    ensures var c := RenderBubble(p).content;
      && (c.NoContent? <==> p.message.kind == FileKind)
      && (c.TextPara? ==> c.text == p.message.content)
      && (c.SharedImage? ==> c.src == p.message.content)
      && (c.SystemPara? ==> c.text == p.message.content)
  {
  }

  /** A placeholder is one upper-cased letter, or nothing for a sender with an empty name. */
  lemma AvatarPlaceholder(p: BubbleProps)
    requires p.showAvatar && !p.isOwn
    ensures RenderBubble(p).avatar.Some?
    ensures var a := RenderBubble(p).avatar.value;
      a.SenderInitial? ==> |a.text| <= 1 && (a.text == "" <==> p.sender.Some? && p.sender.value.name == "")
  {
  }

  /** The failed marker and the tokens of one's own and others' bubbles. */
  lemma BubbleClassMarks(isOwn: bool, st: MessageStatus)
    ensures var tokens := Split(BubbleClass(isOwn, st), ' ');
      && (FailedToken in tokens <==> st == Failed)
      && (OwnToken in tokens <==> isOwn)
      && (OtherToken in tokens <==> !isOwn)
      && BubbleToken in tokens
  {
    BubbleClassTokens(isOwn, st);
    TokensAreWords();
    TokenMembership(BubbleToken, OwnToken, OtherToken, FailedToken, isOwn, st == Failed);
  }

  /** Membership in the kept tokens, for any four distinct tokens. */
  lemma TokenMembership(b: string, o: string, t: string, f: string, isOwn: bool, failed: bool)
    requires b != o && b != t && b != f && o != t && o != f && t != f
    ensures var ts := [b, if isOwn then o else t] + (if failed then [f] else []);
      && (f in ts <==> failed)
      && (o in ts <==> isOwn)
      && (t in ts <==> !isOwn)
      && b in ts
  {
    var ts := [b, if isOwn then o else t] + (if failed then [f] else []);
    assert ts[0] == b;
  }
}
