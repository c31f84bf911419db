/**
 * The decisions the conversation list makes: which conversations the search
 * query keeps, how long ago the last message was, and what each item shows
 * (avatar or placeholder, preview text, unread badge, active mark).
 * The current time is a parameter; a date is integer milliseconds.
 */
module ConversationList {
  import opened Wrappers
  import opened Text
  import opened Seqs
  import opened ChatTypes
  import opened Formatters

  /**
   * The bucket `formatRelativeTime` picks for `diff` ms:
   * minutes are `Math.floor(diff / 60000)`, hours are `Math.floor(minutes / 60)`
   * and days are `Math.floor(hours / 24)` (Dafny's division floors for positive divisors).
   */
  function RelativeBucket(diff: int): Elapsed {
    var minutes := diff / 60000;
    var hours := minutes / 60;
    var days := hours / 24;
    if minutes < 1 then JustNow
    else if minutes < 60 then MinutesAgo(minutes)
    else if hours < 24 then HoursAgo(hours)
    else if days < 7 then DaysAgo(days)
    else Older
  }

  /** Flooring twice is flooring once by the product: minutes of minutes are hours, hours of hours are days. */
  lemma NestedFloors(diff: int)
    ensures (diff / 60000) / 60 == diff / HourMs
    ensures ((diff / 60000) / 60) / 24 == diff / DayMs
  {
    var m := diff / 60000;
    var h := m / 60;
    assert diff == 60000 * m + diff % 60000;
    assert m == 60 * h + m % 60;
    assert diff == HourMs * h + (60000 * (m % 60) + diff % 60000);
    assert h / 24 * 24 + h % 24 == h;
    assert diff == DayMs * (h / 24) + (HourMs * (h % 24) + 60000 * (m % 60) + diff % 60000);
  }

  /**
   * The list's buckets are the formatter's: the same elapsed time lands in the same
   * bucket with the same count, so the two only differ in their labels.
   */
  lemma RelativeAgreesWithTimestamp(diff: int)
    ensures RelativeBucket(diff) == TimestampBucket(diff)
  {
    NestedFloors(diff);
  }

  /** A count followed by a one-letter unit, such as "5m". */
  function UnitLabel(n: nat, unit: char): (t: TimeText)
    requires unit == 'm' || unit == 'h' || unit == 'd'
    ensures t.Label? && t != Label("now")
  {
    var s := Decimal(n) + [unit];
    assert s[|s| - 1] == unit;
    Label(s)
  }

  /** `formatRelativeTime`, given the elapsed milliseconds. */
  function FormatRelativeTime(diff: int): (t: TimeText)
    ensures t == LocaleDate <==> diff >= 7 * DayMs
    ensures t == Label("now") <==> diff < MinuteMs
  {
    match RelativeBucket(diff)
    case JustNow => Label("now")
    case MinutesAgo(m) => UnitLabel(m, 'm')
    case HoursAgo(h) => UnitLabel(h, 'h')
    case DaysAgo(d) => UnitLabel(d, 'd')
    case Older =>
      RelativeAgreesWithTimestamp(diff);
      LocaleDate
  }

  /**
   * A label other than "now" is the count followed by one unit letter, and the
   * count read back from it is the floor of the elapsed time by that unit.
   */
  lemma RelativeLabelMeaning(diff: int)
    requires MinuteMs <= diff < 7 * DayMs
    ensures var t := FormatRelativeTime(diff);
      && t.Label? && |t.text| >= 2
      && var count := DecimalValue(t.text[..|t.text| - 1]);
      && var unit := t.text[|t.text| - 1];
      && (diff < HourMs ==> unit == 'm' && count == diff / MinuteMs)
      && (HourMs <= diff < DayMs ==> unit == 'h' && count == diff / HourMs)
      && (DayMs <= diff ==> unit == 'd' && count == diff / DayMs)
  {
    RelativeAgreesWithTimestamp(diff);
    var b := TimestampBucket(diff);
    var n: nat := if b.MinutesAgo? then b.minutes else if b.HoursAgo? then b.hours else b.days;
    DecimalRoundTrip(n);
    var t := FormatRelativeTime(diff);
    assert t.text[..|t.text| - 1] == Decimal(n);
  }

  /** The item labels the list shows for a few elapsed times. */
  lemma RelativeExamples()
    ensures FormatRelativeTime(30000) == Label("now")
    ensures FormatRelativeTime(5 * 60000) == Label("5m")
    ensures FormatRelativeTime(3 * HourMs) == Label("3h")
    ensures FormatRelativeTime(2 * DayMs) == Label("2d")
    ensures FormatRelativeTime(-5000) == Label("now")
  {
    assert RelativeBucket(5 * 60000) == MinutesAgo(5) && Decimal(5) == "5";
    assert RelativeBucket(3 * HourMs) == HoursAgo(3) && Decimal(3) == "3";
    assert RelativeBucket(2 * DayMs) == DaysAgo(2) && Decimal(2) == "2";
  }

  /**
   * The search test for one conversation, given the lowercased query: its lowercased
   * title contains the query, or it has a last message whose lowercased content does.
   */
  predicate MatchesQuery(c: Conversation, q: string) {
    Contains(Lower(c.title), q)
      || (c.lastMessage.Some? && Contains(Lower(c.lastMessage.value.content), q))
  }

  /**
   * `filteredConversations`: a query that trims to nothing shows every conversation;
   * otherwise the conversations matching the lowercased (untrimmed) query, in order.
   */
  function SearchFilter(convs: seq<Conversation>, query: string): seq<Conversation> {
    if Trim(query) == "" then convs
    else
      var q := Lower(query);
      Filter(convs, c => MatchesQuery(c, q))
  }

  /** A blank query, whitespace only, leaves the list exactly as it is. */
  lemma BlankQueryKeepsAll(convs: seq<Conversation>, query: string)
    requires AllSpace(query)
    ensures SearchFilter(convs, query) == convs
  {
    TrimEmptyIffAllSpace(query);
  }

  /**
   * A query with a non-whitespace character keeps, in their original order, exactly the
   * conversations that match it, each as often as it occurs in the list.
   */
  lemma SearchKeepsMatches(convs: seq<Conversation>, query: string)
    requires !AllSpace(query)
    ensures var r := SearchFilter(convs, query);
      && IsSubsequence(r, convs)
      && (forall c :: multiset(r)[c] == if MatchesQuery(c, Lower(query)) then multiset(convs)[c] else 0)
      && (forall c :: c in r <==> c in convs && MatchesQuery(c, Lower(query)))
  {
    TrimEmptyIffAllSpace(query);
    var q := Lower(query);
    var p := (c: Conversation) => MatchesQuery(c, q);
    FilterIsSubsequence(convs, p);
    FilterCount(convs, p);
    forall c ensures c in Filter(convs, p) <==> c in convs && MatchesQuery(c, q) {
      FilterMembership(convs, p, c);
    }
  }

  /** The search ignores the case of the query's ASCII letters. */
  lemma SearchIgnoresQueryCase(convs: seq<Conversation>, query: string)
    ensures SearchFilter(convs, Upper(query)) == SearchFilter(convs, query)
  {
    LowerUpper(query);
    TrimUpper(query);
  }

  /** Lowercasing forgets the case of ASCII letters. */
  lemma LowerUpper(s: string)
    ensures Lower(Upper(s)) == Lower(s)
  {
    forall i | 0 <= i < |s| ensures Lower(Upper(s))[i] == Lower(s)[i] {
      assert Upper(s)[i] == UpperChar(s[i]);
    }
  }

  /** Uppercasing turns no character into whitespace and no whitespace into anything else. */
  lemma UpperKeepsSpace(s: string)
    ensures AllSpace(Upper(s)) <==> AllSpace(s)
  {
    forall i | 0 <= i < |s| ensures IsSpace(Upper(s)[i]) <==> IsSpace(s[i]) {
      assert Upper(s)[i] == UpperChar(s[i]);
    }
  }

  /** Uppercasing the query keeps it blank or non-blank. */
  lemma TrimUpper(s: string)
    ensures Trim(Upper(s)) == "" <==> Trim(s) == ""
  {
    TrimEmptyIffAllSpace(s);
    TrimEmptyIffAllSpace(Upper(s));
    UpperKeepsSpace(s);
  }

  /** The unread badge: absent for no unread messages, capped at "99+", otherwise the count. */
  function UnreadBadge(unreadCount: int): (b: Option<string>)
    ensures b.Some? <==> unreadCount > 0
    ensures b == Some("99+") <==> unreadCount > 99
  {
    if unreadCount <= 0 then None
    else if unreadCount > 99 then Some("99+")
    else
      assert Decimal(unreadCount) != "99+" by {
        assert '0' <= Decimal(unreadCount)[|Decimal(unreadCount)| - 1] <= '9';
      }
      Some(Decimal(unreadCount))
  }

  /** A badge below the cap shows the count itself: reading it back gives the unread count. */
  lemma BadgeShowsCount(unreadCount: int)
    requires 0 < unreadCount <= 99
    ensures UnreadBadge(unreadCount).Some?
    ensures DecimalValue(UnreadBadge(unreadCount).value) == unreadCount
    ensures |UnreadBadge(unreadCount).value| <= 2
  {
    DecimalRoundTrip(unreadCount);
    if unreadCount >= 10 {
      assert Decimal(unreadCount) == Decimal(unreadCount / 10) + [DigitChar(unreadCount % 10)];
    }
  }

  /** What the avatar slot shows: the image at a non-empty avatar address, or a placeholder text. */
  datatype AvatarSlot = AvatarImage(src: string, alt: string) | PlaceholderText(text: string)

  /** The avatar slot: an image when the avatar is a non-empty string, else `#` for a group or the title's capital. */
  function AvatarFor(c: Conversation): (a: AvatarSlot)
    ensures a.AvatarImage? <==> c.avatar.Some? && c.avatar.value != ""
    ensures a.AvatarImage? ==> a.src == c.avatar.value && a.alt == c.title
    ensures a.PlaceholderText? && c.isGroup ==> a.text == "#"
    ensures a.PlaceholderText? && !c.isGroup ==> a.text == FirstUpper(c.title)
  {
    if c.avatar.Some? && c.avatar.value != "" then AvatarImage(c.avatar.value, c.title)
    else PlaceholderText(if c.isGroup then "#" else FirstUpper(c.title))
  }

  /** A placeholder is at most one character, and empty only for a non-group with an empty title. */
  lemma PlaceholderShape(c: Conversation)
    requires AvatarFor(c).PlaceholderText?
    ensures |AvatarFor(c).text| <= 1
    ensures AvatarFor(c).text == "" <==> !c.isGroup && c.title == ""
  {
  }

  const NoMessagesYet := "No messages yet"

  /** The preview line: the last message's content (even when empty), or "No messages yet" without one. */
  function PreviewText(c: Conversation): (t: string)
    ensures c.lastMessage.Some? ==> t == c.lastMessage.value.content
    ensures c.lastMessage.None? ==> t == NoMessagesYet
  {
    match c.lastMessage
    case Some(m) => m.content
    case None => NoMessagesYet
  }

  /** An item is marked active exactly when the list has an active id and it is the item's id. */
  predicate IsActive(c: Conversation, activeId: Option<string>) {
    activeId == Some(c.id)
  }

  /** What one list item shows. */
  datatype ItemView = ItemView(
    id: string,
    active: bool,
    avatar: AvatarSlot,
    title: string,
    time: Option<TimeText>,
    preview: string,
    badge: Option<string>)

  /** One `ConversationItem`, at time `now`. */
  function RenderItem(c: Conversation, activeId: Option<string>, now: int): (v: ItemView)
    ensures v.id == c.id && v.title == c.title
    ensures v.active <==> activeId == Some(c.id)
    ensures v.time.Some? <==> c.lastMessage.Some?
    ensures v.badge.Some? <==> c.unreadCount > 0
  {
    ItemView(
      c.id,
      IsActive(c, activeId),
      AvatarFor(c),
      c.title,
      if c.lastMessage.Some? then Some(FormatRelativeTime(now - c.lastMessage.value.timestamp)) else None,
      PreviewText(c),
      UnreadBadge(c.unreadCount))
  }

  /** The list body: the "No conversations found" line, or one item per shown conversation. */
  datatype ListView = NoneFound | Items(items: seq<ItemView>)

  /** The list for the given conversations, active id, search query and time. */
  function RenderList(convs: seq<Conversation>, activeId: Option<string>, query: string, now: int): (v: ListView)
    ensures v.NoneFound? <==> SearchFilter(convs, query) == []
    ensures v.Items? ==> |v.items| == |SearchFilter(convs, query)|
    ensures v.Items? ==> forall i :: 0 <= i < |v.items| ==>
      v.items[i] == RenderItem(SearchFilter(convs, query)[i], activeId, now)
  {
    var shown := SearchFilter(convs, query);
    if shown == [] then NoneFound
    else Items(seq(|shown|, i requires 0 <= i < |shown| => RenderItem(shown[i], activeId, now)))
  }

  /** No two entries of the list share an id. */
  predicate DistinctIds(s: seq<Conversation>) {
    forall i, j :: 0 <= i < |s| && 0 <= j < |s| && i != j ==> s[i].id != s[j].id
  }

  /** With distinct ids, at most one rendered item is marked active. */
  lemma AtMostOneActive(convs: seq<Conversation>, activeId: Option<string>, query: string, now: int)
    requires DistinctIds(convs)
    requires RenderList(convs, activeId, query, now).Items?
    ensures var items := RenderList(convs, activeId, query, now).items;
      forall i, j :: 0 <= i < |items| && 0 <= j < |items| && items[i].active && items[j].active ==> i == j
  {
    var shown := SearchFilter(convs, query);
    var items := RenderList(convs, activeId, query, now).items;
    DistinctIdsKept(convs, query);
    forall i, j | 0 <= i < |items| && 0 <= j < |items| && items[i].active && items[j].active
      ensures i == j
    {
      assert items[i].id == shown[i].id && items[j].id == shown[j].id;
    }
  }

  /** The search keeps distinct ids distinct. */
  lemma DistinctIdsKept(convs: seq<Conversation>, query: string)
    requires DistinctIds(convs)
    ensures DistinctIds(SearchFilter(convs, query))
  {
    if Trim(query) != "" {
      var q := Lower(query);
      FilterKeepsDistinct(convs, c => MatchesQuery(c, q));
    }
  }

  /** Putting an entry in front of a list without its id keeps ids distinct. */
  lemma ConsDistinct(c: Conversation, t: seq<Conversation>)
    requires DistinctIds(t)
    requires forall x :: x in t ==> x.id != c.id
    ensures DistinctIds([c] + t)
  {
    var r := [c] + t;
    forall i, j | 0 <= i < |r| && 0 <= j < |r| && i != j ensures r[i].id != r[j].id {
      if i == 0 { assert r[j] == t[j - 1]; }
      else if j == 0 { assert r[i] == t[i - 1]; }
      else { assert r[i] == t[i - 1] && r[j] == t[j - 1]; }
    }
  }

  /** Filtering keeps distinct ids distinct. */
  lemma {:induction false} FilterKeepsDistinct(convs: seq<Conversation>, p: Conversation -> bool)
    requires DistinctIds(convs)
    ensures DistinctIds(Filter(convs, p))
  {
    if convs != [] {
      var tail := convs[1..];
      assert DistinctIds(tail) by {
        forall i, j | 0 <= i < |tail| && 0 <= j < |tail| && i != j ensures tail[i].id != tail[j].id {
          assert tail[i] == convs[i + 1] && tail[j] == convs[j + 1];
        }
      }
      FilterKeepsDistinct(tail, p);
      var ft := Filter(tail, p);
      if p(convs[0]) {
        forall x | x in ft ensures x.id != convs[0].id {
          FilterMembership(tail, p, x);
          var k :| 0 <= k < |tail| && tail[k] == x;
          assert convs[k + 1] == x;
        }
        ConsDistinct(convs[0], ft);
      }
    }
  }
}
