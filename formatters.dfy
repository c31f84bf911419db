/**
 * The string formatters used by the components: relative-time bucketing of an
 * elapsed time, truncation with an ellipsis, removal of markup tags for previews,
 * and the `@mention` and URL rewriters that add markup around matches.
 */
module Formatters {
  import opened Text

  const MinuteMs := 60000
  const HourMs := 3600000
  const DayMs := 86400000

  /** The buckets `formatTimestamp` sorts an elapsed time into; `Older` falls to a locale date. */
  datatype Elapsed = JustNow | MinutesAgo(minutes: nat) | HoursAgo(hours: nat) | DaysAgo(days: nat) | Older

  /**
   * The bucket of an elapsed time of `diff` ms (negative for a date in the future).
   * Minutes, hours and days are each `Math.floor` of `diff` by their unit.
   */
  function TimestampBucket(diff: int): (b: Elapsed)
    ensures b == JustNow <==> diff < MinuteMs
    ensures b.MinutesAgo? <==> MinuteMs <= diff < HourMs
    ensures b.HoursAgo? <==> HourMs <= diff < DayMs
    ensures b.DaysAgo? <==> DayMs <= diff < 7 * DayMs
    ensures b == Older <==> 7 * DayMs <= diff
    ensures b.MinutesAgo? ==> 1 <= b.minutes < 60 && b.minutes * MinuteMs <= diff < (b.minutes + 1) * MinuteMs
    ensures b.HoursAgo? ==> 1 <= b.hours < 24 && b.hours * HourMs <= diff < (b.hours + 1) * HourMs
    ensures b.DaysAgo? ==> 1 <= b.days < 7 && b.days * DayMs <= diff < (b.days + 1) * DayMs
  {
    var minutes := diff / MinuteMs;
    var hours := diff / HourMs;
    var days := diff / DayMs;
    if minutes < 1 then JustNow
    else if minutes < 60 then MinutesAgo(minutes)
    else if hours < 24 then HoursAgo(hours)
    else if days < 7 then DaysAgo(days)
    else Older
  }

  /** A rendered time: a label, or the locale date string (left to `toLocaleDateString`). */
  datatype TimeText = Label(text: string) | LocaleDate

  /** `formatTimestamp`, given the elapsed milliseconds. */
  function FormatTimestamp(diff: int): TimeText {
    match TimestampBucket(diff)
    case JustNow => Label("just now")
    case MinutesAgo(m) => Label(Decimal(m) + "m ago")
    case HoursAgo(h) => Label(Decimal(h) + "h ago")
    case DaysAgo(d) => Label(Decimal(d) + "d ago")
    case Older => LocaleDate
  }

  /** The cases the test suite checks: now, five minutes ago, three hours ago. */
  lemma TimestampExamples()
    ensures FormatTimestamp(0) == Label("just now")
    ensures FormatTimestamp(5 * 60 * 1000) == Label("5m ago")
    ensures FormatTimestamp(3 * 3600 * 1000) == Label("3h ago")
    ensures FormatTimestamp(-1) == Label("just now")
  {
    assert TimestampBucket(5 * 60 * 1000) == MinutesAgo(5);
    assert Decimal(5) == "5";
    assert TimestampBucket(3 * 3600 * 1000) == HoursAgo(3);
    assert Decimal(3) == "3";
  }

  /**
   * `truncateText`: unchanged when it fits, otherwise `slice(0, maxLength - 3)` and an
   * ellipsis — so for a limit of at least 3 the first `maxLength - 3` characters and "...".
   */
  function TruncateText(text: string, maxLength: int): (r: string)
    ensures |text| <= maxLength ==> r == text
    ensures |text| > maxLength ==> r == text[..SliceEnd(|text|, maxLength - 3)] + "..."
    ensures |text| > maxLength >= 3 ==>
      |r| == maxLength && r[..maxLength - 3] == text[..maxLength - 3] && r[maxLength - 3..] == "..."
  {
    if |text| <= maxLength then text
    else SliceTo(text, maxLength - 3) + "..."
  }

  /** For a limit of at least 3 the result never exceeds the limit. */
  lemma TruncateBound(text: string, maxLength: int)
    requires maxLength >= 3
    ensures |TruncateText(text, maxLength)| <= maxLength
  {
  }

  /**
   * Below a limit of 3 the negative slice end counts from the back, so a text that
   * does not fit comes out longer than the limit.
   */
  lemma TruncateBelowThree(text: string, maxLength: int)
    requires maxLength < 3 && |text| > maxLength
    ensures |TruncateText(text, maxLength)| > maxLength
    ensures |TruncateText(text, maxLength)| == (if |text| + maxLength - 3 < 0 then 0 else |text| + maxLength - 3) + 3
  {
  }

  /** The test suite's three cases, and one limit below 3. */
  lemma TruncateExamples()
    ensures TruncateText("hello", 10) == "hello"
    ensures TruncateText("this is a long message", 10) == "this is..."
    ensures TruncateText("hello", 5) == "hello"
    ensures TruncateText("hello", 2) == "hell..."
  {
    assert "this is a long message"[..7] == "this is";
    assert "hello"[..4] == "hell";
  }

  /** No `<` is followed, anywhere later, by a `>`: the text holds no tag the stripper would remove. */
  predicate TagFree(s: string) {
    forall i, j :: 0 <= i < j < |s| && s[i] == '<' ==> s[j] != '>'
  }

  /** A character absent from a string is absent from each of its prefixes. */
  lemma AbsentFromPrefix(s: string, c: char, k: nat)
    requires k <= |s| && c !in s
    ensures c !in s[..k]
  {
    forall i | 0 <= i < k ensures s[..k][i] != c {
      assert s[..k][i] == s[i];
    }
  }

  /** A character absent from a string is absent from each of its suffixes. */
  lemma AbsentFromSuffix(s: string, c: char, k: nat)
    requires k <= |s| && c !in s
    ensures c !in s[k..]
  {
    forall i | 0 <= i < |s| - k ensures s[k..][i] != c {
      assert s[k..][i] == s[k + i];
    }
  }

  /** A suffix of a tag-free string is tag-free. */
  lemma TagFreeSuffix(s: string, k: nat)
    requires k <= |s| && TagFree(s)
    ensures TagFree(s[k..])
  {
    var t := s[k..];
    forall a, b | 0 <= a < b < |t| && t[a] == '<' ensures t[b] != '>' {
      assert t[a] == s[k + a] && t[b] == s[k + b];
    }
  }

  /** A prefix of a tag-free string is tag-free. */
  lemma TagFreePrefix(s: string, k: nat)
    requires k <= |s| && TagFree(s)
    ensures TagFree(s[..k])
  {
    var t := s[..k];
    forall a, b | 0 <= a < b < |t| && t[a] == '<' ensures t[b] != '>' {
      assert t[a] == s[a] && t[b] == s[b];
    }
  }

  /**
   * `replace(/<[^>]*>/g, "")`: scanning left to right, a `<` with a `>` somewhere after
   * it starts a tag that runs to the first such `>` and is removed; every other
   * character is kept.
   */
  function StripTags(s: string): (r: string)
    ensures |r| <= |s|
    decreases |s|
  {
    if s == [] then []
    else if s[0] == '<' && IndexOf(s, '>') < |s| then StripTags(s[IndexOf(s, '>') + 1..])
    else [s[0]] + StripTags(s[1..])
  }

  /** Stripping introduces no character. */
  lemma {:induction false} StripTagsAbsent(s: string, c: char)
    requires c !in s
    ensures c !in StripTags(s)
    decreases |s|
  {
    if s != [] {
      var k := IndexOf(s, '>');
      if s[0] == '<' && k < |s| {
        AbsentFromSuffix(s, c, k + 1);
        StripTagsAbsent(s[k + 1..], c);
      } else {
        AbsentFromSuffix(s, c, 1);
        StripTagsAbsent(s[1..], c);
      }
    }
  }

  /** Stripping leaves no tag behind. */
  lemma {:induction false} StripTagsTagFree(s: string)
    ensures TagFree(StripTags(s))
    decreases |s|
  {
    if s != [] {
      var k := IndexOf(s, '>');
      if s[0] == '<' && k < |s| {
        StripTagsTagFree(s[k + 1..]);
      } else {
        StripTagsTagFree(s[1..]);
        var rest := StripTags(s[1..]);
        var r := [s[0]] + rest;
        assert r == StripTags(s);
        if s[0] == '<' {
          assert '>' !in s;
          AbsentFromSuffix(s, '>', 1);
          StripTagsAbsent(s[1..], '>');
        }
        forall i, j | 0 <= i < j < |r| && r[i] == '<' ensures r[j] != '>' {
          assert r[j] == rest[j - 1];
          if i > 0 {
            assert r[i] == rest[i - 1];
          }
        }
      }
    }
  }

  /** Text without tags is left alone. */
  lemma {:induction false} StripTagsKeepsTagFree(s: string)
    requires TagFree(s)
    ensures StripTags(s) == s
    decreases |s|
  {
    if s != [] {
      TagFreeSuffix(s, 1);
      StripTagsKeepsTagFree(s[1..]);
      if s[0] == '<' {
        assert forall j :: 0 <= j < |s| ==> s[j] != '>';
        assert IndexOf(s, '>') == |s|;
      }
      assert s == [s[0]] + s[1..];
    }
  }

  /** Stripping twice is stripping once. */
  lemma StripTagsIdempotent(s: string)
    ensures StripTags(StripTags(s)) == StripTags(s)
  {
    StripTagsTagFree(s);
    StripTagsKeepsTagFree(StripTags(s));
  }

  /** A tag: `body` between angle brackets. */
  function Tag(body: string): string {
    "<" + body + ">"
  }

  /** A complete tag at the front is removed. */
  lemma StripSkipsTag(body: string, rest: string)
    requires '>' !in body
    ensures StripTags(Tag(body) + rest) == StripTags(rest)
  {
    var s := Tag(body) + rest;
    var k := IndexOf(s, '>');
    assert s[|body| + 1] == '>';
    forall j | 0 <= j <= |body| ensures s[j] != '>' {
      if j > 0 { assert s[j] == body[j - 1]; }
    }
    assert k == |body| + 1;
    assert s[k + 1..] == rest;
  }

  /** Characters other than `<` at the front are kept. */
  lemma {:induction false} StripKeepsText(t: string, rest: string)
    requires '<' !in t
    ensures StripTags(t + rest) == t + StripTags(rest)
    decreases |t|
  {
    if t != [] {
      var t' := t[1..];
      AbsentFromSuffix(t, '<', 1);
      StripKeepsText(t', rest);
      var s := t + rest;
      assert s[0] == t[0] && s[0] != '<';
      assert s[1..] == t' + rest;
      assert StripTags(s) == [t[0]] + (t' + StripTags(rest));
      assert [t[0]] + (t' + StripTags(rest)) == t + StripTags(rest);
    } else {
      assert t + rest == rest;
    }
  }

  /** A text, a tag, a text and a tag lose only the tags. */
  lemma StripAroundTags(open: string, a: string, close: string, b: string)
    requires '>' !in open && '>' !in close && '<' !in a
    ensures StripTags(Tag(open) + (a + (Tag(close) + b))) == a + StripTags(b)
  {
    StripSkipsTag(open, a + (Tag(close) + b));
    StripKeepsText(a, Tag(close) + b);
    StripSkipsTag(close, b);
  }

  const DefaultPreviewLength := 50

  /** `getMessagePreview`: tags removed, whitespace trimmed, then truncated. */
  function GetMessagePreview(content: string, maxLength: int): (r: string)
    ensures |Trim(StripTags(content))| <= maxLength ==> r == Trim(StripTags(content))
  {
    TruncateText(Trim(StripTags(content)), maxLength)
  }

  /** A preview never exceeds a limit of at least 3. */
  lemma PreviewBound(content: string, maxLength: int)
    requires maxLength >= 3
    ensures |GetMessagePreview(content, maxLength)| <= maxLength
  {
    TruncateBound(Trim(StripTags(content)), maxLength);
  }

  /** A preview holds no tag, whether it fits or is cut and ends in `...`. */
  lemma PreviewTagFree(content: string, maxLength: int)
    ensures TagFree(GetMessagePreview(content, maxLength))
  {
    var s := StripTags(content);
    StripTagsTagFree(content);
    var t := TrimStart(s);
    TagFreeSuffix(s, |s| - |t|);
    TagFreePrefix(t, |TrimEnd(t)|);
    var u := Trim(s);
    if |u| > maxLength {
      var k := SliceEnd(|u|, maxLength - 3);
      TagFreePrefix(u, k);
      var r := u[..k] + "...";
      forall i, j | 0 <= i < j < |r| && r[i] == '<' ensures r[j] != '>' {
        assert i < k;
        if j < k {
          assert r[i] == u[..k][i] && r[j] == u[..k][j];
        }
      }
    }
  }

  /** The test suite's preview input is a bold word, a closing tag and more text. */
  lemma ExampleMarkup(s: string)
    requires s == "<b>Hello</b> world"
    ensures s == Tag("b") + ("Hello" + (Tag("/b") + " world"))
    ensures "Hello" + " world" == "Hello world"
  {
  }

  /** The test suite's case: `"<b>Hello</b> world"` loses its tags. */
  lemma StripExample(s: string)
    requires s == "<b>Hello</b> world"
    ensures StripTags(s) == "Hello world"
  {
    ExampleMarkup(s);
    var w := " world";
    StripKeepsText(w, []);
    assert w + [] == w;
    StripAroundTags("b", "Hello", "/b", w);
  }

  /** The test suite's case: `"<b>Hello</b> world"` previews as `"Hello world"`. */
  lemma PreviewExample(s: string)
    requires s == "<b>Hello</b> world"
    ensures GetMessagePreview(s, DefaultPreviewLength) == "Hello world"
  {
    StripExample(s);
    var r := "Hello world";
    assert !IsSpace(r[0]) && !IsSpace(r[|r| - 1]);
    assert TrimStart(r) == r;
    assert TrimEnd(r) == r;
  }

  /**
   * The length of a `@(\w+)` match at the start of `s`: `@` and the maximal run of word
   * characters after it, or 0 when `s` does not start with `@` and a word character.
   */
  function MentionLength(s: string): (n: nat)
    ensures n <= |s|
    ensures n == 0 <==> !(|s| >= 2 && s[0] == '@' && IsWordChar(s[1]))
    ensures n != 1
  {
    if |s| >= 2 && s[0] == '@' && IsWordChar(s[1]) then 1 + SpanLength(s[1..], IsWordChar)
    else 0
  }

  /** A mention match is `@` followed by a maximal run of word characters. */
  lemma MentionLengthSpec(s: string)
    ensures var n := MentionLength(s);
      n > 0 ==> s[0] == '@' && (forall i :: 1 <= i < n ==> IsWordChar(s[i])) && (n == |s| || !IsWordChar(s[n]))
  {
    if MentionLength(s) > 0 {
      var k := SpanLength(s[1..], IsWordChar);
      assert forall i :: 1 <= i < 1 + k ==> s[i] == s[1..][i - 1];
      assert 1 + k < |s| ==> s[1 + k] == s[1..][k];
    }
  }

  /**
   * The mention rewrite with the span's opening and closing tag bodies as parameters:
   * each `@word`, scanning left to right, becomes `<open>@word<close>`.
   */
  function HighlightWith(s: string, open: string, close: string): string
    decreases |s|
  {
    if s == [] then []
    else
      var n := MentionLength(s);
      if n > 0 then Tag(open) + (s[..n] + (Tag(close) + HighlightWith(s[n..], open, close)))
      else [s[0]] + HighlightWith(s[1..], open, close)
  }

  /** The mention span's opening tag between its angle brackets, written in short pieces. */
  const MentionOpenBody := "span class=\"mention\"" + " style=\"color:#1976d2;" + "font-weight:500\""

  /** The markup `highlightMentions` wraps around `@word`. */
  function MentionSpan(word: string): string {
    Tag(MentionOpenBody) + "@" + word + Tag("/span")
  }

  /** `replace(/@(\w+)/g, span)`. */
  function HighlightMentions(s: string): string {
    HighlightWith(s, MentionOpenBody, "/span")
  }

  /** No `@` is followed by a word character. */
  predicate NoMention(s: string) {
    forall i :: 0 <= i < |s| - 1 && s[i] == '@' ==> !IsWordChar(s[i + 1])
  }

  /** Text with no `@` followed by a word character is unchanged. */
  lemma {:induction false} NoMentionUnchanged(s: string, open: string, close: string)
    requires NoMention(s)
    ensures HighlightWith(s, open, close) == s
    decreases |s|
  {
    if s != [] {
      assert MentionLength(s) == 0 by {
        if |s| >= 2 && s[0] == '@' { assert !IsWordChar(s[1]); }
      }
      assert NoMention(s[1..]) by {
        forall i | 0 <= i < |s[1..]| - 1 && s[1..][i] == '@' ensures !IsWordChar(s[1..][i + 1]) {
          assert s[1..][i] == s[i + 1] && s[1..][i + 1] == s[i + 2];
        }
      }
      NoMentionUnchanged(s[1..], open, close);
      assert s == [s[0]] + s[1..];
    }
  }

  /** `highlightMentions` leaves text without a mention unchanged. */
  lemma HighlightWithoutMention(s: string)
    requires NoMention(s)
    ensures HighlightMentions(s) == s
  {
    NoMentionUnchanged(s, MentionOpenBody, "/span");
  }

  /** Stripping a span made from a mention at the front leaves the mention. */
  lemma StripSpanAt(m: string, rest: string, open: string, close: string)
    requires MentionLength(m + rest) == |m| > 0
    requires '<' !in m && '>' !in open && '>' !in close
    ensures StripTags(HighlightWith(m + rest, open, close)) == m + StripTags(HighlightWith(rest, open, close))
  {
    HighlightAtMention(m, rest, open, close);
    StripAroundTags(open, m, close, HighlightWith(rest, open, close));
  }

  /** Stripping a character copied by the mention rewrite leaves the character. */
  lemma StripUnmentionedAt(c: char, rest: string, open: string, close: string)
    requires MentionLength([c] + rest) == 0 && c != '<'
    ensures StripTags(HighlightWith([c] + rest, open, close)) == [c] + StripTags(HighlightWith(rest, open, close))
  {
    assert ([c] + rest)[1..] == rest;
    StripKeepsText([c], HighlightWith(rest, open, close));
  }

  /** Highlighting only adds markup: stripping the tags gives back any text without `<`. */
  lemma {:induction false} MarkupOnlyWith(s: string, open: string, close: string)
    requires '<' !in s && '>' !in open && '>' !in close
    ensures StripTags(HighlightWith(s, open, close)) == s
    decreases |s|
  {
    if s != [] {
      var n := MentionLength(s);
      var k := if n > 0 then n else 1;
      var m, rest := s[..k], s[k..];
      assert s == m + rest;
      AbsentFromPrefix(s, '<', k);
      AbsentFromSuffix(s, '<', k);
      MarkupOnlyWith(rest, open, close);
      if n > 0 {
        StripSpanAt(m, rest, open, close);
      } else {
        assert m == [s[0]];
        StripUnmentionedAt(s[0], rest, open, close);
      }
    }
  }

  /** The span markup holds no `>` inside its tags. */
  lemma MentionTagsClosed()
    ensures '>' !in MentionOpenBody && '>' !in "/span"
  {
    assert '>' !in "span class=\"mention\"";
    assert '>' !in " style=\"color:#1976d2;";
    assert '>' !in "font-weight:500\"";
  }

  /** `highlightMentions` only adds markup: stripping tags gives back any text without `<`. */
  lemma MentionsAreMarkupOnly(s: string)
    requires '<' !in s
    ensures StripTags(HighlightMentions(s)) == s
  {
    MentionTagsClosed();
    MarkupOnlyWith(s, MentionOpenBody, "/span");
  }

  /** A first character other than `@` is copied. */
  lemma HighlightCopies(c: char, t: string, open: string, close: string)
    requires c != '@'
    ensures HighlightWith([c] + t, open, close) == [c] + HighlightWith(t, open, close)
  {
    var s := [c] + t;
    assert s[0] == c && s[1..] == t;
  }

  /** One step of copying: a character other than `@` in front of copied text is copied too. */
  lemma MentionFreeStep(c: char, t: string, rest: string, open: string, close: string)
    requires c != '@'
    requires HighlightWith(t + rest, open, close) == t + HighlightWith(rest, open, close)
    ensures HighlightWith([c] + (t + rest), open, close) == [c] + (t + HighlightWith(rest, open, close))
  {
    HighlightCopies(c, t + rest, open, close);
  }

  /** Text without `@` in front of the rest passes through unchanged. */
  lemma {:induction false} MentionFreePrefix(t: string, rest: string, open: string, close: string)
    requires '@' !in t
    ensures HighlightWith(t + rest, open, close) == t + HighlightWith(rest, open, close)
    decreases |t|
  {
    if t == [] {
      assert t + rest == rest;
    } else {
      var t' := t[1..];
      AbsentFromSuffix(t, '@', 1);
      MentionFreePrefix(t', rest, open, close);
      MentionFreeStep(t[0], t', rest, open, close);
      assert t == [t[0]] + t';
      Concat3([t[0]], t', rest);
      Concat3([t[0]], t', HighlightWith(rest, open, close));
    }
  }

  /** A mention at the front becomes a span and the rest is rewritten after it. */
  lemma HighlightAtMention(m: string, rest: string, open: string, close: string)
    requires MentionLength(m + rest) == |m| > 0
    ensures HighlightWith(m + rest, open, close)
         == Tag(open) + (m + (Tag(close) + HighlightWith(rest, open, close)))
  {
    var t := m + rest;
    assert t[..|m|] == m && t[|m|..] == rest;
  }

  /** The facts about the test suite's mention input that the example needs. */
  lemma ExampleMention(s: string)
    requires s == "Hello @john!"
    ensures s == "Hello " + ("@john" + "!")
    ensures '@' !in "Hello " && '@' !in "!"
    ensures MentionLength("@john" + "!") == |"@john"|
    ensures "@john" == "@" + "john" && "!" + [] == "!"
  {
    var t := "@john" + "!";
    assert t[1..] == "john!";
    assert SpanLength("!", IsWordChar) == 0;
    assert "john!"[1..] == "ohn!" && "ohn!"[1..] == "hn!" && "hn!"[1..] == "n!" && "n!"[1..] == "!";
  }

  /** The test suite's case: `"Hello @john!"` gets one mention span around `@john`. */
  lemma MentionExample(s: string)
    requires s == "Hello @john!"
    ensures HighlightMentions(s) == "Hello " + MentionSpan("john") + "!"
  {
    ExampleMention(s);
    var open, close := MentionOpenBody, "/span";
    MentionFreePrefix("Hello ", "@john" + "!", open, close);
    HighlightAtMention("@john", "!", open, close);
    MentionFreePrefix("!", [], open, close);
  }

  /** Characters a URL runs on with: anything but whitespace and `<`. */
  predicate IsUrlChar(c: char) {
    !IsSpace(c) && c != '<'
  }

  /** The length of an `https://` or `http://` scheme at the start of `s`, or 0. */
  function SchemeLength(s: string): (p: nat)
    ensures p == 0 || p == 7 || p == 8
    ensures p <= |s|
  {
    if StartsWith(s, "https://") then 8
    else if StartsWith(s, "http://") then 7
    else 0
  }

  /** The scheme is exactly a `https://` or, failing that, an `http://` prefix. */
  lemma SchemeIsPrefix(s: string)
    ensures SchemeLength(s) == 8 <==> IsPrefix("https://", s)
    ensures SchemeLength(s) == 7 <==> !IsPrefix("https://", s) && IsPrefix("http://", s)
  {
    StartsWithIsPrefix(s, "https://");
    StartsWithIsPrefix(s, "http://");
  }

  /**
   * The length of a `https?:\/\/[^\s<]+` match at the start of `s`: the scheme and the
   * maximal non-empty run after it of characters that are neither whitespace nor `<`, or 0.
   */
  function UrlLength(s: string): (n: nat)
    ensures n <= |s|
  {
    var p := SchemeLength(s);
    if p == 0 then 0
    else
      var k := UrlRun(s[p..]);
      if k == 0 then 0 else p + k
  }

  /** The length of the run of URL characters at the start of `s`. */
  function UrlRun(s: string): (k: nat)
    ensures k <= |s|
  {
    if s == [] || !IsUrlChar(s[0]) then 0 else 1 + UrlRun(s[1..])
  }

  /** The run is the longest prefix of URL characters. */
  lemma {:induction false} UrlRunSpec(s: string)
    ensures forall i :: 0 <= i < UrlRun(s) ==> IsUrlChar(s[i])
    ensures UrlRun(s) < |s| ==> !IsUrlChar(s[UrlRun(s)])
  {
    if s != [] && IsUrlChar(s[0]) {
      UrlRunSpec(s[1..]);
      assert forall i :: 1 <= i < UrlRun(s) ==> s[i] == s[1..][i - 1];
    }
  }

  /** The run starting at position `p` of `s`, read in `s`'s own positions. */
  lemma UrlRunAt(s: string, p: nat)
    requires p <= |s|
    ensures var k := UrlRun(s[p..]);
      && (forall i :: p <= i < p + k ==> IsUrlChar(s[i]))
      && (p + k < |s| ==> !IsUrlChar(s[p + k]))
      && (p < |s| ==> (k == 0 <==> !IsUrlChar(s[p])))
  {
    var t := s[p..];
    UrlRunSpec(t);
    var k := UrlRun(t);
    assert forall i :: p <= i < p + k ==> s[i] == t[i - p];
    assert p < |s| ==> s[p] == t[0];
    assert p + k < |s| ==> s[p + k] == t[k];
  }

  /** A URL match is a scheme followed by a maximal run of URL characters. */
  lemma UrlLengthSpec(s: string)
    ensures var n, p := UrlLength(s), SchemeLength(s);
      && (n == 0 <==> p == 0 || p == |s| || !IsUrlChar(s[p]))
      && (n > 0 ==> (forall i :: p <= i < n ==> IsUrlChar(s[i])) && (n == |s| || !IsUrlChar(s[n])))
  {
    var p := SchemeLength(s);
    if p > 0 {
      UrlRunAt(s, p);
    }
  }

  /**
   * The URL rewrite with the anchor's attributes after `href` as a parameter: each URL,
   * scanning left to right, becomes `<a href="URL"attrs>URL</a>`.
   */
  function LinkifyWith(s: string, attrs: string): string
    decreases |s|
  {
    if s == [] then []
    else
      var n := UrlLength(s);
      if n > 0 then Tag("a href=\"" + s[..n] + attrs) + (s[..n] + (Tag("/a") + LinkifyWith(s[n..], attrs)))
      else [s[0]] + LinkifyWith(s[1..], attrs)
  }

  /** The anchor's attributes after its `href`, written in short pieces. */
  const AnchorAttributes := "\" target=\"_blank\"" + " rel=\"noopener noreferrer\"" + " style=\"color:#1976d2\""

  /** The markup `linkifyUrls` puts around a URL: a link to itself opening in a new tab. */
  function Anchor(url: string): string {
    Tag("a href=\"" + url + AnchorAttributes) + url + Tag("/a")
  }

  /** `replace(/(https?:\/\/[^\s<]+)/g, anchor)`. */
  function LinkifyUrls(s: string): string {
    LinkifyWith(s, AnchorAttributes)
  }

  /** No URL starts anywhere in `s`. */
  predicate NoUrl(s: string) {
    forall i :: 0 <= i < |s| ==> UrlLength(s[i..]) == 0
  }

  /** Text in which no URL starts is unchanged. */
  lemma {:induction false} NoUrlUnchanged(s: string, attrs: string)
    requires NoUrl(s)
    ensures LinkifyWith(s, attrs) == s
    decreases |s|
  {
    if s != [] {
      assert UrlLength(s[0..]) == 0;
      assert s[0..] == s;
      assert NoUrl(s[1..]) by {
        forall i | 0 <= i < |s[1..]| ensures UrlLength(s[1..][i..]) == 0 {
          assert s[1..][i..] == s[i + 1..];
        }
      }
      NoUrlUnchanged(s[1..], attrs);
      assert s == [s[0]] + s[1..];
    }
  }

  /** `linkifyUrls` leaves text in which no URL starts unchanged. */
  lemma LinkifyWithoutUrl(s: string)
    requires NoUrl(s)
    ensures LinkifyUrls(s) == s
  {
    NoUrlUnchanged(s, AnchorAttributes);
  }

  /** Stripping an anchor made from a URL at the front leaves the URL. */
  lemma StripAnchorAt(u: string, rest: string, attrs: string)
    requires UrlLength(u + rest) == |u| > 0
    requires '<' !in u && '>' !in u && '>' !in attrs
    ensures StripTags(LinkifyWith(u + rest, attrs)) == u + StripTags(LinkifyWith(rest, attrs))
  {
    LinkifyAtUrl(u, rest, attrs);
    HrefHasNoClose(u, attrs);
    StripAroundTags("a href=\"" + u + attrs, u, "/a", LinkifyWith(rest, attrs));
  }

  /** An anchor's opening-tag body has no `>` when neither the URL nor the attributes have one. */
  lemma HrefHasNoClose(u: string, attrs: string)
    requires '>' !in u && '>' !in attrs
    ensures '>' !in "a href=\"" + u + attrs
  {
    var h := "a href=\"";
    assert '>' !in h;
    assert forall i :: 0 <= i < |h + u + attrs| ==> (h + u + attrs)[i] in h || (h + u + attrs)[i] in u || (h + u + attrs)[i] in attrs;
  }

  /** Stripping a copied character at the front leaves the character. */
  lemma StripCopiedAt(c: char, rest: string, attrs: string)
    requires UrlLength([c] + rest) == 0 && c != '<'
    ensures StripTags(LinkifyWith([c] + rest, attrs)) == [c] + StripTags(LinkifyWith(rest, attrs))
  {
    assert ([c] + rest)[1..] == rest;
    StripKeepsText([c], LinkifyWith(rest, attrs));
  }

  /** Linkifying only adds markup: stripping the tags gives back any text without `<` or `>`. */
  lemma {:induction false} LinkMarkupOnlyWith(s: string, attrs: string)
    requires '<' !in s && '>' !in s && '>' !in attrs
    ensures StripTags(LinkifyWith(s, attrs)) == s
    decreases |s|
  {
    if s != [] {
      var n := UrlLength(s);
      var k := if n > 0 then n else 1;
      var u, rest := s[..k], s[k..];
      assert s == u + rest;
      AbsentFromPrefix(s, '<', k);
      AbsentFromPrefix(s, '>', k);
      AbsentFromSuffix(s, '<', k);
      AbsentFromSuffix(s, '>', k);
      LinkMarkupOnlyWith(rest, attrs);
      if n > 0 {
        StripAnchorAt(u, rest, attrs);
      } else {
        assert u == [s[0]];
        StripCopiedAt(s[0], rest, attrs);
      }
    }
  }

  /** `linkifyUrls` only adds markup: stripping tags gives back any text without `<` or `>`. */
  lemma LinksAreMarkupOnly(s: string)
    requires '<' !in s && '>' !in s
    ensures StripTags(LinkifyUrls(s)) == s
  {
    assert '>' !in AnchorAttributes by {
      assert '>' !in "\" target=\"_blank\"";
      assert '>' !in " rel=\"noopener noreferrer\"";
      assert '>' !in " style=\"color:#1976d2\"";
    }
    LinkMarkupOnlyWith(s, AnchorAttributes);
  }

  /** A string not starting with `h` does not start a URL. */
  lemma NoSchemeNoUrl(s: string)
    requires s == [] || s[0] != 'h'
    ensures UrlLength(s) == 0
  {
    assert !StartsWith(s, "https://") && !StartsWith(s, "http://");
  }

  /** A first character that starts no URL is copied. */
  lemma LinkifyCopies(c: char, t: string, attrs: string)
    requires c != 'h'
    ensures LinkifyWith([c] + t, attrs) == [c] + LinkifyWith(t, attrs)
  {
    var s := [c] + t;
    NoSchemeNoUrl(s);
    assert s[1..] == t;
  }

  /** One step of copying: a character other than `h` in front of copied text is copied too. */
  lemma UrlFreeStep(c: char, t: string, rest: string, attrs: string)
    requires c != 'h'
    requires LinkifyWith(t + rest, attrs) == t + LinkifyWith(rest, attrs)
    ensures LinkifyWith([c] + (t + rest), attrs) == [c] + (t + LinkifyWith(rest, attrs))
  {
    LinkifyCopies(c, t + rest, attrs);
  }

  /** Text without an `h` cannot start a URL, so it passes through unchanged. */
  lemma {:induction false} UrlFreePrefix(t: string, rest: string, attrs: string)
    requires 'h' !in t
    ensures LinkifyWith(t + rest, attrs) == t + LinkifyWith(rest, attrs)
    decreases |t|
  {
    if t == [] {
      assert t + rest == rest;
    } else {
      var t' := t[1..];
      AbsentFromSuffix(t, 'h', 1);
      UrlFreePrefix(t', rest, attrs);
      UrlFreeStep(t[0], t', rest, attrs);
      assert t == [t[0]] + t';
      Concat3([t[0]], t', rest);
      Concat3([t[0]], t', LinkifyWith(rest, attrs));
    }
  }

  /** A run of URL characters ended by whitespace is measured exactly. */
  lemma {:induction false} RunBeforeSpace(run: string, rest: string)
    requires forall i :: 0 <= i < |run| ==> IsUrlChar(run[i])
    requires rest != [] && IsSpace(rest[0])
    ensures UrlRun(run + rest) == |run|
    decreases |run|
  {
    if run == [] {
      assert run + rest == rest;
    } else {
      RunBeforeSpace(run[1..], rest);
      assert (run + rest)[1..] == run[1..] + rest;
    }
  }

  /** A URL longer than its scheme keeps that scheme whatever follows it. */
  lemma SchemeExtends(url: string, after: string)
    requires SchemeLength(url) > 0 && |url| > SchemeLength(url)
    ensures SchemeLength(url + after) == SchemeLength(url)
  {
    StartsWithExtend(url, after, "https://");
    StartsWithExtend(url, after, "http://");
  }

  /** The run after position `p` of `url + after` is the rest of `url` when `after` starts with whitespace. */
  lemma RunAfterScheme(url: string, p: nat, after: string)
    requires p <= |url|
    requires forall i :: p <= i < |url| ==> IsUrlChar(url[i])
    requires after != [] && IsSpace(after[0])
    ensures UrlRun((url + after)[p..]) == |url| - p
  {
    var host := url[p..];
    assert forall i :: 0 <= i < |host| ==> IsUrlChar(host[i]) by {
      forall i | 0 <= i < |host| ensures IsUrlChar(host[i]) { assert host[i] == url[p + i]; }
    }
    assert (url + after)[p..] == host + after;
    RunBeforeSpace(host, after);
  }

  /** A scheme, a run of URL characters and whitespace: the URL is the scheme and the run. */
  lemma UrlBeforeSpace(url: string, after: string)
    requires SchemeLength(url) > 0 && |url| > SchemeLength(url)
    requires forall i :: SchemeLength(url) <= i < |url| ==> IsUrlChar(url[i])
    requires after != [] && IsSpace(after[0])
    ensures UrlLength(url + after) == |url|
  {
    SchemeExtends(url, after);
    RunAfterScheme(url, SchemeLength(url), after);
  }

  /** A URL at the front becomes an anchor and the rest is rewritten after it. */
  lemma LinkifyAtUrl(url: string, after: string, attrs: string)
    requires UrlLength(url + after) == |url| > 0
    ensures LinkifyWith(url + after, attrs)
         == Tag("a href=\"" + url + attrs) + (url + (Tag("/a") + LinkifyWith(after, attrs)))
  {
    var t := url + after;
    assert t[..|url|] == url && t[|url|..] == after;
  }

  /**
   * Text without an `h` on both sides of a URL that ends before the text after it:
   * only the URL is rewritten, into an anchor.
   */
  lemma LinkifyAroundUrl(before: string, url: string, after: string, attrs: string)
    requires 'h' !in before && 'h' !in after
    requires UrlLength(url + after) == |url| > 0
    ensures LinkifyWith(before + url + after, attrs)
         == before + (Tag("a href=\"" + url + attrs) + (url + (Tag("/a") + after)))
  {
    assert before + url + after == before + (url + after);
    UrlFreePrefix(before, url + after, attrs);
    LinkifyAtUrl(url, after, attrs);
    UrlFreePrefix(after, [], attrs);
    assert after + [] == after;
  }

  /** The characters of the test suite's URL after its scheme. */
  lemma ExampleUrlHost(url: string)
    requires url == "https://example.com"
    ensures |url| == 19
    ensures forall i :: 8 <= i < |url| ==> IsUrlChar(url[i])
  {
  }

  /** The test suite's URL has an `https://` scheme followed by URL characters only. */
  lemma ExampleUrl(url: string)
    requires url == "https://example.com"
    ensures SchemeLength(url) == 8 && |url| == 19
    ensures forall i :: SchemeLength(url) <= i < |url| ==> IsUrlChar(url[i])
  {
    StartsWithIsPrefix(url, "https://");
    assert url[..8] == "https://";
    ExampleUrlHost(url);
  }

  /** The text around the test suite's URL. */
  lemma ExampleLinkText(before: string, after: string)
    requires before == "Visit " && after == " today"
    ensures 'h' !in before && 'h' !in after && IsSpace(after[0])
  {
  }

  /** The test suite's case: the URL in `"Visit https://example.com today"` becomes a link to itself. */
  lemma LinkifyExample(s: string, before: string, url: string, after: string)
    requires before == "Visit " && url == "https://example.com" && after == " today"
    requires s == before + url + after
    ensures LinkifyUrls(s) == before + Anchor(url) + after
  {
    ExampleLinkText(before, after);
    ExampleUrl(url);
    UrlBeforeSpace(url, after);
    LinkifyAroundUrl(before, url, after, AnchorAttributes);
    Concat5(before, Tag("a href=\"" + url + AnchorAttributes), url, Tag("/a"), after);
  }
}
