# Chat widget core in Dafny

This project models the logic of a React chat widget:

- `useChat`: the chat hook. It holds a reducer that applies inbound server frames to the message list, the conversation list and the loading flag. It also holds a reconnect machine over an attempt counter and an optimistic `sendMessage`.
- `useWebSocket`: a generic WebSocket hook with a guarded `connect`, a `disconnect` that saturates its reconnect counter, a send gate and a parse fallback.
- The string formatters: relative timestamps, truncation, tag stripping for previews, `@mention` highlighting and URL linkification.
- Decision logic in five components:
  - the conversation list: search, relative times, unread badge, avatar placeholder and preview;
  - the message input: length cap, send gate, Enter shortcut and remaining-characters counter;
  - the chat window: active conversation, message filter, header and send forwarding;
  - the message bubble: class tokens, status icons and the visibility rules;
  - the user avatar: the int32 name hash, initials and sizes.

## How the model is built

Pure code becomes datatypes, functions and lemmas. State that the source changes in steps is modelled twice:

- a pure `Step` function over a state datatype, with invariants proved over any run of events;
- a class whose methods promise that the new state is `Step` of the old one.

The classes are `ChatHook.Session`, `WebSocketHook.Hook`, `MessageInput.InputBox` and `ChatWindow.Window`. `UserAvatar.GetColorFromName` keeps the source's `for` loop and is proved against the `NameHash` recurrence.

Sockets, timers, `Date.now()`, `Math.random()` and `JSON.parse`/`JSON.stringify` are not called. Instead:

- socket callbacks, timers firing, `reconnect()` and unmounting are events;
- the current time and fresh ids are parameters;
- a parsed frame is a datatype, and a frame that does not parse is its own case;
- whether `new WebSocket(url)` accepted its URL is a boolean parameter of each event that runs `connect()`, in both hooks. `useChat` catches the exception. `useWebSocket` does not, so its `connect()` reports that it threw and leaves its refs as they were;
- whether the `onMessage` callback of `useWebSocket` throws on a parsed frame is a parameter of the inbound frame.

Times are integer milliseconds. Strings are sequences of `char`, and one `char` stands for one UTF-16 code unit. Case mapping covers the ASCII letters only. The whitespace class is the ECMAScript WhiteSpace and LineTerminator set that `trim()` removes.

The hook behaves as follows, and the model follows the code:

- A `message` frame appends without de-duplication (`ChatReducer.MessageNotDeduplicated`).
- A `message_status` frame overwrites the status with no ordering check (`ChatReducer.LaterStatusWins`).
- A `history` frame prepends the batch unchanged, duplicates included.
- `sendMessage` on a socket that is not open returns before the optimistic append, so nothing is appended or queued.
- There is no `retry` operation in the hook and no unread counting.
- The unmount cleanup leaves the closing socket's `onclose` handler attached, so a reconnect can still be scheduled after unmounting (see Findings).

## Model

| member | source | states |
|---|---|---|
| ChatReducer.HandleServerMessage | src/hooks/useChat.ts:116-150 | Only `conversations` ends loading. It replaces the list and keeps the messages. Frames other than `message` keep the conversation list. An unknown tag changes nothing. |
| ChatReducer.WithLastMessage | src/hooks/useChat.ts:128 | Sets a conversation's `lastMessage` and `updatedAt`. `TouchConversations` states where it applies. |
| ChatReducer.ReceiveFrame | src/hooks/useChat.ts:81-88 | A frame that fails to parse changes nothing; a parsed frame goes through the reducer. |
| ChatReducer.TouchConversations | src/hooks/useChat.ts:126-132 | Same length and order. Every conversation whose id is the message's conversation gets it as last message, with the new time. Every other conversation is identical. |
| ChatReducer.SetStatus | src/hooks/useChat.ts:136-140 | Same length. Every entry with the id gets the new status; all others are identical. |
| ChatReducer.MessageAppends | src/hooks/useChat.ts:123-124 | A `message` frame adds exactly one entry at the end and keeps all earlier entries. |
| ChatReducer.MessageNotDeduplicated | src/hooks/useChat.ts:124 | The same message frame twice gives two entries. |
| ChatReducer.MessageTouchesConversations | src/hooks/useChat.ts:126-132 | Length and ids are kept. Only matching conversations get `lastMessage` and `updatedAt`; the rest are unchanged. |
| ChatReducer.StatusOverwrites | src/hooks/useChat.ts:135-141 | Only the status of entries with the id changes, whatever it was before. Order, the other fields and the conversations stay. |
| ChatReducer.LaterStatusWins | src/hooks/useChat.ts:137-139 | Two status updates equal the second alone, so `read` followed by `sent` ends as `sent`. |
| ChatReducer.HistoryPrepends | src/hooks/useChat.ts:143-145 | The messages become exactly the batch followed by the old list. |
| ChatReducer.ConversationsReplace | src/hooks/useChat.ts:118-121 | The list is replaced, loading becomes false and the messages stay. |
| ChatHook.Resolve | src/hooks/useChat.ts:47-54 | The defaults: auto-reconnect on, 3000 ms, at most 5 attempts. Each option that is given is kept: URL, user id, token, auto-reconnect, interval and maximum. |
| ChatHook.SocketUrl | src/hooks/useChat.ts:69 | The URL is `wsUrl?token=t` for a non-empty token and exactly `wsUrl` otherwise. |
| ChatHook.SocketUrlCarriesToken | src/hooks/useChat.ts:69 | The endpoint, the `?token=` marker and the token can each be read back from the URL. |
| ChatHook.ConnectConn | src/hooks/useChat.ts:67-112 | `connect()` makes a new connecting socket, or leaves the state alone if the constructor threw. The counter and the timer are untouched. |
| ChatHook.Mounted | src/hooks/useChat.ts:192-194 | Defines the state on mount: a fresh connection, then `connect()`. `MountedInv` states what it is. |
| ChatHook.Enabled | src/hooks/useChat.ts:72-103 | Defines when each lifecycle event can happen: `open` on a connecting socket, `close` on an unclosed socket with no timer pending, a timer only when pending. `reconnect()` and unmounting can happen at any time. |
| ChatHook.Step | src/hooks/useChat.ts:72-199 | Defines one lifecycle event: `onopen`, `onclose`, the timer callback, `reconnect()` and the cleanup. `StepKeepsInv`, `FailedRoundsCount`, `RetriesExhaust` and `ReconnectResets` state its meaning. |
| ChatHook.Inv | src/hooks/useChat.ts:94 | The connection invariant: the counter is 0 or within the maximum, and a pending timer implies auto-reconnect and attempts left. `StepKeepsInv` and `RunKeepsInv` prove it is kept. |
| ChatHook.StepKeepsInv | src/hooks/useChat.ts:72-103 | Every possible lifecycle event keeps two facts. The counter is 0 or at most the maximum. A pending timer means auto-reconnect is on and attempts remain. |
| ChatHook.RunKeepsInv | src/hooks/useChat.ts:94-101 | Any possible sequence of events keeps the attempt bound. |
| ChatHook.MountedInv | src/hooks/useChat.ts:192-194 | Right after mounting, nothing is connected, no attempt is counted and no timer is pending. A socket is connecting exactly when the constructor accepted the URL. The state satisfies the invariant. |
| ChatHook.FailedRoundsCount | src/hooks/useChat.ts:94-100 | Each round of close followed by the timer firing costs exactly one attempt while attempts remain. |
| ChatHook.RetriesExhaust | src/hooks/useChat.ts:94 | After the maximum number of failed rounds, the next close schedules no timer. |
| ChatHook.ReconnectResets | src/hooks/useChat.ts:185-189 | `reconnect()` resets the counter to 0 and opens a new socket, from any state. |
| ChatHook.ReconnectAfterUnmount | src/hooks/useChat.ts:196-199 | As written: after the cleanup, the old socket's close still schedules a timer when reconnection is on and attempts remain. The timer then opens a new socket and counts an attempt. |
| ChatHook.DetachedUnmount | src/hooks/useChat.ts:191-199 | Corrected cleanup: the socket is closed and detached, with no timer pending, and the counter is kept. |
| ChatHook.DetachedUnmountStaysDown | src/hooks/useChat.ts:191-199 | After the corrected cleanup, no open, close or timer event can fire, so only an explicit `reconnect()` can open a socket. The invariant is kept. |
| ChatHook.DetachedRunStaysDown | src/hooks/useChat.ts:191-199 | Every possible run after the corrected cleanup that has no `reconnect()` call ends in the detached state itself. No socket is ever opened again and no timer is scheduled. |
| ChatHook.Session.constructor | src/hooks/useChat.ts:192-194 | Mounting sets loading, resolves the options and calls `connect()`. |
| ChatHook.Session.Connect | src/hooks/useChat.ts:67-113 | A new socket at the computed URL is recorded when the constructor accepts. Nothing else changes. |
| ChatHook.Session.OnOpen | src/hooks/useChat.ts:72-79 | The socket is connected and the counter reset. Exactly one `init` frame with the user id is written. |
| ChatHook.Session.OnClose | src/hooks/useChat.ts:90-103 | The socket is disconnected. A timer is pending exactly when auto-reconnect is on and attempts remain. |
| ChatHook.Session.OnMessage | src/hooks/useChat.ts:81-88 | The chat state becomes `ReceiveFrame` of the old one. The connection is untouched. |
| ChatHook.Session.OnTimer | src/hooks/useChat.ts:95-101 | The counter goes up by one and `connect()` runs. |
| ChatHook.Session.Reconnect | src/hooks/useChat.ts:185-189 | The current socket is closed, the counter reset and `connect()` runs. |
| ChatHook.Session.Unmount | src/hooks/useChat.ts:196-199 | The timer is cleared and the socket closed. |
| ChatHook.OptimisticMessage | src/hooks/useChat.ts:160-168 | Defines the optimistic entry: the given id, conversation and content, from the hook's user, with status `sending` and type `text`. `Session.SendMessage` states that exactly this entry is appended and sent. |
| ChatHook.Session.SendMessage | src/hooks/useChat.ts:153-182 | Nothing changes unless the socket is open. When it is, one `sending` text message from the user is appended, and one `send_message` frame carrying that message is written. |
| ChatHook.Session.SetActiveConversation | src/hooks/useChat.ts:58 | The active id is set to the given value, which may be none, and nothing else changes. |
| Transport.CloseIfPresent | src/hooks/useWebSocket.ts:83 | `ws?.close()`: nothing without a socket; otherwise the socket moves towards closed. |
| WebSocketHook.WithDefaults | src/hooks/useWebSocket.ts:22-30 | The defaults: 5 attempts, 3000 ms, connect on mount. Each given option is kept, and so is which callbacks were supplied. |
| WebSocketHook.Serialize | src/hooks/useWebSocket.ts:88 | A string is sent unchanged; any other value is sent as its JSON text. |
| WebSocketHook.Delivered | src/hooks/useWebSocket.ts:51-59 | A frame that fails to parse is handed on as its raw text; otherwise the parsed value is. |
| WebSocketHook.Receive | src/hooks/useWebSocket.ts:51-60 | Without a throwing callback, `lastMessage` is the delivered value and `onMessage` gets it once. When `onMessage` throws on a parsed frame, the `catch` sets `lastMessage` to the raw text and calls `onMessage` again with it. |
| WebSocketHook.ReceiveMeaning | src/hooks/useWebSocket.ts:51-60 | `lastMessage` is the parsed value or the raw text, and whenever `onMessage` was called, the last value it saw. It is called at most twice, and twice exactly when it threw on a parsed frame, the second time with the raw text. |
| WebSocketHook.ConnectMachine | src/hooks/useWebSocket.ts:38-42 | Nothing happens on an open socket, nor when the constructor rejects the URL. Otherwise there is a new connecting socket. |
| WebSocketHook.ConnectThrows | src/hooks/useWebSocket.ts:39-41 | `connect()` throws exactly when it gets past the open-socket guard and the constructor rejects the URL. |
| WebSocketHook.RejectedReconnectStrands | src/hooks/useWebSocket.ts:68-71 | A timer firing on a rejected URL still counts the attempt, then `connect()` throws. No socket and no timer are left, so no callback can fire until `connect()` is called again. |
| WebSocketHook.StepKeepsInv | src/hooks/useWebSocket.ts:38-84 | Every possible event keeps three facts. `isConnected` mirrors `readyState`. The counter is 0, at most the bound, or saturated. A pending timer means attempts remain. |
| WebSocketHook.Enabled | src/hooks/useWebSocket.ts:38-84 | Defines when each hook event can happen: `open` on a connecting socket, `error` and `close` on an unclosed one (`close` with no timer pending), a timer only when pending. |
| WebSocketHook.Step | src/hooks/useWebSocket.ts:38-84 | Defines one hook event: `connect()`, the socket callbacks, the timer and `disconnect()`. `StepKeepsInv`, `ConnectGuard`, `ErrorThenClose` and `DisconnectSuppressesReconnect` state its meaning. |
| WebSocketHook.Inv | src/hooks/useWebSocket.ts:62-84 | The hook invariant: `isConnected` mirrors `readyState`, the counter is 0, within the bound or saturated, and a pending timer implies attempts left. |
| WebSocketHook.Mounted | src/hooks/useWebSocket.ts:92-95 | Defines the state on mount: the initial state, then `connect()` when `autoConnect` is on. `MountedInv` states what it is. |
| WebSocketHook.MountedInv | src/hooks/useWebSocket.ts:34-36 | The state after mounting is not connected, with `readyState` CLOSED, and it satisfies the invariant. A socket is connecting exactly when `autoConnect` is set and the URL is accepted. |
| WebSocketHook.RunKeepsInv | src/hooks/useWebSocket.ts:62-72 | Any possible run keeps the counter within `reconnectAttempts`. |
| WebSocketHook.ConnectGuard | src/hooks/useWebSocket.ts:39 | `connect()` on an open socket changes nothing and never throws. |
| WebSocketHook.ErrorThenClose | src/hooks/useWebSocket.ts:75-77 | An error closes the socket, and the close that follows acts exactly like a plain close. |
| WebSocketHook.DisconnectSuppressesReconnect | src/hooks/useWebSocket.ts:80-84 | After `disconnect()`, no run without an open schedules a reconnect. The counter stays saturated. |
| WebSocketHook.SuppressedRun | src/hooks/useWebSocket.ts:67-69 | A saturated counter with no timer stays that way until a socket opens. |
| WebSocketHook.Hook.constructor | src/hooks/useWebSocket.ts:31-36 | The initial refs and state, then `connect()` when `autoConnect` is set. With a rejected URL the state stays fresh. |
| WebSocketHook.Hook.Connect | src/hooks/useWebSocket.ts:38-42 | The state moves by one connect step, and `threw` holds exactly when the constructor is reached and rejects the URL. |
| WebSocketHook.Hook.OnOpen | src/hooks/useWebSocket.ts:44-49 | Connected and OPEN, the counter is 0, and `onConnect` is called if given. |
| WebSocketHook.Hook.OnMessage | src/hooks/useWebSocket.ts:51-60 | `lastMessage` and the `onMessage` calls are those of `Receive`, including the second, raw-text call after a throwing callback. |
| WebSocketHook.Hook.OnClose | src/hooks/useWebSocket.ts:62-73 | Disconnected and CLOSED. A timer is pending exactly while `count < reconnectAttempts`. |
| WebSocketHook.Hook.OnError | src/hooks/useWebSocket.ts:75-77 | The socket is closed. |
| WebSocketHook.Hook.OnTimer | src/hooks/useWebSocket.ts:68-71 | The count goes up by one, then `connect()` runs, and `threw` reports a rejected URL. |
| WebSocketHook.Hook.Disconnect | src/hooks/useWebSocket.ts:80-84 | The counter is saturated, the timer cleared and the socket closed. |
| WebSocketHook.Hook.Send | src/hooks/useWebSocket.ts:86-90 | A frame is written only while the socket is open, serialized as above. |
| Formatters.TimestampBucket | src/utils/formatters.ts:8-16 | Each bucket holds exactly when the elapsed time is in its range. A negative time is "just now". Each count is the floor of the time by its unit. |
| Formatters.FormatTimestamp | src/utils/formatters.ts:5-23 | Defines `formatTimestamp` on the elapsed time: the bucket of `TimestampBucket` written as "just now", "Nm ago", "Nh ago" or "Nd ago", else a locale date. `TimestampExamples` checks it against the tests. |
| Formatters.TimestampExamples | src/__tests__/formatters.test.ts:3-17 | "just now", "5m ago" and "3h ago" for the test suite's times. |
| Formatters.TruncateText | src/utils/formatters.ts:34-37 | A text that fits is unchanged. Otherwise the text is cut to the slice end and "..." added; for a limit of at least 3 the first `n-3` characters are kept. |
| Formatters.TruncateBound | src/utils/formatters.ts:36 | With a limit of at least 3 the result never exceeds the limit. |
| Formatters.TruncateBelowThree | src/utils/formatters.ts:36 | Below 3 the negative slice end counts from the back. A text that does not fit then comes out longer than the limit. |
| Formatters.TruncateExamples | src/__tests__/formatters.test.ts:20-31 | The test suite's three cases, and one limit below 3 (`"hello"` with limit 2 gives `"hell..."`). |
| Formatters.StripTags | src/utils/formatters.ts:62 | Removing `<...>` runs left to right never lengthens the text. |
| Formatters.StripTagsTagFree | src/utils/formatters.ts:62 | No tag is left after stripping. |
| Formatters.StripTagsKeepsTagFree | src/utils/formatters.ts:62 | Text without tags is left alone. |
| Formatters.StripTagsIdempotent | src/utils/formatters.ts:62 | Stripping twice equals stripping once. |
| Formatters.StripAroundTags | src/utils/formatters.ts:62 | Text between tags loses only the tags. |
| Formatters.StripExample | src/__tests__/formatters.test.ts:67-70 | The tags of `"<b>Hello</b> world"` strip to `"Hello world"`. |
| Formatters.GetMessagePreview | src/utils/formatters.ts:61-64 | A stripped, trimmed text that fits is returned as it is. |
| Formatters.PreviewBound | src/utils/formatters.ts:61-64 | A preview never exceeds a limit of at least 3. |
| Formatters.PreviewTagFree | src/utils/formatters.ts:61-64 | A preview holds no tag for every content and limit, both when it fits and when it is cut and ends in `...`. |
| Formatters.PreviewExample | src/__tests__/formatters.test.ts:67-70 | `"<b>Hello</b> world"` previews as `"Hello world"`. |
| Formatters.MentionLength | src/utils/formatters.ts:41 | A match is non-zero exactly when `@` and a word character start the text. |
| Formatters.MentionLengthSpec | src/utils/formatters.ts:41 | A match is `@` followed by a maximal run of word characters. |
| Formatters.HighlightWith | src/utils/formatters.ts:39-44 | The left-to-right, non-overlapping `@\w+` replacement with a given span markup. `NoMentionUnchanged`, `HighlightAtMention` and `MentionsAreMarkupOnly` state its meaning. |
| Formatters.MentionSpan | src/utils/formatters.ts:42 | Defines the markup around `@word`: the mention span with the source's class and style. `MentionExample` states it on the test suite's input. |
| Formatters.HighlightMentions | src/utils/formatters.ts:39-44 | `highlightMentions` is `HighlightWith` with the source's span. `HighlightWithoutMention` and `MentionExample` state its meaning. |
| Formatters.NoMentionUnchanged | src/utils/formatters.ts:39-44 | Text with no `@` followed by a word character is unchanged. |
| Formatters.HighlightWithoutMention | src/utils/formatters.ts:39-44 | The same for `highlightMentions` with its own span markup. |
| Formatters.HighlightAtMention | src/utils/formatters.ts:40-43 | A mention at the front becomes the span around `@word`, and the rest is rewritten after it. |
| Formatters.MentionsAreMarkupOnly | src/utils/formatters.ts:39-44 | Highlighting only adds markup: stripping the tags gives back any text without `<`. |
| Formatters.MentionExample | src/__tests__/formatters.test.ts:50-55 | `"Hello @john!"` becomes `"Hello "`, the span around `@john`, then `"!"`. |
| Formatters.SchemeIsPrefix | src/utils/formatters.ts:47 | The scheme is `https://`, or failing that `http://`, at the front. |
| Formatters.UrlRunSpec | src/utils/formatters.ts:47 | The run is the longest prefix of characters that are neither whitespace nor `<`. |
| Formatters.UrlLengthSpec | src/utils/formatters.ts:47 | A URL match is the scheme followed by a non-empty maximal run. |
| Formatters.UrlRun | src/utils/formatters.ts:47 | The run of characters after the scheme that are neither whitespace nor `<`, never longer than the text. `UrlRunSpec` states that it is the longest such run. |
| Formatters.UrlLength | src/utils/formatters.ts:47 | The length of the URL match at the front, never longer than the text. `UrlLengthSpec` states that it is a scheme followed by a non-empty maximal run, or 0. |
| Formatters.LinkifyWith | src/utils/formatters.ts:46-52 | The left-to-right URL replacement with given anchor attributes. `NoUrlUnchanged`, `LinkifyAtUrl`, `LinkifyAroundUrl` and `LinksAreMarkupOnly` state its meaning. |
| Formatters.Anchor | src/utils/formatters.ts:50 | Defines the markup around a URL: a link to the URL itself, opening in a new tab, with the source's attributes. `LinkifyExample` states it on the test suite's input. |
| Formatters.LinkifyUrls | src/utils/formatters.ts:46-52 | `linkifyUrls` is `LinkifyWith` with the source's attributes. `LinkifyWithoutUrl` and `LinkifyExample` state its meaning. |
| Formatters.SchemeLength | src/utils/formatters.ts:47 | The only scheme lengths are 0, 7 and 8, and they lie within the text. |
| Formatters.NoUrlUnchanged | src/utils/formatters.ts:46-52 | Text in which no URL starts is unchanged. |
| Formatters.LinkifyWithoutUrl | src/utils/formatters.ts:46-52 | The same for `linkifyUrls` with its own anchor markup. |
| Formatters.LinkifyAtUrl | src/utils/formatters.ts:48-51 | A URL at the front becomes an anchor whose `href` and text are that URL. |
| Formatters.LinkifyAroundUrl | src/utils/formatters.ts:46-52 | Text around one URL is copied, and only the URL is wrapped. |
| Formatters.LinksAreMarkupOnly | src/utils/formatters.ts:46-52 | Linkifying only adds markup: stripping tags gives back any text without `<` or `>`. |
| Formatters.LinkifyExample | src/__tests__/formatters.test.ts:58-63 | The URL in `"Visit https://example.com today"` becomes a link to itself. |
| ConversationList.NestedFloors | src/components/ConversationList.tsx:17-19 | Flooring minutes by 60, then hours by 24, equals flooring the time by an hour or a day. |
| ConversationList.RelativeBucket | src/components/ConversationList.tsx:16-24 | The nested floors of `formatRelativeTime`: minutes, then hours of minutes, then days of hours. `RelativeAgreesWithTimestamp` proves it equals the formatter's bucket. |
| ConversationList.RelativeAgreesWithTimestamp | src/components/ConversationList.tsx:17-24 | The list's buckets and counts are the formatter's. |
| ConversationList.FormatRelativeTime | src/components/ConversationList.tsx:14-25 | A locale date is shown exactly from seven days on, and "now" exactly below a minute. |
| ConversationList.UnitLabel | src/components/ConversationList.tsx:21-23 | A count with a unit of minutes, hours or days gives a text label other than "now". `FormatRelativeTime` states when each unit is used. |
| ConversationList.RelativeLabelMeaning | src/components/ConversationList.tsx:21-24 | Every other label is a count and a unit letter. The count read back is the floor of the time by that unit. |
| ConversationList.RelativeExamples | src/components/ConversationList.tsx:21-24 | "now", "5m", "3h" and "2d" for sample times, and "now" for a future time. |
| ConversationList.BlankQueryKeepsAll | src/components/ConversationList.tsx:50 | A whitespace-only query returns the list unchanged. |
| ConversationList.MatchesQuery | src/components/ConversationList.tsx:53-55 | A conversation matches when the lowercased query occurs in its lowercased title or in its last message's content. |
| ConversationList.SearchFilter | src/components/ConversationList.tsx:49-57 | The list's `filteredConversations`. `BlankQueryKeepsAll`, `SearchKeepsMatches`, `SearchIgnoresQueryCase` and `DistinctIdsKept` state its meaning. |
| ConversationList.SearchKeepsMatches | src/components/ConversationList.tsx:51-56 | Any other query keeps, in order and with multiplicity, exactly the matching conversations. A match has the lowercased query in its lowercased title or last message. |
| ConversationList.SearchIgnoresQueryCase | src/components/ConversationList.tsx:50-51 | Upper-casing the query gives the same result. |
| ConversationList.UnreadBadge | src/components/ConversationList.tsx:138-141 | The badge is shown exactly for a positive count, and is "99+" exactly above 99. |
| ConversationList.BadgeShowsCount | src/components/ConversationList.tsx:140 | Below the cap, the badge reads back as the unread count. |
| ConversationList.AvatarFor | src/components/ConversationList.tsx:115-121 | An image exactly for a non-empty avatar. Otherwise `#` for a group, or the title's capital. |
| ConversationList.PlaceholderShape | src/components/ConversationList.tsx:119 | The placeholder is at most one character. It is empty only for a non-group with an empty title. |
| ConversationList.PreviewText | src/components/ConversationList.tsx:136 | The last message's content, or "No messages yet" when there is none. |
| ConversationList.IsActive | src/components/ConversationList.tsx:88 | Defines when an item is active: the list has an active id and it equals the item's id. `RenderItem` states it for each item. |
| ConversationList.RenderItem | src/components/ConversationList.tsx:99-147 | Active exactly when the ids match. The time shows exactly with a last message, and the badge exactly with unread messages. |
| ConversationList.RenderList | src/components/ConversationList.tsx:81-92 | "No conversations found" exactly when the search keeps nothing. Otherwise there is one item per kept conversation. |
| ConversationList.AtMostOneActive | src/components/ConversationList.tsx:88 | With distinct ids, at most one item is active. |
| ConversationList.DistinctIdsKept | src/components/ConversationList.tsx:52-56 | The search keeps ids distinct. |
| MessageInput.ChangeAcceptedIffFits | src/components/MessageInput.tsx:70-76 | A change is taken exactly when it fits, or when it equals the text. Otherwise the text stays, and nothing is sent. |
| MessageInput.WouldSend | src/components/MessageInput.tsx:49 | The send guard: the trimmed text is non-empty and the box is enabled. |
| MessageInput.SendButtonDisabled | src/components/MessageInput.tsx:129 | The send button's `disabled` attribute. `ButtonDisabledIffNoop` proves it is the negation of `WouldSend`. |
| MessageInput.Send | src/components/MessageInput.tsx:47-57 | `handleSend`. `SendGate` and `SentIsTextWithoutOuterSpace` state its meaning. |
| MessageInput.ChangeText | src/components/MessageInput.tsx:70-76 | `handleChange`'s cap. `ChangeAcceptedIffFits` states its meaning. |
| MessageInput.Handle | src/components/MessageInput.tsx:47-76 | The box's response to a change, a click or a key. `ChangeAcceptedIffFits`, `SendGate`, `EnterSends` and `HandleKeepsBounded` state its meaning. |
| MessageInput.RemainingChars | src/components/MessageInput.tsx:78 | The characters left before the cap. `Counter` and `RemainingNonNegative` state its meaning. |
| MessageInput.SendGate | src/components/MessageInput.tsx:47-57 | `onSend` is called exactly when the trimmed text is non-empty and the box is enabled. It receives the trimmed text and the box is cleared. Otherwise nothing changes. |
| MessageInput.SentIsTextWithoutOuterSpace | src/components/MessageInput.tsx:48-50 | The content sent is a slice of the text with only whitespace around it, and it is already trimmed. |
| MessageInput.EnterSends | src/components/MessageInput.tsx:60-68 | Enter without Shift is a send that prevents the newline. Any other key, Shift+Enter included, changes nothing. |
| MessageInput.ButtonDisabledIffNoop | src/components/MessageInput.tsx:129 | The send button is disabled exactly when clicking it would do nothing. |
| MessageInput.Counter | src/components/MessageInput.tsx:78-79 | The counter shows exactly when fewer than 100 characters remain, and it shows `maxLength - |text|`. |
| MessageInput.HandleKeepsBounded | src/components/MessageInput.tsx:70-76 | Every event keeps the text empty or within the cap. |
| MessageInput.RemainingNonNegative | src/components/MessageInput.tsx:78 | Within the cap, the remaining count is never negative. |
| MessageInput.StepKeepsInvariant | src/components/MessageInput.tsx:47-76 | One event keeps the text bounded and every sent content non-empty and trimmed. It only adds calls. |
| MessageInput.RunKeepsInvariant | src/components/MessageInput.tsx:47-76 | The same over any sequence of events. Earlier calls never change. |
| MessageInput.FreshSessionOk | src/components/MessageInput.tsx:34 | From the empty box, the invariant holds after any events. |
| MessageInput.DisabledNeverSends | src/components/MessageInput.tsx:49 | A disabled box never calls `onSend`. |
| MessageInput.InputBox.constructor | src/components/MessageInput.tsx:34 | The box starts empty. |
| MessageInput.InputBox.HandleChange | src/components/MessageInput.tsx:70-76 | The box moves by one `Change` step and keeps its invariant. |
| MessageInput.InputBox.HandleSend | src/components/MessageInput.tsx:47-57 | The box moves by one send step and keeps its invariant. |
| MessageInput.InputBox.HandleKeyDown | src/components/MessageInput.tsx:60-68 | The box moves by one key step and reports whether the default was prevented. |
| ChatWindow.ActiveMessagesExact | src/components/ChatWindow.tsx:43-45 | Exactly the active conversation's messages are shown, with multiplicity and in order. |
| ChatWindow.InitialActive | src/components/ChatWindow.tsx:37-39 | The first conversation's id, or empty for an empty list. `InitialHeader` states its meaning. |
| ChatWindow.ActiveMessages | src/components/ChatWindow.tsx:43-45 | `activeMessages`. `ActiveMessagesExact`, `IncomingMessageView`, `HistoryView` and `StatusUpdateView` state its meaning. |
| ChatWindow.IncomingMessageView | src/components/ChatWindow.tsx:43-45 | A `message` frame adds its message at the end of the view when it is for the active conversation. Otherwise the view is unchanged. |
| ChatWindow.HistoryView | src/components/ChatWindow.tsx:43-45 | A `history` frame puts the batch's active messages before those already shown. |
| ChatWindow.StatusUpdateView | src/components/ChatWindow.tsx:43-45 | A status update commutes with the filter: it changes statuses in the view, never its membership. |
| ChatWindow.Find | src/components/ChatWindow.tsx:64 | Nothing exactly when no conversation has the id. Otherwise the first conversation that has it. |
| ChatWindow.RenderHeader | src/components/ChatWindow.tsx:84-90 | The header's title and participant count. `HeaderShowsActive` states its meaning. |
| ChatWindow.HeaderShowsActive | src/components/ChatWindow.tsx:84-90 | The header shows the first matching conversation's title and participant count. Without a match it shows "Select a conversation" and no count. |
| ChatWindow.InitialHeader | src/components/ChatWindow.tsx:37-39 | On mount, the first conversation is active, or none when the list is empty. |
| ChatWindow.RenderBubbles | src/components/ChatWindow.tsx:100-107 | One bubble per message, rendered with the window's props. |
| ChatWindow.BubblePropsFor | src/components/ChatWindow.tsx:100-107 | The props the window gives each bubble: own exactly for the current user, an avatar exactly for others, no sender, no retry. |
| ChatWindow.RenderMessages | src/components/ChatWindow.tsx:95-108 | The message area. `MessageAreaMeaning` states its meaning. |
| ChatWindow.MessageAreaMeaning | src/components/ChatWindow.tsx:95-108 | The empty state appears exactly when no message is for the active conversation. Own messages show a status, others an avatar, and no bubble has a retry button. |
| ChatWindow.SendForwardsIffActive | src/components/ChatWindow.tsx:57-61 | The content is forwarded with the active id exactly when that id is non-empty. Otherwise nothing changes. |
| ChatWindow.SelectThenSend | src/components/ChatWindow.tsx:52-61 | Selecting sets the id. It reports the id exactly when `onSelectConversation` was supplied, and a following send goes to that id. |
| ChatWindow.InputDisabledIffDropped | src/components/ChatWindow.tsx:116 | The input is disabled exactly when a send would be dropped. |
| ChatWindow.InputSendReachesWindow | src/components/ChatWindow.tsx:113-117 | Whatever the input box sends is forwarded with the active id. |
| ChatWindow.InputProps | src/components/ChatWindow.tsx:113-117 | The input's props: disabled exactly without an active conversation, with the default cap. `InputDisabledIffDropped` states its meaning. |
| ChatWindow.Step | src/components/ChatWindow.tsx:52-61 | `handleSelectConversation` and `handleSend`. `SendForwardsIffActive`, `SelectThenSend` and `StepKeepsInv` state its meaning. |
| ChatWindow.NoConversationNoSend | src/components/ChatWindow.tsx:116 | With no active conversation, the input never calls `onSend`. |
| ChatWindow.StepKeepsInv | src/components/ChatWindow.tsx:52-61 | Every forwarded send names a conversation, and earlier calls stay. |
| ChatWindow.RunKeepsInv | src/components/ChatWindow.tsx:52-61 | The same over any sequence of events. |
| ChatWindow.MountedInv | src/components/ChatWindow.tsx:37-39 | From mounting on, with or without `onSelectConversation`, every forwarded send names a conversation. |
| ChatWindow.Window.constructor | src/components/ChatWindow.tsx:37-39 | The initial active id, and no calls yet. |
| ChatWindow.Window.HandleSelectConversation | src/components/ChatWindow.tsx:52-55 | The window moves by one select step: the id becomes active and goes to `onSelectConversation` only when one was supplied. |
| ChatWindow.Window.HandleSend | src/components/ChatWindow.tsx:57-61 | The window moves by one send step. |
| MessageBubble.StatusIcon | src/components/MessageBubble.tsx:12-18 | Every status has an icon. The delivered and read icons are two characters, the others one. |
| MessageBubble.StatusIconsDistinct | src/components/MessageBubble.tsx:12-18 | Two statuses share an icon exactly when they are delivered and read. |
| MessageBubble.TokensAreWords | src/components/MessageBubble.tsx:49-53 | The class tokens are non-empty, have no spaces and are pairwise different. |
| MessageBubble.BubbleClassSpelledOut | src/components/MessageBubble.tsx:49-55 | The class string, spelled out for both owners and for failed and other messages. |
| MessageBubble.BubbleClassTokens | src/components/MessageBubble.tsx:49-55 | Splitting the class at spaces gives back the kept tokens, in order. |
| MessageBubble.BubbleClassMarks | src/components/MessageBubble.tsx:49-55 | `message-failed` is a token exactly for a failed message, and `message-own` exactly for one's own. |
| MessageBubble.BubbleClass | src/components/MessageBubble.tsx:49-55 | `bubbleClass`. `BubbleClassSpelledOut`, `BubbleClassTokens` and `BubbleClassMarks` state its meaning. |
| MessageBubble.RowClass | src/components/MessageBubble.tsx:58 | The row class: `message-row `, then `message-row-own` for one's own message. |
| MessageBubble.ContentFor | src/components/MessageBubble.tsx:80-95 | The content element for each message type. `ContentByKind` states its meaning. |
| MessageBubble.StatusName | src/components/MessageBubble.tsx:102-103 | Defines the status name used in the status class and title, spelled as the `MessageStatus` union spells it. `StatusNameInjective` states that it identifies the status. |
| MessageBubble.StatusNameInjective | src/components/MessageBubble.tsx:102-103 | Distinct statuses have distinct names. |
| MessageBubble.RenderBubble | src/components/MessageBubble.tsx:57-119 | What the bubble shows. `BubbleVisibility` states its meaning. |
| MessageBubble.AvatarFor | src/components/MessageBubble.tsx:62-67 | The sender's picture exactly for a non-empty avatar. Otherwise the name's capital, or `?` without a sender. |
| MessageBubble.BubbleVisibility | src/components/MessageBubble.tsx:60-119 | The status shows only on own messages, and the avatar only when asked for on others'. The sender name shows only for others with a sender. Retry appears exactly for a failed message with a callback, and passes the id. |
| MessageBubble.ContentByKind | src/components/MessageBubble.tsx:80-95 | Text, image and system messages show their content; a file message shows none. |
| MessageBubble.AvatarPlaceholder | src/components/MessageBubble.tsx:66 | The placeholder is at most one letter. It is empty only for a sender with an empty name. |
| UserAvatar.ToInt32 | src/components/UserAvatar.tsx:25 | The result is in the int32 range, agrees with the input mod 2^32, and equals any input already in range. |
| UserAvatar.ShiftIsWrappedProduct | src/components/UserAvatar.tsx:25 | `hash << 5` is the int32 value of `32 * hash`. |
| UserAvatar.SmallStepIsPolynomial | src/components/UserAvatar.tsx:25 | Without a wrap, one step is `31 * hash + code`. |
| UserAvatar.HashBound | src/components/UserAvatar.tsx:23-26 | Each character adds at most 2^32 to the hash's magnitude: the hash of a name of length n lies between -n·2^32 and n·2^32. |
| UserAvatar.PaletteIndex | src/components/UserAvatar.tsx:27 | `abs(hash) mod 8` lies in [0, 8). |
| UserAvatar.HashStep | src/components/UserAvatar.tsx:25 | One step of the loop: `code + ((hash << 5) - hash)`, with the shift on int32. `ShiftIsWrappedProduct` and `SmallStepIsPolynomial` state its meaning. |
| UserAvatar.NameHash | src/components/UserAvatar.tsx:23-26 | The hash the loop computes over the name. `HashBound` bounds it and `GetColorFromName` proves the loop equals it. |
| UserAvatar.ColorFor | src/components/UserAvatar.tsx:27 | The palette colour for the hash. `GetColorFromName` and `EmptyNameColor` state its meaning. |
| UserAvatar.GetColorFromName | src/components/UserAvatar.tsx:22-28 | The loop computes the hash recurrence, and the colour is a palette entry. |
| UserAvatar.EmptyNameColor | src/components/UserAvatar.tsx:17-27 | An empty name hashes to 0 and gets "#FF6B6B". |
| UserAvatar.HashExamples | src/components/UserAvatar.tsx:22-28 | "A" hashes to 65 and "Al" to 2123, with their colours. |
| UserAvatar.GetInitials | src/components/UserAvatar.tsx:30-37 | At most two characters. |
| UserAvatar.FirstChars | src/components/UserAvatar.tsx:33-34 | Joins the first characters of the parts; the result is no longer than the number of parts. `FirstCharsOfNonEmpty` states exactly what it is. |
| UserAvatar.FirstCharsOfNonEmpty | src/components/UserAvatar.tsx:33-34 | The joined first characters are exactly those of the non-empty parts, in order. |
| UserAvatar.InitialsMeaning | src/components/UserAvatar.tsx:30-37 | The initials are the upper-cased first letters of the first two non-empty parts, and contain no space. |
| UserAvatar.NoPartsNoInitials | src/components/UserAvatar.tsx:30-37 | An empty or all-space name has no initials. |
| UserAvatar.OneWordInitial | src/components/UserAvatar.tsx:30-37 | A single word gives its upper-cased first letter. |
| UserAvatar.TwoWordInitials | src/components/UserAvatar.tsx:30-37 | Two words separated by a space give both capitals. |
| UserAvatar.ThreeWordInitials | src/components/UserAvatar.tsx:30-37 | Of three words, only the first two capitals are kept. |
| UserAvatar.InitialsExamples | src/components/UserAvatar.tsx:30-37 | "John Doe" gives "JD", "alice" gives "A" and "a b c" gives "AB". |
| UserAvatar.Dimension | src/components/UserAvatar.tsx:11-15 | Sizes are 32, 40 or 56 pixels. |
| UserAvatar.DimensionOrdered | src/components/UserAvatar.tsx:42 | The sizes are ordered, and the default is 40. |
| UserAvatar.AvatarChoices | src/components/UserAvatar.tsx:52-91 | The picture shows exactly for a non-empty image URL; otherwise the initials sit on a palette colour. The dot shows exactly when `online` is given, green when online. |
| UserAvatar.RenderAvatar | src/components/UserAvatar.tsx:52-91 | What the avatar shows. `AvatarChoices` states its meaning. |

## Left out

- Real sockets, timers, `JSON.parse`/`JSON.stringify` and React's state scheduling are not modelled; they appear as events and parameters.
- `Date.now()`, `new Date()` and the `Math.random()` id are parameters of the operations that use them.
- Interleaved callbacks are not modelled, because they are concurrency artefacts:
  - at most one socket and one pending timer at a time (a close is only possible while no timer is pending);
  - in `useChat`, the old socket's `onclose` arriving after `reconnect()` is not modelled, since `reconnect()` replaces the current socket. The close arriving after unmounting is modelled (`ChatHook.ReconnectAfterUnmount`).
- Console logging is dropped.
- An exception that escapes `useWebSocket`'s `connect()` is only reported (`threw`). What React or the browser does with it afterwards is not modelled: an error boundary on mount, an uncaught error in the timer.
- An exception that escapes `onMessage` from the `catch` block is not modelled either; the state it leaves is the one `WebSocketHook.Receive` gives.
- The `useChat` socket's `onerror` only logs, so it is not an event.
- `ChatHook.Session.OnMessage`: the reducer is modelled on frames that parse into the known shapes. A frame whose fields have other types is not modelled.
- `handleSearchChange`, `onSearch` and `onSelect` in the conversation list are not modelled. They only store the query and pass values to callbacks; the filter they feed is `SearchFilter`, with the query as a parameter.
- `formatFileSize` and `formatMessageTime` are left out (floating point and locale formatting). So are the `toLocaleDateString` branch of the two relative-time functions (an opaque `LocaleDate` result) and the `Intl` time in the bubble.
- The avatar's `fontSize` is left out (a floating-point multiplier).
- The JSX markup, styles, `className`/`theme`/`placeholder` props, `adjustHeight` and `scrollIntoView` are left out (presentation only).
- The emoji picker and the typing indicator are left out (presentation only). The HTTP client is a thin `fetch` wrapper and is not part of this model.
- Case mapping covers the ASCII letters only: full Unicode case mapping is not modelled. The whitespace class is the fixed ECMAScript list.
- A `char` stands for one UTF-16 code unit; surrogate pairs are not modelled.
- `UserAvatar.NameHash`: JavaScript numbers are modelled as unbounded integers. `HashBound` shows that the hash stays exactly representable for names shorter than 2^21 characters.
- `ChatWindow.RenderMessages` passes no `sender` and no `onRetry` to the bubbles, as the window does. The default `showAvatar` of the bubble is not needed, since the window always sets it.

## Findings

| source | as written | input that shows it | evidently intended | confidence | as-written member | corrected member |
|---|---|---|---|---|---|---|
| src/hooks/useChat.ts:196-199 | The cleanup clears the timer and closes the socket, but the socket's `onclose` (lines 90-103) stays attached. When the close arrives it schedules a reconnect, and the timer opens a new socket after unmount. | An open socket, `autoReconnect` on, fewer than `maxReconnectAttempts` attempts used. Unmount, then the close event, then the timer. | "Disconnect on unmount" (comment at line 191): no socket opens after the component is gone, as `useWebSocket` ensures by saturating its counter in `disconnect()`. | medium; not executed | ChatHook.ReconnectAfterUnmount | ChatHook.DetachedRunStaysDown |

The `ChatHook.Session` class keeps the cleanup as the source writes it. `ChatHook.DetachedUnmount` is the corrected cleanup, and `ChatHook.DetachedUnmountStaysDown` and `ChatHook.DetachedRunStaysDown` prove the intended property of it: after it, no run without an explicit `reconnect()` opens a socket.
