# Chat and teams state engine

A Dafny model of the state engine behind a single-page chat and teams client
(`script.js`). The engine keeps two records:

- `appState`: the current view, the active item id and the list filter
  (class `Engine.AppState`);
- `data`: the chats, the teams and the message lists keyed by chat id
  (class `Store.Data`).

Every event handler runs to completion and changes these records in place. The
handlers are methods over the two objects: view switching, item selection, the
read-receipt sweep, sending, creating a chat or a team, the simulated reply and the
list filter. Start-up is modelled too: the saved view state is merged over the
defaults, older saved data gets its missing fields, and an initial item is chosen.
Rendering is modelled only where it changes stored data. Opening a chat sorts its
stored list by timestamp and sweeps it for read receipts (`Store.Rendered`). The
list pane is a pure projection (`ListPane.ListRows`).

Modules:

- `Wrappers`: the optional value used for `null`/`undefined`.
- `JsText`: the string built-ins the engine uses.
- `Sorting`: `filter` and the stable `sort`.
- `Records`: the record types and the pure helpers.
- `Store`: the `data` record.
- `ListPane`: the list projection.
- `Markdown`: the message formatter.
- `Engine`: `appState` and the handlers.
- `Loading`: start-up.
- `Scenarios`: concrete runs.

Behaviour kept as the code has it:

- An active id is tested for truthiness by the handlers (`Records.Truthy`: null and
  "" are false). The input-enabled test only compares it with `null`
  (`Records.SendButtonMatchesHandler`).
- A message whose chat id is `null` is stored under the key "null" (`Store.MessageKey`).
- Sending renders the content area. When the active id names a chat, that render
  sweeps the chat's list, so the new sent message is stored already read
  (`Engine.SendOutcome`).
- Every view other than "chat" lists the teams. Only "chat" and "teams" sort the list.
  Creating an item in any other view adds nothing, but the new id still becomes active.
- Unread counts read from storage are never clamped. A click clears only a positive count.
- The simulated reply is filed under the id that is active when it arrives, so it never
  raises an unread count (see Findings).

## Model

| member | source | states |
|---|---|---|
| `JsText.Trim` | script.js:672 | `trim` removes exactly the JavaScript whitespace before and after a slice of the input: the result occurs in the input with only whitespace on either side, has no whitespace at either end, and is empty exactly when the input is all whitespace |
| `JsText.Lower` | script.js:254 | `toLowerCase` keeps the length, lowers each ASCII capital by 32 code points, keeps every other character, and leaves no ASCII capital |
| `JsText.Contains` | script.js:254 | `includes` of the empty string is always true, and of a string longer than the text always false |
| `JsText.ContainsIffOccurs` | script.js:254 | `includes` is true exactly when the substring occurs at some position |
| `JsText.ReplaceAll` | script.js:847 | a global replace leaves a text without the pattern unchanged; replacing `<br>` by a space never lengthens the text; a one-character pattern absent from the replacement (the newline pass) is gone from the result |
| `JsText.ReplaceAllOccurrence` | script.js:847 | the scan replaces the first occurrence of the pattern (no occurrence starts in the text before it) by the replacement, keeps the text before it, and continues after it |
| `JsText.ReplaceAllRemoves` | script.js:847 | replacing by a non-empty text that shares no character with the pattern (a space for `<br>`) leaves no occurrence of the pattern |
| `JsText.Take` | script.js:847 | `substring(0, n)` is the prefix of length min(n, length) |
| `JsText.LexLeTotal` | script.js:263 | the name order used for teams relates every two names |
| `JsText.LexLeTransitive` | script.js:263 | the name order used for teams is transitive |
| `Sorting.FilterMembers` | script.js:252-255 | an element survives `filter` exactly when it is in the input and passes the test |
| `Sorting.FilterAll` | script.js:252-255 | a filter every element passes keeps the whole list |
| `Sorting.SortByPermutes` | script.js:257-264 | sorting with a comparator only reorders: the result is a permutation of the input |
| `Sorting.SortBySorted` | script.js:257-264 | the result of sorting with a total-preorder comparator is in order |
| `Sorting.SortByStable` | script.js:257-264 | the sort is stable: elements the comparator ties keep their input order |
| `Sorting.SortBySortedIsIdentity` | script.js:395-397 | sorting a list that is already in order leaves it unchanged |
| `Sorting.FilterSorted` | script.js:268-273 | filtering an ordered list keeps it ordered |
| `Sorting.FilterPartition` | script.js:268-273 | filtering by a test and by its negation splits the list: each element lands on exactly one side |
| `Records.BackfillChat` | script.js:86-90 | a missing `isPinned`, `status` or `unreadCount` becomes false, "available" or 0; a present one is kept; id, name, avatar, preview and timestamp are kept as stored |
| `Records.BackfillMessage` | script.js:92-96 | a missing `isRead` becomes "type is received" and missing reactions become empty; present ones are kept; id, chat id, sender, text, timestamp and type are kept as stored |
| `Records.StoreChat` | script.js:86-90 | loading a saved chat gives back the chat that was saved |
| `Records.StoreMessage` | script.js:92-97 | loading a saved message gives back the message that was saved |
| `Records.Preview` | script.js:847-850 | the preview starts with "sender: " and is at most 45 characters past the sender. A text of at most 40 characters is quoted whole, with each `<br>` replaced by a space. A longer one is quoted as the first 40 characters of that replaced text (all of it when it is shorter), followed by "...". No `<br>` is left in the quoted part |
| `Records.QuotedHasNoBreak` | script.js:847 | the quoted part of a preview, with or without its "...", contains no `<br>` |
| `Records.Swept` | script.js:650-661 | after the sweep every sent message is read; received messages are untouched; only the read flag ever changes |
| `Records.SweptChangesIff` | script.js:647-661 | the sweep changes the list exactly when some sent message was unread (its `changed` flag) |
| `Records.SweptIdempotent` | script.js:647-661 | after one sweep nothing is left to mark, and a second sweep changes nothing |
| `Records.ByTimeIsTotalPreorder` | script.js:395-397 | the message comparator by timestamp is a total preorder |
| `Records.SweptKeepsTimeOrder` | script.js:395-416 | the sweep keeps a list that is in time order in time order |
| `Records.FindById` | script.js:834 | `find` by id returns the first item with that id, and returns nothing exactly when no item has it |
| `Records.FindActiveItem` | script.js:831-835 | a truthy active id resolves to the first item of the current view with that id, as `find` returns; a falsy id, or one no item carries, resolves to nothing |
| `Records.ChatIndex` | script.js:617 | `findIndex` returns the first chat with the id, or -1 exactly when none has it |
| `Records.FirstUnpinnedIndex` | script.js:107 | the position of the first unpinned item, or -1 exactly when every item is pinned |
| `Records.FirstSelectable` | script.js:103-111 | the selection rule: the first unpinned item, else the first item, else nothing (only for an empty view) |
| `Records.BadgeLabel` | script.js:366-370 | there is no badge unless the count is positive; a count up to 9 shows as its digit, and a larger count shows as "9+" |
| `Records.SendButtonMatchesHandler` | script.js:515-518 | whenever the send handler accepts, the send button is enabled; an enabled button is accepted unless the active id is ""; for "" the button is enabled but the handler refuses |
| `Store.Appended` | script.js:837-842 | the message's chat list, created empty when absent, ends with the message after all it held before; no other list changes |
| `Store.WithMessage` | script.js:843-854 | the first chat with the message's chat id gets the message's preview and timestamp; its unread count and all other chats are unchanged |
| `Store.SweptAt` | script.js:647-661 | the sweep touches only the one list, and an absent list stays absent |
| `Store.OpenChat` | script.js:379-389 | the content area shows a chat only in the chat view, for a truthy active id that names a chat |
| `Store.Rendered` | script.js:395-416 | the open chat's list becomes `Shown` of it (sorted by time, then swept); no other list changes |
| `Store.SortCommutesWithSweep` | script.js:395-416 | sweeping and the time sort commute |
| `Store.ShownProperties` | script.js:395-416 | the open chat's rendered list is in time order and a permutation of the swept list; it is the stable time sort of that list, and every sent message in it is read |
| `Store.ShownIdempotent` | script.js:663-666 | showing a shown list again changes nothing |
| `Store.RenderedIdempotent` | script.js:663-666 | the re-render that a changing sweep triggers has no further effect |
| `Store.RenderedEmptyList` | script.js:395-412 | rendering an open chat with an empty list changes nothing |
| `Store.Data.AddMessage` | script.js:837-855 | `addMessageToData` appends the message and updates its chat's preview and timestamp; teams are unchanged |
| `Store.Data.SweepList` | script.js:647-661 | the sweep loop leaves the list swept and returns whether some sent message was unread; chats and teams are unchanged |
| `Store.Data.SortList` | script.js:395-397 | the in-place sort by timestamp of one stored list; an absent list stays absent |
| `ListPane.ListRows` | script.js:266-315 | when items are shown, the item rows carry the pinned items followed by the recent ones, and each item row is marked active exactly when its id is the active id; the "Pinned" header is present exactly when a pinned item is shown, and the "Recent" header exactly when the chat view shows an unpinned item |
| `ListPane.NewerFirstIsTotalPreorder` | script.js:259 | the chat comparator, newest first with a missing timestamp as 0, is a total preorder |
| `ListPane.NameOrderIsTotalPreorder` | script.js:263 | the team comparator is a total preorder |
| `ListPane.ShownAreMatching` | script.js:252-255 | the shown items are exactly the items of the view whose lower-cased name contains the lower-cased filter, each as often as the view holds it |
| `ListPane.EmptyFilterShowsAll` | script.js:252-255 | with an empty filter every item of the view is shown |
| `ListPane.ShownOrder` | script.js:257-264 | chats are listed newest first (missing timestamp as 0), teams by name |
| `ListPane.SameTimeKeepsListOrder` | script.js:258-260 | chats with equal timestamps keep their order in the chat list |
| `ListPane.SectionsPartition` | script.js:268-273 | Pinned and Recent hold each shown item exactly once. Pinned has only pinned chats and Recent only unpinned ones, both newest first. Outside the chat view, Pinned is empty and Recent is everything |
| `ListPane.EmptyStates` | script.js:275-308 | a placeholder appears exactly when nothing passes the filter; it is the "matching" text exactly when the filter is not empty, and the two texts differ |
| `ListPane.PlaceholdersDiffer` | script.js:304-308 | the "matching" placeholder text and the plain one are never the same text |
| `ListPane.OneActiveRow` | script.js:266-315 | when the items of the view have distinct ids, at most one row of the list is marked active |
| `ListPane.ActiveRowShown` | script.js:266-315 | some row is marked active exactly when the active id names a shown item |
| `Markdown.FindCloser` | script.js:505-507 | the non-greedy `(.*?)` stops at the first closing delimiter with no line terminator before it: no earlier position starts a delimiter; there is no closer exactly when every later delimiter has a line terminator before it |
| `Markdown.FormatMarkdown` | script.js:503-512 | formatted text is empty exactly when the message text is, and never contains a newline (each has become `<br>`) |
| `Markdown.WrapAbsent` | script.js:505-507 | a pass whose delimiter does not occur leaves the text unchanged |
| `Markdown.FormatPlain` | script.js:503-512 | a text without `*` and without a newline is shown exactly as written |
| `Engine.AppState.constructor` | script.js:29-34 | the defaults: chat view, no active item, empty filter |
| `Engine.RenderContentArea` | script.js:379-417 | rendering leaves the stored lists as `Store.Rendered` says; chats and teams are unchanged |
| `Engine.ShowChat` | script.js:393-415 | the open chat's stored list becomes its sorted, swept form (`Store.Shown`); an absent list stays absent and nothing else changes |
| `Engine.MarkMessagesAsRead` | script.js:647-669 | sweeps the list under the chat id's key; `changed` is true exactly when some sent message was unread; it re-renders exactly when something changed and the chat is the active one |
| `Engine.FirstAllowed` | script.js:600-602 | the rail's `find` returns the first item that passes its test (an unpinned item in the chat view, any item elsewhere), and nothing exactly when no item passes |
| `Engine.RailPick` | script.js:600-603 | the rail picks the first item that passes its test when one does, else the first item, and nothing only for an empty list |
| `Engine.RailPickIsSelectionRule` | script.js:598-603 | the rail's pick, the first allowed item or else the first item, is the same item as the start-up selection rule |
| `Engine.HandleRailClick` | script.js:594-610 | a click on the current view does nothing. Any other view becomes current, with its first selectable item active and the filter cleared. Chats and teams are unchanged |
| `Engine.ClearUnread` | script.js:616-619 | the clicked chat is left with no badge: a positive count becomes 0, a count of zero or below is left as it is; every other chat and field is unchanged |
| `Engine.HandleListItemClick` | script.js:612-645 | a click on the active item does nothing. Otherwise the item becomes active. In the chat view its unread count is cleared, and its list is swept and rendered. In other views the data is unchanged |
| `Engine.SentMessage` | script.js:681-690 | the new message is sent by "You" to the active id, carries the text and time, has no reactions, and is unread, so it is exactly what the sweep later marks read |
| `Engine.HandleSendMessage` | script.js:671-700 | an input that trims to nothing, a falsy active id or a view other than chat changes nothing. Otherwise exactly one message is added: sender "You", type sent, unread, the trimmed text, no reactions. Then the content area is rendered |
| `Engine.SendOutcome` | script.js:671-693 | after an accepted send the active chat's list holds one more message and no other list changes. If the id names a chat, the list is in time order and holds the new message already read. Otherwise the message is at the end, unread |
| `Engine.AvatarUrl` | script.js:713-715 | the avatar is the placeholder address with the colour, ending in the name's first character in upper case |
| `Engine.NewChat` | script.js:710-723 | a new chat keeps its id, name and avatar, is not pinned, is offline, has unread count 0 and so no badge, shows "Chat created." and sorts at its creation time |
| `Engine.CreateItem` | script.js:710-734 | chat view: adds a chat with preview "Chat created.", not pinned, "offline", unread 0, and an empty list. Teams view: adds a team with only id, name and avatar. Other views: adds nothing. The new id becomes active |
| `Engine.HandleNewItem` | script.js:702-736 | a cancelled or blank answer changes nothing; otherwise the trimmed answer names the new item as `Engine.CreateItem` states |
| `Engine.NewChatIsSelectedAndRecent` | script.js:718-731 | a new chat with an id no chat had is the active item, and it is listed under Recent whenever its name passes the filter |
| `Engine.HandleSimulateReceive` | script.js:738-746 | a reply is scheduled exactly when the view is chat and the active id is truthy and names a chat; the scheduled reply captures the chat `find` returns for the active id, the first with that id |
| `Engine.ArrivedMessage` | script.js:749-761 | the reply's chat id is the id active at arrival; it is read exactly when that id is the captured chat's |
| `Engine.ReplyArrives` | script.js:748-783 | as written: the reply is added under the id active at arrival, then the sweep and the render run, and no unread count changes |
| `Engine.BumpUnread` | script.js:766-773 | the captured chat's unread count rises by one and nothing else changes |
| `Engine.RaiseUnread` | script.js:766-773 | the stored chats become `BumpUnread` of the old ones; messages and teams are unchanged |
| `Engine.IntendedReplyArrives` | script.js:748-783 | as intended: the reply is added under the captured chat. If that chat is no longer active, its unread count rises by one; otherwise its list is swept |
| `Engine.HandleListFilterChange` | script.js:786-791 | the filter becomes the search text; view and active item are unchanged |
| `Engine.ClearListFilter` | script.js:793-796 | the filter becomes empty; view and active item are unchanged |
| `Loading.LoadState` | script.js:59-67 | saved fields replace the defaults, and an empty or missing view becomes "chat" |
| `Loading.BackfillChats` | script.js:86-90 | the chat loop gives every saved chat backfilled, in order |
| `Loading.BackfillMessageList` | script.js:93-96 | the message loop gives every saved message of a list backfilled, in order |
| `Loading.BackfillMessageLists` | script.js:92-97 | every saved list is backfilled, under the same keys |
| `Loading.LoadData` | script.js:77-114 | saved data is backfilled, with missing collections empty; without saved data the seed is used. An active id that resolves is kept; otherwise the selection rule picks the item |
| `Loading.SelectionResolves` | script.js:103-113 | after loading, the active id resolves unless the view is empty or the chosen id is "" |
| `Loading.InitApp` | script.js:49-56 | after start-up the view and filter are the saved ones over the defaults; the active id is the saved one when it resolves, else the selection rule's pick; chats and teams are the loaded ones; the message lists are the loaded lists as the first render leaves them (the open chat sorted and swept). The view is never empty, and the active id resolves in any non-empty view unless it is "" |
| `Scenarios.SwitchBeforeReply` | script.js:748-773 | open Alice, request a reply, open Bob: the reply lands in Bob's list, Alice's list stays empty and her unread count stays 0 |
| `Scenarios.IntendedSwitchBeforeReply` | script.js:748-773 | the same run with the intended step: the reply lands in Alice's list and her unread count becomes 1 |

## Left out

- DOM work is not modelled: building the rail, list and message elements, date
  separators, scrolling, tab switching, and the title and placeholder texts of the
  content area. The list pane is modelled as rows of data (`ListPane.ListRows`).
- `localStorage` and `JSON` are not modelled. Saving does not change the records.
  Loading takes records that are already decoded, or `None` when nothing was stored.
  A malformed stored blob makes `JSON.parse` throw in the code; that path is not modelled.
- Timers are not modelled. The 800 ms reply delay becomes two steps:
  `Engine.HandleSimulateReceive` captures the chat and `Engine.ReplyArrives` runs later.
  The typing indicator and its 1500 ms timeout are display only.
- Clock and randomness are parameters: `generateId`, `Date.now`, the random avatar
  colour and the time label from `formatTimestamp`. Generated ids are not assumed to be
  fresh; the one lemma that needs a fresh id says so.
- The seed fixture `seedDefaultData` is a parameter (a `Loading.Contents` value).
- `Engine.RenderContentArea` does not call `Engine.MarkMessagesAsRead`, to avoid
  mutual recursion. It sweeps directly, and `Store.RenderedIdempotent` proves the nested
  re-render would change nothing.
- `localeCompare` is modelled as lexicographic order on character codes (`JsText.LexLe`).
  Locale collation is not modelled.
- `toLowerCase` and `toUpperCase` are modelled on ASCII letters only.
- Text is a sequence of Unicode scalar values, not of UTF-16 code units. Lengths and
  `substring` agree with JavaScript only for text inside the Basic Multilingual Plane.
  For text outside it, such as emoji, the 40-unit cut and the length test of the preview
  count differently from the model.
- A saved `listFilter` of `null` is not modelled; the saved filter is a string when present.
- `Markdown.FormatMarkdown` models the three passes, but the lemmas state only the
  properties listed above, not the full regular-expression semantics.

## Findings

| source | as written | input that shows it | evidently intended | confidence | as-written member | corrected member |
|---|---|---|---|---|---|---|
| script.js:748-773 | the reply's chat id is read when the reply arrives (line 751), so the test at line 766 compares the active id with itself and the unread increment (lines 767-773) never runs | open chat A, press simulate, open chat B within 800 ms: the reply is filed under B and A's unread count stays 0 | file the reply under the chat captured at click time, and raise that chat's unread count by one when it is no longer active | not executed | `Engine.ReplyArrives`, `Scenarios.SwitchBeforeReply` | `Engine.IntendedReplyArrives`, `Scenarios.IntendedSwitchBeforeReply` |

The handlers keep the reply step as written (`Engine.ReplyArrives`), because that is
the behaviour the code has. `Engine.IntendedReplyArrives` is the corrected step, with
its unread increment proved and shown on the same run.
