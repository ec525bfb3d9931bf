# proxy-chat-client: client-side message and session state

This project models the client-side state of the proxy-chat Next.js client in Dafny and proves
properties of that model. It covers:

- **The local message store** (`src/utils/db.ts`, `src/utils/db-debug.ts`). This is a Dexie
  table of stored messages with an auto-increment `++id` key.
  - `addMessage` turns a wire message into a row. A truthy `group_id` makes the row a group
    message addressed to that group; anything else makes it a user message addressed to
    `receiver_id`. Every new row starts unread.
  - `getMessages` loads one conversation in both directions, sorted by `created_at`.
  - `markMessageAsRead` sets `isRead` on one row.
  - `getUnreadCount` counts the unread rows from one sender to one receiver.
  - The debug helpers list and count rows.
  - In the model the table is the class `MessageDb.MessageTable`. It holds a `seq` of rows and
    the next key. Every storage call can fail, and each failure is caught and turned into "no
    change", `[]` or `0`; whether it fails is a `storageFails` parameter.
- **The socket provider** (`src/context/SocketContext.tsx`).
  - A set of message callbacks that can be registered and unregistered.
  - The connection flag, set by the socket's `open` and `close` events. A close schedules one
    reconnect after 3000 ms.
  - An inbound frame is first added to the store and then handed to every registered callback.
    A callback that throws does not stop the others.
- **The unread badge of a user avatar** (`src/components/UI/UserAvatar.tsx`). The badge holds
  the number of unread messages from one peer to the current user.
  - It is recounted when an inbound frame concerns that peer and is tagged `"user"`.
  - It is also recounted whenever the socket is connected.
  - It is shown when the count is positive.
- **The current-chat slot** (`src/context/ChatContext.tsx`). The open conversation is mirrored
  in local storage together with the time it was written. On load it is discarded once it is
  more than 30 minutes old.
- **The current-user slot** (`src/context/UserContext.tsx`). The signed-in user is mirrored in
  local storage by every change: set, partial update, visibility toggle and remove. With no
  stored user, the app goes to `/sign-in`.
- **The movement gate** (`src/components/Geo/LocationUpdater.tsx`). A position is reported only
  when there is no earlier reported position, or when the new one is at least 20 m away from it.
- **The avatar URL** (`src/utils/userAvatar.ts`). The URL is built from the username without
  spaces and a masked, hex-encoded background colour.

The current user id, read from local storage in the source, is an `Option<int>` parameter. JS
truthiness of such an id is `Wrappers.Truthy`, so `0` and a missing id are both falsy.

`===` between two possibly missing ids is modelled as equality of options. As a result,
`getMessages` with no signed-in user matches rows that have no receiver and that come from
the partner.

Dexie's `sortBy('created_at')` compares strings with JavaScript's `<`. The model defines this
comparison as `StringOrder.LessEq` and proves it is a total order. The sort is an insertion
sort, proved to return a sorted permutation of its input.

`getUnreadCount` does not look at `receiver_type`, so a group message can be counted as
unread from a user. The model keeps this behaviour as written. `MessageDb.GroupMessageCountedAsUnread`
and `MessageDb.ConversationReadLeavesOnlyGroupUnread` show where it leads: opening a
conversation marks every user row read, yet such a group row stays unread and keeps the
badge up.

## Model

| member | source | states |
|---|---|---|
| `Wrappers.Truthy` | src/utils/db-debug.ts:64 | an optional id is truthy exactly when it is present and not 0, so a missing id and the id 0 both count as no user |
| `MessageDb.Normalise` | src/utils/db.ts:21-28 | the row is unread and carries the given key; it is a group row exactly when `group_id` is truthy, its receiver is the group id in that case and `receiver_id` otherwise; every other field is copied from the message |
| `MessageDb.ZeroGroupIdIsUserMessage` | src/utils/db.ts:21 | a `group_id` of 0 is falsy, so the message is stored as a user message addressed to `receiver_id` |
| `MessageDb.MessageTable.constructor` | src/utils/db.ts:15-17 | an empty table whose key generator starts at 1 |
| `MessageDb.MessageTable.AddMessage` | src/utils/db.ts:20-38 | on success exactly one row, the normalised message under the next key, is appended and its key is larger than every earlier key; a failed add is swallowed and leaves the table unchanged; keys stay strictly ascending |
| `MessageDb.AscendingRowsStoredOnce` | src/utils/db.ts:16 | with strictly ascending `++id` keys no row occurs twice in the table |
| `MessageDb.Filter` | src/utils/db.ts:51-54 | a filtered query is no longer than the table and contains exactly the stored rows that satisfy the predicate |
| `MessageDb.FilterMultiplicity` | src/utils/db.ts:51-54 | a filter keeps each selected row exactly as often as it is stored and drops every other row |
| `MessageDb.FilterMultiplicities` | src/utils/db.ts:51-54 | the same for all rows at once |
| `MessageDb.FilterLengthIsCardinality` | src/utils/db.ts:74-78 | with ascending keys, the length of a filter is the number of distinct selected rows |
| `MessageDb.FilterConcat` | src/utils/db.ts:74-78 | filtering a table extended by more rows is filtering the old rows followed by filtering the new ones |
| `MessageDb.FilterKeepsIdsAscending` | src/utils/db-debug.ts:19-21 | a query keeps primary-key order, so its keys stay strictly ascending |
| `StringOrder.LessEqCharacterised` | src/utils/db.ts:55 | the `created_at` key order holds exactly when one string is a prefix of the other or is smaller at the first position where they differ |
| `StringOrder.LessEqTotal` | src/utils/db.ts:55 | any two keys are comparable |
| `StringOrder.LessEqTransitive` | src/utils/db.ts:55 | the key order is transitive |
| `StringOrder.LessEqAntisymmetric` | src/utils/db.ts:55 | two keys each ordered before the other are equal |
| `StringOrder.LessEq` | src/utils/db.ts:55 | the JavaScript string comparison used as the `sortBy` key order, character by character; a prefix of a string is ordered before it |
| `MessageDb.InsertByCreatedAt` | src/utils/db.ts:55 | inserting a row into a list sorted by `created_at` keeps it sorted and adds exactly that row |
| `MessageDb.SortByCreatedAt` | src/utils/db.ts:55 | `sortBy('created_at')` returns the same rows, as a multiset, in non-decreasing `created_at` order |
| `MessageDb.InConversation` | src/utils/db.ts:49-53 | a row belongs to the conversation when it has the requested kind and goes from the current user to the partner or from the partner to the current user |
| `MessageDb.Conversation` | src/utils/db.ts:48-55 | the conversation query on a healthy store: sorted by `created_at`, no longer than the table, and containing exactly the stored rows that belong to the conversation |
| `MessageDb.ConversationSymmetric` | src/utils/db.ts:52-53 | the two participants of a conversation load the same rows: the selection with self `a` and partner `b` is the selection with self `b` and partner `a` |
| `MessageDb.MessageTable.GetMessages` | src/utils/db.ts:41-60 | `[]` on a storage error; otherwise exactly the rows of the requested kind from the current user to the partner or from the partner to the current user, each once, sorted by `created_at` |
| `MessageDb.UnreadFrom` | src/utils/db.ts:75-77 | a row is counted when it is from that sender, to that receiver and unread, whatever its kind |
| `MessageDb.CountUnread` | src/utils/db.ts:74-78 | the count is at most the table size and is 0 exactly when no row is unread from that sender to that receiver |
| `MessageDb.CountUnreadIsCardinality` | src/utils/db.ts:72-78 | with ascending keys the count equals the number of distinct unread rows from the sender to the receiver, whatever their kind |
| `MessageDb.AppendCountUnread` | src/utils/db.ts:74-78 | appending a row raises the count by one exactly when that row is unread from the sender to the receiver, and leaves it unchanged otherwise |
| `MessageDb.MessageTable.GetUnreadCount` | src/utils/db.ts:72-83 | 0 on a storage error, otherwise the unread count from the sender to the receiver |
| `MessageDb.GroupMessageCountedAsUnread` | src/utils/db.ts:74-78 | the count ignores `receiver_type`: a group row from the peer to a group whose id equals the current user's id is counted, while the user conversation with the peer does not load it |
| `MessageDb.MarkedRead` | src/utils/db.ts:65 | the table keeps its length; each row keeps every field except `isRead`, which becomes true exactly for the row with that key and stays as it was for the others |
| `MessageDb.MarkedReadIdempotent` | src/utils/db.ts:63-69 | marking the same message read twice is marking it once |
| `MessageDb.MarkedReadAbsent` | src/utils/db.ts:63-69 | marking a key that no row has changes nothing |
| `MessageDb.MessageTable.MarkMessageAsRead` | src/utils/db.ts:63-69 | only `isRead` of the row with that key changes; a failure leaves the table unchanged; the key generator is untouched |
| `MessageDb.MarkAllRead` | src/utils/db.ts:63-69 | marking a list of keys one after the other sets `isRead` exactly on the rows whose key is in the list and changes nothing else |
| `MessageDb.ConversationReadLeavesOnlyGroupUnread` | src/utils/db.ts:72-78 | once every row of the user conversation has been marked read, any row still counted as unread from the partner to the current user is a group row |
| `MessageDb.MessageTable.DebugMessages` | src/utils/db.ts:85-93 | the whole table, or `[]` on a storage error |
| `MessageDbDebug.ListAllMessages` | src/utils/db-debug.ts:5-14 | the whole table, or `[]` on a storage error, the same result as `debugMessages` |
| `MessageDbDebug.ListMessagesBySender` | src/utils/db-debug.ts:17-28 | `[]` on a storage error; otherwise exactly the rows from that sender, in key order |
| `MessageDbDebug.ListMessagesByReceiver` | src/utils/db-debug.ts:31-42 | `[]` on a storage error; otherwise exactly the rows with that receiver id and that kind, in key order |
| `MessageDbDebug.ListUnreadMessages` | src/utils/db-debug.ts:45-56 | `[]` on a storage error; otherwise exactly the unread rows, in key order |
| `MessageDbDebug.SendersOf` | src/utils/db-debug.ts:82-84 | the distinct senders of the table: every stored row's sender is in it, and each of its members sent some stored row |
| `MessageDbDebug.DebugMessageCounts` | src/utils/db-debug.ts:59-100 | nothing is counted without a truthy current user id; a storage failure is caught and reports nothing; with a user and healthy storage the counts are always reported: the total, unread, sent and received counts, and for every distinct sender other than the current user the same number `getUnreadCount(sender, currentUser)` returns |
| `Socket.Dispatch` | src/context/SocketContext.tsx:75-81 | every callback receives the raw frame exactly once, the throwing ones included, and the ones that throw are exactly the callbacks in the throwing set |
| `Socket.SocketProvider.constructor` | src/context/SocketContext.tsx:16-19 | no callbacks, no socket, not connected |
| `Socket.SocketProvider.RegisterMessageCallback` | src/context/SocketContext.tsx:31-34 | the callback set gains that callback; registering it again leaves a single entry |
| `Socket.SocketProvider.UnregisterMessageCallback` | src/context/SocketContext.tsx:37-41 | exactly that callback is removed, the others remain, and removing it again changes nothing |
| `Socket.SocketProvider.ConnectSocket` | src/context/SocketContext.tsx:45-53 | without a truthy user id no socket is created; otherwise a new socket becomes the current one |
| `Socket.SocketProvider.OnOpen` | src/context/SocketContext.tsx:55-58 | the provider is connected |
| `Socket.SocketProvider.OnClose` | src/context/SocketContext.tsx:60-64 | the provider is disconnected and exactly one reconnect after 3000 ms is scheduled |
| `Socket.SocketProvider.OnMessage` | src/context/SocketContext.tsx:66-82 | the frame is appended to the store, as `addMessage` would append it, and the store's key generator advances by one (neither changes when storage fails), before the callbacks run; then every callback registered at that moment receives the raw frame, and one that throws does not stop the rest |
| `Socket.SocketProvider.RemoveSocket` | src/context/SocketContext.tsx:105-111 | the socket that was current, if any, is closed; afterwards there is no socket and the provider is disconnected |
| `UnreadBadge.TriggersRecount` | src/components/UI/UserAvatar.tsx:57-60 | a frame not tagged `"user"`, whether untagged or a group frame, never triggers a recount; a `"user"` frame from or to the peer always does; a frame neither from nor to the peer never does |
| `UnreadBadge.BadgeShownIffUnreadFromPeer` | src/components/UI/UserAvatar.tsx:125 | after a recount the badge is shown exactly when some stored row from the peer to the current user is unread |
| `UnreadBadge.UserFrameFromPeerRaisesBadge` | src/components/UI/UserAvatar.tsx:57-62 | a frame from the peer to the current user tagged `"user"` triggers a recount, and the row it adds raises the count by one |
| `UnreadBadge.UntaggedFrameRaisesCountWithoutRecount` | src/components/UI/UserAvatar.tsx:59 | a frame without a `receiver_type` tag raises the stored count but triggers no recount |
| `UnreadBadge.UserAvatar.constructor` | src/components/UI/UserAvatar.tsx:17 | the badge of a peer starts at 0 |
| `UnreadBadge.UserAvatar.FetchUnread` | src/components/UI/UserAvatar.tsx:20-40 | without a truthy current user id nothing is queried and the badge is unchanged; otherwise the badge becomes `getUnreadCount(peer, currentUser)` |
| `UnreadBadge.UserAvatar.HandleNewMessage` | src/components/UI/UserAvatar.tsx:43-63 | a recount happens exactly when there is a current user id, the frame is from or to the peer, and the frame is tagged `"user"`; otherwise the badge is unchanged |
| `UnreadBadge.UserAvatar.OnConnectionChange` | src/components/UI/UserAvatar.tsx:85-90 | a recount happens exactly when the socket is connected and there is a current user id |
| `ChatSlot.MergeChat` | src/context/ChatContext.tsx:52 | for each of the eight fields, a supplied value replaces the chat's and a field not supplied is kept |
| `ChatSlot.MergeNoChange` | src/context/ChatContext.tsx:52 | an empty patch leaves the chat unchanged |
| `ChatSlot.MergeComposes` | src/context/ChatContext.tsx:49-54 | two updates in a row equal one update with the later patch winning field by field, so repeating an update is harmless |
| `ChatSlot.MergeFullPatch` | src/context/ChatContext.tsx:52 | a patch that supplies every field replaces the chat entirely |
| `ChatSlot.LoadChat` | src/context/ChatContext.tsx:18-35 | the stored chat loads exactly when it is present, parseable and not older than 30 minutes, and storage is then kept; a missing key loads nothing; an unparseable or expired entry loads nothing and its key is removed |
| `ChatSlot.ExpiryBoundary` | src/context/ChatContext.tsx:26 | a chat exactly 30 minutes old still loads, and one a millisecond older does not |
| `ChatSlot.Persisted` | src/context/ChatContext.tsx:37-43 | a chat is written together with the current time, and no chat removes the key |
| `ChatSlot.PersistedReloads` | src/context/ChatContext.tsx:18-43 | reloading what the effect wrote within 30 minutes gives the same chat back |
| `ChatSlot.ChatContext.constructor` | src/context/ChatContext.tsx:18-43 | the state is the loaded chat, and storage is what the persistence effect then writes for it |
| `ChatSlot.ChatContext.SetChat` | src/context/ChatContext.tsx:45-47 | the state becomes the given chat and storage mirrors it with the current time, or loses the key when there is no chat |
| `ChatSlot.ChatContext.UpdateChat` | src/context/ChatContext.tsx:49-54 | with no chat, the state stays null and storage is untouched; otherwise the patch is merged in and the result is persisted with the current time |
| `ChatSlot.ChatContext.RemoveChat` | src/context/ChatContext.tsx:56-59 | no chat and no stored key |
| `UserSlot.ToggledVisibility` | src/context/UserContext.tsx:69 | `visible` flips and every other field is kept |
| `UserSlot.ToggleInvolution` | src/context/UserContext.tsx:66-73 | toggling twice restores the user, and a toggle is the update that supplies only the flipped flag |
| `UserSlot.MergeUser` | src/context/UserContext.tsx:59 | for each of the eight fields, a supplied value replaces the user's and a field not supplied is kept |
| `UserSlot.MergeUserComposes` | src/context/UserContext.tsx:56-63 | an empty patch changes nothing; two updates in a row equal one update with the later patch winning field by field, so repeating an update is harmless |
| `UserSlot.MergeFullPatch` | src/context/UserContext.tsx:59 | a patch that supplies every field replaces the user entirely |
| `UserSlot.UserContext.constructor` | src/context/UserContext.tsx:31 | the provider starts with no user, whatever storage holds |
| `UserSlot.UserContext.LoadOnMount` | src/context/UserContext.tsx:36-43 | a stored user becomes the state; with none, the state is unchanged and the app is sent to `/sign-in` |
| `UserSlot.UserContext.SetUser` | src/context/UserContext.tsx:46-53 | the state becomes the given user; a user is stored and no user removes the key |
| `UserSlot.UserContext.UpdateUser` | src/context/UserContext.tsx:56-63 | with no user, nothing changes and storage is untouched; otherwise the merged user becomes the state and is stored |
| `UserSlot.UserContext.ToggleVisibility` | src/context/UserContext.tsx:66-73 | with no user, nothing changes; otherwise only `visible` flips and the result is stored |
| `UserSlot.UserContext.RemoveUser` | src/context/UserContext.tsx:79-81 | no user and no stored key, as `setUser(null)` leaves them |
| `UserSlot.UserContext.IsLoggedIn` | src/context/UserContext.tsx:93 | true exactly when there is a user |
| `Location.LocationUpdater.constructor` | src/components/Geo/LocationUpdater.tsx:11-12 | no position has been reported yet |
| `Location.ShouldReport` | src/components/Geo/LocationUpdater.tsx:23-34 | with no last position a reading is always reported; otherwise exactly when its distance from the last position is at least 20 m, because the skip test is a strict `<` |
| `Location.LocationUpdater.HandlePosition` | src/components/Geo/LocationUpdater.tsx:20-50 | with no user nothing is ever reported; otherwise a reading is reported exactly when there is no last position or its distance from the last one is not below 20 m; a report carries the user id and the reading's coordinates, and the reading becomes the last position before the request is sent; a skipped reading leaves the last position unchanged; with a user, one call reports what `ReportedPositions` reports for that single reading and leaves the last position that stream leaves |
| `Location.ReportedPositions` | src/components/Geo/LocationUpdater.tsx:20-38 | the positions reported for a stream of readings: no more reports than readings, every report is one of the readings, and with no earlier position the first reading is always reported |
| `Location.NextLast` | src/components/Geo/LocationUpdater.tsx:23-38 | the last reported position after one reading: the reading when it is reported, the previous last position when it is skipped |
| `Location.ReportsAreFarApart` | src/components/Geo/LocationUpdater.tsx:23-38 | over any stream of readings, consecutive reports, and the starting position and the first report, are at least 20 m apart |
| `Location.ReportedPositionsStep` | src/components/Geo/LocationUpdater.tsx:20-38 | the reports for a stream of readings are those of its first reading followed by those of the rest, started from the last position the first reading leaves, so successive `handlePosition` calls report exactly `ReportedPositions` |
| `Avatar.RemoveSpaces` | src/utils/userAvatar.ts:2 | the result contains no space and is no longer than the username |
| `Avatar.RemoveSpacesConcat` | src/utils/userAvatar.ts:2 | removing spaces distributes over concatenation |
| `Avatar.RemoveSpacesKeepsOthers` | src/utils/userAvatar.ts:2 | every other character occurs exactly as often as in the username |
| `Avatar.RemoveSpacesIdentity` | src/utils/userAvatar.ts:2 | a username without spaces is kept as it is |
| `Avatar.BitAnd` | src/utils/userAvatar.ts:4 | the bitwise `and` of two non-negative numbers is at most each of them |
| `Avatar.BitAndBits` | src/utils/userAvatar.ts:4 | `BitAnd` is bitwise: bit `i` of the result is set exactly when bit `i` is set in both operands |
| `Avatar.BitAndIdempotent` | src/utils/userAvatar.ts:4 | masking a masked value again changes nothing |
| `Avatar.ColourValue` | src/utils/userAvatar.ts:3-4 | the colour, taken modulo 2^32 as `&` does and then masked, has bits only where `0xB0B0B0` has them, so it lies in [0, 0xB0B0B0] |
| `Avatar.ToHex` | src/utils/userAvatar.ts:4 | `toString(16)` gives a non-empty string of lowercase hex digits whose value is the number |
| `Avatar.ToHexFits` | src/utils/userAvatar.ts:4 | a number below 16^k has at most k hex digits |
| `Avatar.PadStart` | src/utils/userAvatar.ts:4 | `padStart` gives the string preceded by just enough fill characters to reach the width, and a longer string is kept |
| `Avatar.LeadingZerosDoNotCount` | src/utils/userAvatar.ts:4 | padding with `'0'` does not change the hex value |
| `Avatar.Background` | src/utils/userAvatar.ts:4 | the background is exactly six lowercase hex digits whose value is the masked colour |
| `Avatar.GenerateAvatarUrl` | src/utils/userAvatar.ts:1-9 | the URL is the fixed ui-avatars prefix, then the username without spaces, then `&background=` and the six-digit background, then `&color=ffffff&size=256` |

## Left out

- I/O and runtime machinery are left out: the WebSocket itself and its URL, `onerror`, JSON
  parsing of frames, React effects, closures and re-renders, IndexedDB transactions, and all
  `console` logging. The clock (`Date.now()`), `Math.random()`, the geolocation watcher and
  the storage outcome are parameters.
- The `UpdateUser` HTTP request of the location updater is returned as a `LocationUpdate`
  value rather than sent; whether it succeeds does not matter, because the last position is
  updated before it.
- `haversineDistance` is a parameter of type `(Coords, Coords) -> real`. Its file is not part
  of this model, and it computes in floating point.
- The two timers are not modelled: the 10-second callback-count log in `SocketContext.tsx`
  and the 2-second unread poll in `UserAvatar.tsx`. The poll is never cleared; each tick of
  it is one `UnreadBadge.UserAvatar.FetchUnread`.
- The mount cleanup in `SocketContext.tsx` closes the `socket` captured at the first render,
  which is always `null`, so it closes nothing. This is not modelled.
- `UnreadBadge.UserAvatar.FetchUnread`: the `isMounted` flag is always true when it is
  checked, so it is not modelled.
- `Socket.SocketProvider.RemoveSocket`: the closed socket keeps its `onclose` handler, so the
  close later reports disconnection and schedules a reconnect. In the model that is a
  separate `OnClose` event, not part of `RemoveSocket`.
- `Socket.SocketProvider.OnMessage`: `addMessage` is not awaited in the source, so the
  callbacks may run before the row is actually written. The model completes the append
  first.
- `Socket.Dispatch`: the order in which callbacks are called is not stated. Only the set of
  callbacks called and the frame each receives are stated. The model also assumes no
  callback changes the registry while it is being walked.
- `MessageDb.MessageTable.GetMessages`: the relative order of rows with equal `created_at` is
  not stated. Only sortedness and the exact rows are stated.
- `StringOrder.LessEqCharacterised`: JavaScript compares UTF-16 code units and the model
  compares characters. The two differ only for characters outside the Basic Multilingual
  Plane, which ISO timestamps do not contain.
- `MessageDbDebug.ListUnreadMessages`: Dexie is given `{ isRead: false }`. A boolean is not a
  valid IndexedDB key, so in a browser this query probably takes the error path. The model
  states the intended filter and the error path, with the failure as a parameter.
- `MessageDbDebug.DebugMessageCounts`: the unread total at src/utils/db-debug.ts:70 uses the
  same `{ isRead: false }` query. In a browser its rejection jumps to the catch at line 97,
  so with a user every call probably ends in `CountFailed` and nothing after line 70 is
  reported. `Counted` is the intended outcome, not the observed one; the model reaches it
  when the storage outcome is healthy.
- `MessageDbDebug.DebugMessageCounts`: the counts are logged, not returned, in the source.
  The model returns them as a `CountReport`. The order in which senders are visited is not
  stated.
- `ChatSlot.ChatContext.SetChat`: React skips the persistence effect when the very same
  chat object is set again, so the stored timestamp is then not refreshed. The model always
  rewrites it.
- The server-side rendering guard (`typeof window === "undefined"`) in `ChatContext.tsx` is
  left out: the model is the browser state. An empty stored string counts as a missing key
  there, which is `Absent`.
- `UserSlot.UserContext.LoadOnMount`: a stored user that is not valid JSON throws in the
  source, and that throw is not caught. The model's storage holds either a user or nothing.
- `isActive` / `setIsActive` in `UserContext.tsx` are a plain flag with no logic and are
  left out.
