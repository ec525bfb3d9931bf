/**
 * The local message store of `src/utils/db.ts`: an auto-increment table (`++id`) of stored
 * messages, the normalisation applied when a message is added, the conversation query
 * sorted by `created_at`, marking a message read, and counting unread messages.
 *
 * Every storage call can fail (quota, corruption); the outcome is the `storageFails`
 * parameter. A failure is caught inside the store and turned into "no change", `[]` or `0`.
 */
module MessageDb {
  import opened Wrappers
  import opened StringOrder

  /** `"user" | "group"`: the two kinds of conversation. */
  datatype ReceiverType = UserChat | GroupChat

  /** A message as it arrives on the channel or is sent (`NewMessage`): `receiver_id` and
      `group_id` may be absent, and the frame may carry its own `receiver_type` tag. */
  datatype Message = Message(
    kind: string,
    senderId: int,
    senderName: string,
    receiverId: Option<int>,
    groupId: Option<int>,
    createdAt: string,
    content: string,
    receiverType: Option<string>)

  /** A row of the `messages` table (`StoredMessage`). `receiverId` stays absent when a user
      message carried no `receiver_id`. */
  datatype StoredMessage = StoredMessage(
    id: nat,
    kind: string,
    senderId: int,
    senderName: string,
    groupId: Option<int>,
    createdAt: string,
    content: string,
    isRead: bool,
    receiverType: ReceiverType,
    receiverId: Option<int>)

  /** The row `addMessage` builds from a message: a truthy `group_id` makes it a group message
      addressed to that group, anything else a user message addressed to `receiver_id`; the
      computed fields override whatever the frame carried under the same names. */
  function Normalise(m: Message, id: nat): (r: StoredMessage)
    ensures r.id == id && !r.isRead
    ensures r.receiverType == GroupChat <==> Truthy(m.groupId)
    ensures r.receiverId == (if Truthy(m.groupId) then m.groupId else m.receiverId)
    ensures r.kind == m.kind && r.senderId == m.senderId && r.senderName == m.senderName
    ensures r.groupId == m.groupId && r.createdAt == m.createdAt && r.content == m.content
  {
    var isGroup := Truthy(m.groupId);
    StoredMessage(
      id, m.kind, m.senderId, m.senderName, m.groupId, m.createdAt, m.content,
      false,
      if isGroup then GroupChat else UserChat,
      if isGroup then m.groupId else m.receiverId)
  }

  /** A `group_id` of 0 is falsy, so such a message is stored as a user message. */
  lemma ZeroGroupIdIsUserMessage(m: Message, id: nat)
    requires m.groupId == Some(0)
    ensures Normalise(m, id).receiverType == UserChat
    ensures Normalise(m, id).receiverId == m.receiverId
  {
  }

  // ---------------------------------------------------------------------------------------
  // Table invariants

  predicate IdsAscending(rows: seq<StoredMessage>)
  {
    forall i, j :: 0 <= i < j < |rows| ==> rows[i].id < rows[j].id
  }

  /** With strictly ascending ids no row is stored twice. */
  lemma {:induction false} AscendingRowsStoredOnce(rows: seq<StoredMessage>)
    requires IdsAscending(rows)
    ensures forall m :: multiset(rows)[m] <= 1
  {
    if rows != [] {
      AscendingRowsStoredOnce(rows[1..]);
      assert rows == [rows[0]] + rows[1..];
      assert rows[0] !in rows[1..] by {
        forall k | 0 <= k < |rows[1..]| ensures rows[1..][k] != rows[0] {
          assert rows[1..][k].id == rows[k + 1].id;
        }
      }
    }
  }

  // ---------------------------------------------------------------------------------------
  // Queries as filters

  /** The rows of `rows` that satisfy `p`, in table order (Dexie's `filter`, `and`, `where`). */
  function Filter(rows: seq<StoredMessage>, p: StoredMessage -> bool): (r: seq<StoredMessage>)
    ensures |r| <= |rows|
    ensures forall m :: m in r <==> m in rows && p(m)
  {
    if rows == [] then [] else (if p(rows[0]) then [rows[0]] else []) + Filter(rows[1..], p)
  }

  /** A filter keeps every selected row as often as it is stored and drops the others. */
  lemma {:induction false} FilterMultiplicity(rows: seq<StoredMessage>, p: StoredMessage -> bool, m: StoredMessage)
    ensures multiset(Filter(rows, p))[m] == if p(m) then multiset(rows)[m] else 0
  {
    if rows != [] {
      FilterMultiplicity(rows[1..], p, m);
      assert rows == [rows[0]] + rows[1..];
    }
  }

  lemma FilterMultiplicities(rows: seq<StoredMessage>, p: StoredMessage -> bool)
    ensures forall m :: multiset(Filter(rows, p))[m] == if p(m) then multiset(rows)[m] else 0
  {
    forall m { FilterMultiplicity(rows, p, m); }
  }

  /** The distinct rows a filter selects. */
  ghost function Selected(rows: seq<StoredMessage>, p: StoredMessage -> bool): set<StoredMessage>
  {
    set m | m in rows && p(m)
  }

  lemma SelectedCons(rows: seq<StoredMessage>, p: StoredMessage -> bool)
    requires rows != []
    ensures Selected(rows, p) == Selected(rows[1..], p) + (if p(rows[0]) then {rows[0]} else {})
  {
    assert forall m :: m in rows <==> m == rows[0] || m in rows[1..] by {
      assert rows == [rows[0]] + rows[1..];
    }
  }

  /** With ascending ids, a filter's length is the number of distinct selected rows. */
  lemma {:induction false} FilterLengthIsCardinality(rows: seq<StoredMessage>, p: StoredMessage -> bool)
    requires IdsAscending(rows)
    ensures |Filter(rows, p)| == |Selected(rows, p)|
  {
    if rows != [] {
      var tail := rows[1..];
      FilterLengthIsCardinality(tail, p);
      SelectedCons(rows, p);
      assert rows[0] !in tail by {
        forall k | 0 <= k < |tail| ensures tail[k] != rows[0] {
          assert tail[k].id == rows[k + 1].id;
        }
      }
      assert rows[0] !in Selected(tail, p);
    }
  }

  lemma {:induction false} FilterConcat(a: seq<StoredMessage>, b: seq<StoredMessage>, p: StoredMessage -> bool)
    ensures Filter(a + b, p) == Filter(a, p) + Filter(b, p)
  {
    if a != [] {
      assert (a + b)[0] == a[0];
      assert (a + b)[1..] == a[1..] + b;
      FilterConcat(a[1..], b, p);
    } else {
      assert a + b == b;
    }
  }

  /** A filter keeps table order, so it keeps the ids ascending. */
  lemma {:induction false} FilterKeepsIdsAscending(rows: seq<StoredMessage>, p: StoredMessage -> bool)
    requires IdsAscending(rows)
    ensures IdsAscending(Filter(rows, p))
  {
    if rows != [] {
      FilterKeepsIdsAscending(rows[1..], p);
      var tail := Filter(rows[1..], p);
      forall m | m in tail ensures rows[0].id < m.id {
        var k :| 0 <= k < |rows[1..]| && rows[1..][k] == m;
        assert rows[k + 1] == m;
      }
    }
  }

  // ---------------------------------------------------------------------------------------
  // Sorting by `created_at` (Dexie `sortBy`: a stable sort on the string key)

  predicate SortedByCreatedAt(s: seq<StoredMessage>)
  {
    forall i, j :: 0 <= i < j < |s| ==> LessEq(s[i].createdAt, s[j].createdAt)
  }

  function InsertByCreatedAt(m: StoredMessage, s: seq<StoredMessage>): (r: seq<StoredMessage>)
    requires SortedByCreatedAt(s)
    ensures SortedByCreatedAt(r)
    ensures multiset(r) == multiset(s) + multiset{m}
  {
    if s == [] then [m]
    else if LessEq(m.createdAt, s[0].createdAt) then
      assert forall j :: 0 <= j < |s| ==> LessEq(m.createdAt, s[j].createdAt) by {
        forall j | 0 <= j < |s| ensures LessEq(m.createdAt, s[j].createdAt) {
          if j > 0 { LessEqTransitive(m.createdAt, s[0].createdAt, s[j].createdAt); }
        }
      }
      [m] + s
    else
      LessEqTotal(m.createdAt, s[0].createdAt);
      var rest := InsertByCreatedAt(m, s[1..]);
      assert s == [s[0]] + s[1..];
      assert forall x :: x in rest ==> LessEq(s[0].createdAt, x.createdAt) by {
        forall x | x in rest ensures LessEq(s[0].createdAt, x.createdAt) {
          assert x in multiset(rest);
          if x != m {
            assert x in multiset(s[1..]);
            var k :| 0 <= k < |s[1..]| && s[1..][k] == x;
            assert s[k + 1] == x;
          }
        }
      }
      [s[0]] + rest
  }

  /** The order `getMessages` returns: non-decreasing `created_at`, the same rows. */
  function SortByCreatedAt(s: seq<StoredMessage>): (r: seq<StoredMessage>)
    ensures SortedByCreatedAt(r)
    ensures multiset(r) == multiset(s)
  {
    if s == [] then []
    else
      assert s == [s[0]] + s[1..];
      InsertByCreatedAt(s[0], SortByCreatedAt(s[1..]))
  }

  // ---------------------------------------------------------------------------------------
  // The conversation query and the unread count

  /** `getMessages`' selection: the row has the requested kind and goes from the current user
      to the partner or from the partner to the current user. `===` on a possibly undefined id
      is equality of options, so with no current user a row with no receiver from the partner
      matches. */
  predicate InConversation(m: StoredMessage, selfId: Option<int>, partnerId: int, t: ReceiverType)
  {
    m.receiverType == t &&
    ((Some(m.senderId) == selfId && m.receiverId == Some(partnerId)) ||
     (m.senderId == partnerId && m.receiverId == selfId))
  }

  /** `getUnreadCount`'s selection: unread, from `senderId` to `receiverId`, of either kind. */
  predicate UnreadFrom(m: StoredMessage, senderId: int, receiverId: int)
  {
    m.senderId == senderId && m.receiverId == Some(receiverId) && !m.isRead
  }

  /** `getMessages` on a healthy store: the conversation rows, oldest first. */
  function Conversation(rows: seq<StoredMessage>, selfId: Option<int>, partnerId: int, t: ReceiverType): (r: seq<StoredMessage>)
    ensures SortedByCreatedAt(r) && |r| <= |rows|
    ensures forall m :: m in r <==> m in rows && InConversation(m, selfId, partnerId, t)
  {
    var selected := Filter(rows, m => InConversation(m, selfId, partnerId, t));
    var r := SortByCreatedAt(selected);
    assert |r| == |multiset(r)| == |multiset(selected)| == |selected|;
    forall m ensures m in r <==> m in rows && InConversation(m, selfId, partnerId, t) {
      assert m in r <==> m in multiset(r);
      assert m in selected <==> m in multiset(selected);
    }
    r
  }

  /** A user conversation is the same for both participants: what one of them loads with the
      other as partner, the other loads with the first as partner. */
  lemma ConversationSymmetric(rows: seq<StoredMessage>, a: int, b: int, t: ReceiverType)
    ensures forall m :: InConversation(m, Some(a), b, t) <==> InConversation(m, Some(b), a, t)
    ensures forall m :: m in Conversation(rows, Some(a), b, t) <==> m in Conversation(rows, Some(b), a, t)
  {
    var ab, ba := Conversation(rows, Some(a), b, t), Conversation(rows, Some(b), a, t);
    forall m ensures m in ab <==> m in ba {
      assert InConversation(m, Some(a), b, t) <==> InConversation(m, Some(b), a, t);
    }
  }

  function CountUnread(rows: seq<StoredMessage>, senderId: int, receiverId: int): (n: nat)
    ensures n <= |rows|
    ensures n == 0 <==> forall m :: m in rows ==> !UnreadFrom(m, senderId, receiverId)
  {
    var unread := Filter(rows, m => UnreadFrom(m, senderId, receiverId));
    assert unread != [] ==> unread[0] in unread;
    |unread|
  }

  /** An independent reading of the count: the number of distinct matching rows. */
  lemma CountUnreadIsCardinality(rows: seq<StoredMessage>, senderId: int, receiverId: int)
    requires IdsAscending(rows)
    ensures CountUnread(rows, senderId, receiverId) == |set m | m in rows && UnreadFrom(m, senderId, receiverId)|
  {
    var p := m => UnreadFrom(m, senderId, receiverId);
    FilterLengthIsCardinality(rows, p);
    assert Selected(rows, p) == (set m | m in rows && UnreadFrom(m, senderId, receiverId));
  }

  /** Appending a row raises the count by one exactly when that row is counted. */
  lemma AppendCountUnread(rows: seq<StoredMessage>, x: StoredMessage, senderId: int, receiverId: int)
    ensures CountUnread(rows + [x], senderId, receiverId)
         == CountUnread(rows, senderId, receiverId) + (if UnreadFrom(x, senderId, receiverId) then 1 else 0)
  {
    FilterConcat(rows, [x], m => UnreadFrom(m, senderId, receiverId));
  }

  // ---------------------------------------------------------------------------------------
  // Marking read

  function MarkRow(m: StoredMessage, id: int): StoredMessage
  {
    if m.id == id then m.(isRead := true) else m
  }

  /** `db.messages.update(id, { isRead: true })` on the whole table. */
  function MarkedRead(rows: seq<StoredMessage>, id: int): (r: seq<StoredMessage>)
    ensures |r| == |rows|
    ensures forall i :: 0 <= i < |rows| ==>
      r[i].(isRead := rows[i].isRead) == rows[i] && r[i].isRead == (rows[i].isRead || rows[i].id == id)
  {
    if rows == [] then [] else [MarkRow(rows[0], id)] + MarkedRead(rows[1..], id)
  }

  lemma MarkedReadIdempotent(rows: seq<StoredMessage>, id: int)
    ensures MarkedRead(MarkedRead(rows, id), id) == MarkedRead(rows, id)
  {
  }

  lemma MarkedReadAbsent(rows: seq<StoredMessage>, id: int)
    requires forall m :: m in rows ==> m.id != id
    ensures MarkedRead(rows, id) == rows
  {
  }

  /** `markMessageAsRead` over a list of ids, one after the other. */
  function MarkAllRead(rows: seq<StoredMessage>, ids: seq<int>): (r: seq<StoredMessage>)
    ensures |r| == |rows|
    ensures forall i :: 0 <= i < |rows| ==>
      r[i].(isRead := rows[i].isRead) == rows[i] && r[i].isRead == (rows[i].isRead || rows[i].id in ids)
    decreases |ids|
  {
    if ids == [] then rows else MarkAllRead(MarkedRead(rows, ids[0]), ids[1..])
  }

  /** Opening a user conversation and marking every loaded row read leaves no unread user
      message from the partner to the current user; only group rows can still be counted. */
  lemma ConversationReadLeavesOnlyGroupUnread(rows: seq<StoredMessage>, selfId: int, partnerId: int, ids: seq<int>)
    requires forall m :: m in Conversation(rows, Some(selfId), partnerId, UserChat) ==> m.id in ids
    ensures forall m :: m in MarkAllRead(rows, ids) && UnreadFrom(m, partnerId, selfId) ==> m.receiverType == GroupChat
  {
    var after := MarkAllRead(rows, ids);
    var p := m => InConversation(m, Some(selfId), partnerId, UserChat);
    var conv := Filter(rows, p);
    forall i | 0 <= i < |rows| && p(rows[i]) ensures after[i].isRead {
      assert rows[i] in conv;
      assert rows[i] in multiset(conv);
      assert rows[i] in Conversation(rows, Some(selfId), partnerId, UserChat);
    }
  }

  /** `getUnreadCount` does not look at `receiver_type`: a group message from the partner to
      a group whose id equals the current user's id is counted, while the user conversation
      never loads it, so it is never marked read. */
  lemma GroupMessageCountedAsUnread()
    ensures var row := StoredMessage(1, "text", 7, "peer", Some(5), "2024-01-01T00:00:00Z", "hi", false, GroupChat, Some(5));
      Conversation([row], Some(5), 7, UserChat) == [] && CountUnread([row], 7, 5) == 1
  {
    var row := StoredMessage(1, "text", 7, "peer", Some(5), "2024-01-01T00:00:00Z", "hi", false, GroupChat, Some(5));
    var conv := Filter([row], m => InConversation(m, Some(5), 7, UserChat));
    assert conv == [];
    var unread := Filter([row], m => UnreadFrom(m, 7, 5));
    assert unread == [row];
  }

  // ---------------------------------------------------------------------------------------
  // The table

  class MessageTable {
    var rows: seq<StoredMessage>
    /** The next value of the `++id` key generator. */
    var nextId: nat

    ghost predicate Valid()
      reads this
    {
      1 <= nextId && IdsAscending(rows) && forall m :: m in rows ==> m.id < nextId
    }

    constructor ()
      ensures Valid() && rows == [] && nextId == 1
    {
      rows := [];
      nextId := 1;
    }

    /** `addMessage`: store the normalised message under a fresh id; a failure is swallowed
        and leaves the table as it was. */
    method AddMessage(m: Message, storageFails: bool)
      requires Valid()
      modifies this
      ensures Valid()
      ensures storageFails ==> rows == old(rows) && nextId == old(nextId)
      ensures !storageFails ==> rows == old(rows) + [Normalise(m, old(nextId))] && nextId == old(nextId) + 1
      ensures !storageFails ==> forall x :: x in old(rows) ==> x.id < rows[|rows| - 1].id
    {
      if !storageFails {
        rows := rows + [Normalise(m, nextId)];
        nextId := nextId + 1;
      }
    }

    /** `markMessageAsRead`: only `isRead` of the row with that id changes. */
    method MarkMessageAsRead(id: int, storageFails: bool)
      requires Valid()
      modifies this
      ensures Valid() && nextId == old(nextId)
      ensures rows == if storageFails then old(rows) else MarkedRead(old(rows), id)
    {
      if !storageFails {
        rows := MarkedRead(rows, id);
      }
    }

    /** `getMessages`: the conversation with the partner, each row once, oldest first; `[]`
        when storage fails. */
    function GetMessages(selfId: Option<int>, partnerId: int, t: ReceiverType, storageFails: bool): (r: seq<StoredMessage>)
      reads this
      requires Valid()
      ensures storageFails ==> r == []
      ensures !storageFails ==> SortedByCreatedAt(r)
      ensures !storageFails ==> forall m :: multiset(r)[m] == if InConversation(m, selfId, partnerId, t) then multiset(rows)[m] else 0
      ensures forall m :: multiset(r)[m] <= 1
    {
      AscendingRowsStoredOnce(rows);
      FilterMultiplicities(rows, m => InConversation(m, selfId, partnerId, t));
      if storageFails then [] else Conversation(rows, selfId, partnerId, t)
    }

    /** `getUnreadCount`: unread rows from `senderId` to `receiverId`; `0` when storage fails. */
    function GetUnreadCount(senderId: int, receiverId: int, storageFails: bool): (n: nat)
      reads this
      ensures storageFails ==> n == 0
      ensures !storageFails ==> n == CountUnread(rows, senderId, receiverId)
    {
      if storageFails then 0 else CountUnread(rows, senderId, receiverId)
    }

    /** `debugMessages`: the whole table, or `[]` when storage fails. */
    function DebugMessages(storageFails: bool): (r: seq<StoredMessage>)
      reads this
      ensures r == if storageFails then [] else rows
    {
      if storageFails then [] else rows
    }
  }
}
