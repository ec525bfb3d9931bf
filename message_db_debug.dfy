/**
 * The inspection queries of `src/utils/db-debug.ts` over the same message table. Their
 * console output is the value they return; a storage failure yields `[]`.
 */
module MessageDbDebug {
  import opened Wrappers
  import opened MessageDb

  function SentBy(rows: seq<StoredMessage>, senderId: int): seq<StoredMessage>
  {
    Filter(rows, (m: StoredMessage) => m.senderId == senderId)
  }

  function AddressedTo(rows: seq<StoredMessage>, receiverId: int, t: ReceiverType): seq<StoredMessage>
  {
    Filter(rows, (m: StoredMessage) => m.receiverId == Some(receiverId) && m.receiverType == t)
  }

  function ReceivedBy(rows: seq<StoredMessage>, receiverId: int): seq<StoredMessage>
  {
    Filter(rows, (m: StoredMessage) => m.receiverId == Some(receiverId))
  }

  function UnreadRows(rows: seq<StoredMessage>): seq<StoredMessage>
  {
    Filter(rows, (m: StoredMessage) => !m.isRead)
  }

  /** The distinct `sender_id`s of the table (`uniqueSenders`). */
  function SendersOf(rows: seq<StoredMessage>): (r: set<int>)
    ensures forall m :: m in rows ==> m.senderId in r
    ensures forall s :: s in r ==> exists m :: m in rows && m.senderId == s
  {
    set m | m in rows :: m.senderId
  }

  /** `listAllMessages`: the same as `debugMessages`. */
  function ListAllMessages(table: MessageTable, storageFails: bool): (r: seq<StoredMessage>)
    reads table
    ensures r == table.DebugMessages(storageFails)
  {
    if storageFails then [] else table.rows
  }

  /** `listMessagesBySender`: exactly the rows from that sender, in id order. */
  function ListMessagesBySender(table: MessageTable, senderId: int, storageFails: bool): (r: seq<StoredMessage>)
    reads table
    requires table.Valid()
    ensures storageFails ==> r == []
    ensures !storageFails ==> forall m :: m in r <==> m in table.rows && m.senderId == senderId
    ensures IdsAscending(r)
  {
    FilterKeepsIdsAscending(table.rows, (m: StoredMessage) => m.senderId == senderId);
    if storageFails then [] else SentBy(table.rows, senderId)
  }

  /** `listMessagesByReceiver`: exactly the rows addressed to that receiver with that kind. */
  function ListMessagesByReceiver(table: MessageTable, receiverId: int, t: ReceiverType, storageFails: bool): (r: seq<StoredMessage>)
    reads table
    requires table.Valid()
    ensures storageFails ==> r == []
    ensures !storageFails ==> forall m :: m in r <==> m in table.rows && m.receiverId == Some(receiverId) && m.receiverType == t
    ensures IdsAscending(r)
  {
    FilterKeepsIdsAscending(table.rows, (m: StoredMessage) => m.receiverId == Some(receiverId) && m.receiverType == t);
    if storageFails then [] else AddressedTo(table.rows, receiverId, t)
  }

  /** `listUnreadMessages`: only unread rows, all of them. */
  function ListUnreadMessages(table: MessageTable, storageFails: bool): (r: seq<StoredMessage>)
    reads table
    requires table.Valid()
    ensures storageFails ==> r == []
    ensures !storageFails ==> forall m :: m in r <==> m in table.rows && !m.isRead
    ensures IdsAscending(r)
  {
    FilterKeepsIdsAscending(table.rows, (m: StoredMessage) => !m.isRead);
    if storageFails then [] else UnreadRows(table.rows)
  }

  datatype CountReport = CountReport(
    total: nat,
    unread: nat,
    sentByCurrentUser: nat,
    receivedByCurrentUser: nat,
    unreadFromSender: map<int, nat>)

  /** What `debugMessageCounts` ends with: an early return, a caught failure, or the counts it logs. */
  datatype CountOutcome = NoCurrentUser | CountFailed | Counted(report: CountReport)

  /** `debugMessageCounts`: nothing is counted without a current user id; otherwise every
      distinct sender other than the current user gets the number of unread rows it sent to
      the current user, which is `getUnreadCount(sender, currentUser)`. */
  method DebugMessageCounts(table: MessageTable, currentUserId: Option<int>, storageFails: bool) returns (outcome: CountOutcome)
    ensures !Truthy(currentUserId) <==> outcome == NoCurrentUser
    ensures Truthy(currentUserId) && storageFails ==> outcome == CountFailed
    ensures Truthy(currentUserId) && !storageFails ==> outcome.Counted?
    ensures outcome.Counted? ==>
      var me, rows, report := currentUserId.value, table.rows, outcome.report;
      && !storageFails
      && report.total == |rows|
      && report.unread == |UnreadRows(rows)|
      && report.sentByCurrentUser == |SentBy(rows, me)|
      && report.receivedByCurrentUser == |ReceivedBy(rows, me)|
      && report.unreadFromSender.Keys == SendersOf(rows) - {me}
      && forall s :: s in report.unreadFromSender ==>
           report.unreadFromSender[s] == table.GetUnreadCount(s, me, false)
  {
    if !Truthy(currentUserId) {
      return NoCurrentUser;
    }
    if storageFails {
      return CountFailed;
    }
    var me := currentUserId.value;
    var rows := table.rows;

    var senders: set<int> := {};
    for i := 0 to |rows|
      invariant senders == SendersOf(rows[..i])
    {
      assert rows[..i + 1] == rows[..i] + [rows[i]];
      senders := senders + {rows[i].senderId};
    }
    assert rows[..|rows|] == rows;

    var remaining := senders;
    var perSender: map<int, nat> := map[];
    while remaining != {}
      invariant remaining <= senders
      invariant perSender.Keys == senders - remaining - {me}
      invariant forall s :: s in perSender ==> perSender[s] == CountUnread(rows, s, me)
      decreases remaining
    {
      var s :| s in remaining;
      remaining := remaining - {s};
      if s == me {
        continue;
      }
      perSender := perSender[s := CountUnread(rows, s, me)];
    }

    outcome := Counted(CountReport(|rows|, |UnreadRows(rows)|, |SentBy(rows, me)|, |ReceivedBy(rows, me)|, perSender));
  }
}
