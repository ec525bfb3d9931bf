/**
 * The unread badge of `src/components/UI/UserAvatar.tsx`: for one peer, the number of unread
 * messages that peer sent to the current user, recounted on mount, on an inbound frame that
 * concerns the peer, and whenever the socket becomes connected.
 */
module UnreadBadge {
  import opened Wrappers
  import opened MessageDb

  /** `handleNewMessage`'s test on the raw frame. */
  predicate TriggersRecount(frame: Message, peerId: int)
    ensures frame.receiverType != Some("user") ==> !TriggersRecount(frame, peerId)
    ensures frame.receiverType == Some("user") && (frame.senderId == peerId || frame.receiverId == Some(peerId))
            ==> TriggersRecount(frame, peerId)
    ensures frame.senderId != peerId && frame.receiverId != Some(peerId) ==> !TriggersRecount(frame, peerId)
  {
    (frame.senderId == peerId || frame.receiverId == Some(peerId)) && frame.receiverType == Some("user")
  }

  /** The badge is rendered when `unreadCount > 0`. */
  predicate BadgeShown(unreadCount: int)
  {
    unreadCount > 0
  }

  /** After a recount, the badge is shown exactly when some stored message from the peer to
      the current user is unread. */
  lemma BadgeShownIffUnreadFromPeer(rows: seq<StoredMessage>, peerId: int, selfId: int)
    ensures BadgeShown(CountUnread(rows, peerId, selfId)) <==> exists m :: m in rows && UnreadFrom(m, peerId, selfId)
  {
  }

  /** A frame from the peer to the current user tagged `"user"` triggers the recount, and the
      row it adds raises the count by one. */
  lemma UserFrameFromPeerRaisesBadge(rows: seq<StoredMessage>, frame: Message, id: nat, peerId: int, selfId: int)
    requires frame.senderId == peerId && frame.receiverId == Some(selfId)
    requires frame.receiverType == Some("user") && !Truthy(frame.groupId)
    ensures TriggersRecount(frame, peerId)
    ensures CountUnread(rows + [Normalise(frame, id)], peerId, selfId) == CountUnread(rows, peerId, selfId) + 1
  {
    AppendCountUnread(rows, Normalise(frame, id), peerId, selfId);
  }

  /** A frame without a `receiver_type` tag is stored and counted, yet triggers no recount:
      the badge only catches up on the next poll. */
  lemma UntaggedFrameRaisesCountWithoutRecount(rows: seq<StoredMessage>, frame: Message, id: nat, peerId: int, selfId: int)
    requires frame.senderId == peerId && frame.receiverId == Some(selfId)
    requires frame.receiverType == None && !Truthy(frame.groupId)
    ensures !TriggersRecount(frame, peerId)
    ensures CountUnread(rows + [Normalise(frame, id)], peerId, selfId) == CountUnread(rows, peerId, selfId) + 1
  {
    AppendCountUnread(rows, Normalise(frame, id), peerId, selfId);
  }

  class UserAvatar {
    const peerId: int
    var unreadCount: nat

    constructor (peerId: int)
      ensures this.peerId == peerId && unreadCount == 0
    {
      this.peerId := peerId;
      unreadCount := 0;
    }

    /** `fetchUnread`: nothing without a current user id; otherwise the badge becomes the
        number of unread messages from the peer to the current user (0 if storage fails). */
    method FetchUnread(table: MessageTable, currentUserId: Option<int>, storageFails: bool) returns (queried: bool)
      modifies this`unreadCount
      ensures queried == Truthy(currentUserId)
      ensures queried ==> unreadCount == table.GetUnreadCount(peerId, currentUserId.value, storageFails)
      ensures !queried ==> unreadCount == old(unreadCount)
    {
      if !Truthy(currentUserId) {
        return false;
      }
      queried := true;
      unreadCount := table.GetUnreadCount(peerId, currentUserId.value, storageFails);
    }

    /** `handleNewMessage`: recount when the frame concerns the peer and is a user message. */
    method HandleNewMessage(frame: Message, table: MessageTable, currentUserId: Option<int>, storageFails: bool)
      returns (queried: bool)
      modifies this`unreadCount
      ensures queried == (Truthy(currentUserId) && TriggersRecount(frame, peerId))
      ensures queried ==> unreadCount == table.GetUnreadCount(peerId, currentUserId.value, storageFails)
      ensures !queried ==> unreadCount == old(unreadCount)
    {
      if !Truthy(currentUserId) {
        return false;
      }
      if TriggersRecount(frame, peerId) {
        queried := FetchUnread(table, currentUserId, storageFails);
      } else {
        queried := false;
      }
    }

    /** The effect on `isConnected`: recount whenever the socket is connected. */
    method OnConnectionChange(isConnected: bool, table: MessageTable, currentUserId: Option<int>, storageFails: bool)
      returns (queried: bool)
      modifies this`unreadCount
      ensures queried == (isConnected && Truthy(currentUserId))
      ensures queried ==> unreadCount == table.GetUnreadCount(peerId, currentUserId.value, storageFails)
      ensures !queried ==> unreadCount == old(unreadCount)
    {
      if isConnected {
        queried := FetchUnread(table, currentUserId, storageFails);
      } else {
        queried := false;
      }
    }
  }
}
