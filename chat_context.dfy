/**
 * The current-chat slot of `src/context/ChatContext.tsx`: the open conversation, mirrored in
 * the `"currentChat"` local-storage key together with the time it was written, and discarded
 * on load once it is more than 30 minutes old. The clock is the `now` parameter (ms).
 */
module ChatSlot {
  import opened Wrappers

  const ExpirationMs: int := 1000 * 60 * 30

  datatype Chat = Chat(
    id: string,
    username: Option<string>,
    name: Option<string>,
    imageUrl: string,
    online: Option<bool>,
    visible: Option<bool>,
    lastActive: Option<string>,
    createdAt: Option<string>)

  /** `Partial<Chat>`: a field that is present overrides the chat's, even with `undefined`. */
  datatype ChatPatch = ChatPatch(
    id: Option<string>,
    username: Option<Option<string>>,
    name: Option<Option<string>>,
    imageUrl: Option<string>,
    online: Option<Option<bool>>,
    visible: Option<Option<bool>>,
    lastActive: Option<Option<string>>,
    createdAt: Option<Option<string>>)

  const NoChange := ChatPatch(None, None, None, None, None, None, None, None)

  /** The `"currentChat"` key: missing, not parseable, or `{chat, timestamp}`. */
  datatype StoredChat = Absent | Unparseable | Saved(chat: Chat, timestamp: int)

  /** `{ ...prevChat, ...chatData }`: every field the patch supplies replaces the chat's, and
      every field it leaves out is kept. */
  function MergeChat(c: Chat, p: ChatPatch): (r: Chat)
    ensures if p.id.Some? then r.id == p.id.value else r.id == c.id
    ensures if p.username.Some? then r.username == p.username.value else r.username == c.username
    ensures if p.name.Some? then r.name == p.name.value else r.name == c.name
    ensures if p.imageUrl.Some? then r.imageUrl == p.imageUrl.value else r.imageUrl == c.imageUrl
    ensures if p.online.Some? then r.online == p.online.value else r.online == c.online
    ensures if p.visible.Some? then r.visible == p.visible.value else r.visible == c.visible
    ensures if p.lastActive.Some? then r.lastActive == p.lastActive.value else r.lastActive == c.lastActive
    ensures if p.createdAt.Some? then r.createdAt == p.createdAt.value else r.createdAt == c.createdAt
  {
    Chat(
      Override(c.id, p.id), Override(c.username, p.username), Override(c.name, p.name),
      Override(c.imageUrl, p.imageUrl), Override(c.online, p.online), Override(c.visible, p.visible),
      Override(c.lastActive, p.lastActive), Override(c.createdAt, p.createdAt))
  }

  /** `{ ...p, ...q }`: the later patch wins field by field. */
  function ComposePatches(p: ChatPatch, q: ChatPatch): ChatPatch
  {
    ChatPatch(
      if q.id.Some? then q.id else p.id,
      if q.username.Some? then q.username else p.username,
      if q.name.Some? then q.name else p.name,
      if q.imageUrl.Some? then q.imageUrl else p.imageUrl,
      if q.online.Some? then q.online else p.online,
      if q.visible.Some? then q.visible else p.visible,
      if q.lastActive.Some? then q.lastActive else p.lastActive,
      if q.createdAt.Some? then q.createdAt else p.createdAt)
  }

  lemma MergeNoChange(c: Chat)
    ensures MergeChat(c, NoChange) == c
  {
  }

  /** Two updates in a row are one update with the composed patch; in particular applying
      the same patch twice is applying it once. */
  lemma MergeComposes(c: Chat, p: ChatPatch, q: ChatPatch)
    ensures MergeChat(MergeChat(c, p), q) == MergeChat(c, ComposePatches(p, q))
    ensures MergeChat(MergeChat(c, p), p) == MergeChat(c, p)
  {
  }

  /** The patch that supplies every field of `d`. */
  function FullPatch(d: Chat): ChatPatch
  {
    ChatPatch(Some(d.id), Some(d.username), Some(d.name), Some(d.imageUrl),
              Some(d.online), Some(d.visible), Some(d.lastActive), Some(d.createdAt))
  }

  /** A patch that supplies every field replaces the chat entirely. */
  lemma MergeFullPatch(c: Chat, d: Chat)
    ensures MergeChat(c, FullPatch(d)) == d
  {
  }

  predicate Expired(timestamp: int, now: int)
  {
    now - timestamp > ExpirationMs
  }

  /** The lazy initial state: the stored chat unless it is missing, unparseable or expired,
      paired with the key as it is left (removed in the last two cases). */
  function LoadChat(stored: StoredChat, now: int): (r: (Option<Chat>, StoredChat))
    ensures r.0.Some? <==> stored.Saved? && !Expired(stored.timestamp, now)
    ensures r.0.Some? ==> r.0.value == stored.chat && r.1 == stored
    ensures stored.Unparseable? || (stored.Saved? && r.0.None?) ==> r.1 == Absent
    ensures stored.Absent? ==> r.1 == Absent
  {
    match stored
    case Absent => (None, Absent)
    case Unparseable => (None, Absent)
    case Saved(chat, timestamp) => if Expired(timestamp, now) then (None, Absent) else (Some(chat), stored)
  }

  /** The expiry comparison is strict: a chat exactly 30 minutes old still loads, one
      millisecond older does not. */
  lemma ExpiryBoundary(c: Chat, t: int)
    ensures LoadChat(Saved(c, t), t + ExpirationMs).0 == Some(c)
    ensures LoadChat(Saved(c, t), t + ExpirationMs + 1).0 == None
  {
  }

  /** What the persistence effect writes for a chat value. */
  function Persisted(chat: Option<Chat>, now: int): (s: StoredChat)
    ensures chat.None? <==> s.Absent?
    ensures chat.Some? ==> s == Saved(chat.value, now)
  {
    if chat.Some? then Saved(chat.value, now) else Absent
  }

  /** Reloading what the effect just wrote gives the same chat back within 30 minutes. */
  lemma PersistedReloads(chat: Option<Chat>, writtenAt: int, now: int)
    requires writtenAt <= now <= writtenAt + ExpirationMs
    ensures LoadChat(Persisted(chat, writtenAt), now).0 == chat
  {
  }

  predicate Mirrors(stored: StoredChat, chat: Option<Chat>)
  {
    if chat.Some? then stored.Saved? && stored.chat == chat.value else stored.Absent?
  }

  class ChatContext {
    var currentChat: Option<Chat>
    /** The `"currentChat"` key of local storage. */
    var stored: StoredChat

    ghost predicate Valid()
      reads this
    {
      Mirrors(stored, currentChat)
    }

    /** Mount: the lazy initial state, then the persistence effect's first run, which writes a
        loaded chat back with the current time. */
    constructor (stored: StoredChat, now: int)
      ensures Valid()
      ensures currentChat == LoadChat(stored, now).0
      ensures this.stored == Persisted(currentChat, now)
    {
      var loaded := LoadChat(stored, now);
      currentChat := loaded.0;
      this.stored := Persisted(loaded.0, now);
    }

    /** `setChat`, followed by the persistence effect. */
    method SetChat(chat: Option<Chat>, now: int)
      modifies this
      ensures Valid()
      ensures currentChat == chat && stored == Persisted(chat, now)
    {
      currentChat := chat;
      stored := Persisted(chat, now);
    }

    /** `updateChat`: no chat stays no chat and storage is untouched; otherwise the patch is
        merged in and the result persisted. */
    method UpdateChat(patch: ChatPatch, now: int)
      requires Valid()
      modifies this
      ensures Valid()
      ensures old(currentChat).None? ==> currentChat == None && stored == old(stored)
      ensures old(currentChat).Some? ==>
        currentChat == Some(MergeChat(old(currentChat).value, patch)) && stored == Persisted(currentChat, now)
    {
      if currentChat.Some? {
        currentChat := Some(MergeChat(currentChat.value, patch));
        stored := Persisted(currentChat, now);
      }
    }

    /** `removeChat`. */
    method RemoveChat()
      modifies this
      ensures Valid()
      ensures currentChat == None && stored == Absent
    {
      currentChat := None;
      stored := Absent;
    }
  }
}
