/**
 * The socket provider of `src/context/SocketContext.tsx`: a registry of message callbacks,
 * the connection flag driven by the socket's open and close events, and the handling of an
 * inbound frame (store it, then notify every registered callback).
 *
 * Callbacks are identified by their identity in the `Set`; which of them throw is a
 * parameter. The WebSocket itself and the reconnect timer are not modelled: connecting
 * yields a numbered socket handle, and a close yields the reconnect it schedules.
 */
module Socket {
  import opened Wrappers
  import opened MessageDb

  type CallbackId = nat

  /** Delay before `connectSocket` runs again after a close. */
  const ReconnectDelayMs: nat := 3000

  /** What `connectSocket` does: nothing without a user id, otherwise open a new socket. */
  datatype ConnectResult = NoUserId | Opened(handle: nat)

  /** What the `onclose` handler leaves behind: one reconnect, after a delay. */
  datatype CloseResult = ScheduledReconnect(delayMs: nat)

  /** The `forEach` over the callbacks with its `try`/`catch`: every callback receives the raw
      frame once, and one that throws does not stop the others. */
  method Dispatch(callbacks: set<CallbackId>, frame: Message, throwing: set<CallbackId>)
    returns (delivered: map<CallbackId, Message>, failed: set<CallbackId>)
    ensures delivered.Keys == callbacks
    ensures forall c :: c in delivered ==> delivered[c] == frame
    ensures failed == callbacks * throwing
  {
    delivered, failed := map[], {};
    var pending := callbacks;
    while pending != {}
      invariant pending <= callbacks
      invariant delivered.Keys == callbacks - pending
      invariant forall c :: c in delivered ==> delivered[c] == frame
      invariant failed == (callbacks - pending) * throwing
      decreases pending
    {
      var c :| c in pending;
      pending := pending - {c};
      delivered := delivered[c := frame];
      if c in throwing {
        failed := failed + {c};
      }
    }
  }

  class SocketProvider {
    var callbacks: set<CallbackId>
    /** The current socket, by handle; `None` is `null`. */
    var socket: Option<nat>
    var isConnected: bool
    /** Sockets created so far; the handle of the next one. */
    var socketsCreated: nat
    /** The local message table inbound frames are added to. */
    const store: MessageTable

    ghost predicate Valid()
      reads this, store
    {
      store.Valid() && (socket.Some? ==> socket.value < socketsCreated)
    }

    constructor (store: MessageTable)
      requires store.Valid()
      ensures Valid() && this.store == store
      ensures callbacks == {} && socket == None && !isConnected && socketsCreated == 0
    {
      this.store := store;
      callbacks := {};
      socket := None;
      isConnected := false;
      socketsCreated := 0;
    }

    /** `registerMessageCallback`: adding a callback already present changes nothing. */
    method RegisterMessageCallback(cb: CallbackId)
      modifies this`callbacks
      ensures callbacks == old(callbacks) + {cb}
    {
      callbacks := callbacks + {cb};
    }

    /** The closure `registerMessageCallback` returns: removes exactly that callback, and
        removing it again is harmless. */
    method UnregisterMessageCallback(cb: CallbackId)
      modifies this`callbacks
      ensures callbacks == old(callbacks) - {cb}
    {
      callbacks := callbacks - {cb};
    }

    /** `connectSocket`, with the user id read from local storage. */
    method ConnectSocket(userId: Option<int>) returns (result: ConnectResult)
      requires Valid()
      modifies this`socket, this`socketsCreated
      ensures Valid()
      ensures !Truthy(userId) ==>
        result == NoUserId && socket == old(socket) && socketsCreated == old(socketsCreated)
      ensures Truthy(userId) ==>
        result == Opened(old(socketsCreated)) && socket == Some(old(socketsCreated))
        && socketsCreated == old(socketsCreated) + 1
    {
      if !Truthy(userId) {
        return NoUserId;
      }
      result := Opened(socketsCreated);
      socket := Some(socketsCreated);
      socketsCreated := socketsCreated + 1;
    }

    /** `onopen`. */
    method OnOpen()
      modifies this`isConnected
      ensures isConnected
    {
      isConnected := true;
    }

    /** `onclose`: disconnected, and exactly one reconnect scheduled after 3000 ms. */
    method OnClose() returns (result: CloseResult)
      modifies this`isConnected
      ensures !isConnected && result == ScheduledReconnect(ReconnectDelayMs)
    {
      isConnected := false;
      result := ScheduledReconnect(ReconnectDelayMs);
    }

    /** `onmessage`: the frame is added to the store first, then every callback registered at
        that moment is called with the frame as received (not the stored row). */
    method OnMessage(frame: Message, storageFails: bool, throwing: set<CallbackId>)
      returns (delivered: map<CallbackId, Message>, failed: set<CallbackId>)
      requires Valid()
      modifies store
      ensures Valid()
      ensures store.rows == if storageFails then old(store.rows) else old(store.rows) + [Normalise(frame, old(store.nextId))]
      ensures store.nextId == if storageFails then old(store.nextId) else old(store.nextId) + 1
      ensures delivered.Keys == callbacks && failed == callbacks * throwing
      ensures forall c :: c in delivered ==> delivered[c] == frame
    {
      store.AddMessage(frame, storageFails);
      delivered, failed := Dispatch(callbacks, frame, throwing);
    }

    /** `removeSocket`: closes the current socket, if any, and forgets it. */
    method RemoveSocket() returns (closed: Option<nat>)
      modifies this`socket, this`isConnected
      ensures closed == old(socket) && socket == None && !isConnected
    {
      closed := socket;
      socket := None;
      isConnected := false;
    }
  }
}
