/**
 * The client's socket wrapper of frontend/src/services/socketService.js: the
 * current socket (or none), the `connected` flag its connect and disconnect
 * events set, and one remembered callback per event name. The socket.io
 * client is reduced to its `connected` state; what the wrapper emits is
 * recorded in `emitted`, oldest first. Callbacks are opaque handles.
 */
module SocketService {
  import opened Wrappers
  import opened OrderedMaps

  /** A socket.io client: which one it is, the token it was opened with, and its own `connected` state. */
  datatype Transport = Transport(id: nat, token: string, connected: bool)

  /** The events the wrapper emits. */
  datatype ClientEvent =
    | SendMessageEvent(chatId: string, content: string, messageType: string, replyToId: Option<string>)
    | TypingStart(chatId: string)
    | TypingStop(chatId: string)
    | MarkRead(messageId: string, chatId: string)
    | JoinChat(chatId: string)
    | LeaveChat(chatId: string)

  /** The server events the `onX` methods subscribe to. */
  datatype Subscription = NewMessage | UserTyping | UserStopTyping | MessageRead | UserStatusChanged | MessageError

  function EventName(s: Subscription): string {
    match s
    case NewMessage => "new_message"
    case UserTyping => "user_typing"
    case UserStopTyping => "user_stop_typing"
    case MessageRead => "message_read"
    case UserStatusChanged => "user_status_changed"
    case MessageError => "message_error"
  }

  /** Each subscription has its own event name. */
  lemma EventNameInjective(a: Subscription, b: Subscription)
    ensures EventName(a) == EventName(b) <==> a == b
  {
  }

  type Callback = nat

  const NOT_CONNECTED := "Socket not connected"

  class SocketClient {
    var socket: Option<Transport>
    var connected: bool
    var listeners: OrderedMap<string, Callback>
    var emitted: seq<ClientEvent>

    ghost predicate Valid()
      reads this
    {
      listeners.Valid()
    }

    constructor ()
      ensures Valid()
      ensures socket == None && !connected && listeners == Empty() && emitted == []
    {
      socket := None;
      connected := false;
      listeners := Empty();
      emitted := [];
    }

    /** `this.socket?.connected` */
    predicate SocketUp()
      reads this
    {
      socket.Some? && socket.value.connected
    }

    /** `isConnected()`: both the flag and the current socket must say so. */
    predicate IsConnected()
      reads this
    {
      connected && SocketUp()
    }

    /** `connect(token)`: nothing while the current socket is up; otherwise a new socket, not yet connected. */
    method Connect(token: string, id: nat)
      modifies this
      ensures old(SocketUp()) ==> socket == old(socket)
      ensures !old(SocketUp()) ==> socket == Some(Transport(id, token, false))
      ensures connected == old(connected) && listeners == old(listeners) && emitted == old(emitted)
    {
      if SocketUp() {
        return;
      }
      socket := Some(Transport(id, token, false));
    }

    /**
     * The `connect` event of the socket `id`: the flag is set whichever socket
     * fires it, and the current socket, if it is that one, is up.
     */
    method TransportConnected(id: nat)
      modifies this
      ensures connected
      ensures socket == (if old(socket).Some? && old(socket).value.id == id
                         then Some(old(socket).value.(connected := true)) else old(socket))
      ensures listeners == old(listeners) && emitted == old(emitted)
    {
      connected := true;
      if socket.Some? && socket.value.id == id {
        socket := Some(socket.value.(connected := true));
      }
    }

    /** The `disconnect` event of the socket `id`. */
    method TransportDisconnected(id: nat)
      modifies this
      ensures !connected && !IsConnected()
      ensures socket == (if old(socket).Some? && old(socket).value.id == id
                         then Some(old(socket).value.(connected := false)) else old(socket))
      ensures listeners == old(listeners) && emitted == old(emitted)
    {
      connected := false;
      if socket.Some? && socket.value.id == id {
        socket := Some(socket.value.(connected := false));
      }
    }

    /** `disconnect()`: with a socket, everything is reset; without one, nothing happens. */
    method Disconnect()
      modifies this
      ensures old(socket).Some? ==> socket == None && !connected && listeners == Empty()
      ensures old(socket).None? ==> socket == old(socket) && connected == old(connected) && listeners == old(listeners)
      ensures emitted == old(emitted)
    {
      if socket.Some? {
        socket := None;
        connected := false;
        listeners := Empty();
      }
    }

    /** An emit guarded by `this.socket?.connected`, as the other senders do it. */
    method EmitIfUp(e: ClientEvent)
      modifies this
      ensures emitted == (if old(SocketUp()) then old(emitted) + [e] else old(emitted))
      ensures socket == old(socket) && connected == old(connected) && listeners == old(listeners)
    {
      if SocketUp() {
        emitted := emitted + [e];
      }
    }

    /** `sendMessage(...)`: throws unless the socket is up, and then emits exactly one `send_message`. */
    method SendMessage(chatId: string, content: string, messageType: Option<string>, replyToId: Option<string>)
      returns (r: Result<(), string>)
      modifies this
      ensures old(SocketUp()) <==> r.Ok?
      ensures r.Err? ==> r.error == NOT_CONNECTED && emitted == old(emitted)
      ensures r.Ok? ==> emitted == old(emitted) + [SendMessageEvent(chatId, content, messageType.GetOr("text"), replyToId)]
      ensures socket == old(socket) && connected == old(connected) && listeners == old(listeners)
    {
      if !SocketUp() {
        return Err(NOT_CONNECTED);
      }
      emitted := emitted + [SendMessageEvent(chatId, content, messageType.GetOr("text"), replyToId)];
      return Ok(());
    }

    /** `startTyping(chatId)`: one event while the socket is up, nothing otherwise. */
    method StartTyping(chatId: string)
      modifies this
      ensures emitted == (if old(SocketUp()) then old(emitted) + [TypingStart(chatId)] else old(emitted))
      ensures socket == old(socket) && connected == old(connected) && listeners == old(listeners)
    {
      EmitIfUp(TypingStart(chatId));
    }

    /** `stopTyping(chatId)`: one event while the socket is up, nothing otherwise. */
    method StopTyping(chatId: string)
      modifies this
      ensures emitted == (if old(SocketUp()) then old(emitted) + [TypingStop(chatId)] else old(emitted))
      ensures socket == old(socket) && connected == old(connected) && listeners == old(listeners)
    {
      EmitIfUp(TypingStop(chatId));
    }

    /** `markAsRead(messageId, chatId)`: one event while the socket is up, nothing otherwise. */
    method MarkAsRead(messageId: string, chatId: string)
      modifies this
      ensures emitted == (if old(SocketUp()) then old(emitted) + [MarkRead(messageId, chatId)] else old(emitted))
      ensures socket == old(socket) && connected == old(connected) && listeners == old(listeners)
    {
      EmitIfUp(MarkRead(messageId, chatId));
    }

    /** `joinChat(chatId)`: one event while the socket is up, nothing otherwise. */
    method JoinChatRoom(chatId: string)
      modifies this
      ensures emitted == (if old(SocketUp()) then old(emitted) + [JoinChat(chatId)] else old(emitted))
      ensures socket == old(socket) && connected == old(connected) && listeners == old(listeners)
    {
      EmitIfUp(JoinChat(chatId));
    }

    /** `leaveChat(chatId)`: one event while the socket is up, nothing otherwise. */
    method LeaveChatRoom(chatId: string)
      modifies this
      ensures emitted == (if old(SocketUp()) then old(emitted) + [LeaveChat(chatId)] else old(emitted))
      ensures socket == old(socket) && connected == old(connected) && listeners == old(listeners)
    {
      EmitIfUp(LeaveChat(chatId));
    }

    /**
     * The `onX(callback)` methods: with a socket, the callback becomes the one
     * remembered for that event, replacing any earlier one; without, nothing.
     */
    method On(s: Subscription, callback: Callback)
      requires Valid()
      modifies this
      ensures Valid()
      ensures old(socket).Some? ==> listeners == old(listeners).Set(EventName(s), callback)
      ensures old(socket).None? ==> listeners == old(listeners)
      ensures socket == old(socket) && connected == old(connected) && emitted == old(emitted)
    {
      if socket.Some? {
        listeners := listeners.Set(EventName(s), callback);
      }
    }

    /** `off(event)`: with a socket, forgets that event's callback and no other. */
    method Off(event: string)
      requires Valid()
      modifies this
      ensures Valid()
      ensures old(socket).Some? ==> listeners == old(listeners).Delete(event)
      ensures old(socket).None? ==> listeners == old(listeners)
      ensures socket == old(socket) && connected == old(connected) && emitted == old(emitted)
    {
      if socket.Some? && event in listeners.entries {
        listeners := listeners.Delete(event);
      }
    }

    /** `removeAllListeners()`: with a socket, no callback is remembered afterwards. */
    method RemoveAllListeners()
      modifies this
      ensures old(socket).Some? ==> listeners == Empty()
      ensures old(socket).None? ==> listeners == old(listeners)
      ensures socket == old(socket) && connected == old(connected) && emitted == old(emitted)
    {
      if socket.Some? {
        listeners := Empty();
      }
    }
  }

  /**
   * The listener map keeps one callback per event name: after `on` the
   * event's callback is the new one and every other event keeps its own;
   * after `off` the event has none and every other keeps its own.
   */
  lemma ListenersPerEvent(listeners: OrderedMap<string, Callback>, s: Subscription, callback: Callback, other: string)
    requires listeners.Valid()
    ensures listeners.Set(EventName(s), callback).Get(EventName(s)) == Some(callback)
    ensures other != EventName(s) ==> listeners.Set(EventName(s), callback).Get(other) == listeners.Get(other)
    ensures listeners.Delete(EventName(s)).Get(EventName(s)) == None
    ensures other != EventName(s) ==> listeners.Delete(EventName(s)).Get(other) == listeners.Get(other)
  {
  }
}
