/**
 * The relay as it runs: the `clients` map, the `ws` objects and the sends,
 * updated in place by one method per event.
 */
module Server {
  import opened Wrappers
  import opened Messages
  import opened Protocol
  import opened Presence
  import opened Relay
  import opened Store
  import RelayProperties
  import OrderedMap

  class RelayServer {
    var clients: Registry
    var conns: Conns
    var outbox: seq<Delivery>
    var nextConn: ConnId
    const store: MessageStore

    ghost function State(): RelayState
      reads this, store
    {
      RelayState(clients, conns, store.Snapshot(), outbox)
    }

    ghost predicate Valid()
      reads this, store
    {
      Inv(State()) && forall c :: c in conns ==> c < nextConn
    }

    constructor (store: MessageStore)
      requires store.Valid()
      ensures Valid() && this.store == store && State() == Initial(store.Snapshot())
    {
      clients := [];
      conns := map[];
      outbox := [];
      nextConn := 0;
      this.store := store;
    }

    /** `wss.on('connection')`. */
    method Connect() returns (c: ConnId)
      requires Valid()
      modifies this
      ensures Valid() && c !in old(conns) && State() == Relay.Connect(old(State()), c)
    {
      c := nextConn;
      conns := conns[c := Conn(None, true)];
      nextConn := nextConn + 1;
    }

    /** `if (ws.readyState === OPEN) ws.send(ev)`. */
    method SendTo(c: ConnId, ev: OutEvent)
      modifies this`outbox
      ensures outbox == old(outbox) + SendIfOpen(conns, c, ev)
    {
      if c in conns && conns[c].open {
        outbox := outbox + [Delivery(c, ev)];
      }
    }

    /** `const w = clients.get(id); if (w && w.readyState === OPEN) w.send(ev)`. */
    method SendToUser(id: Option<UserId>, ev: OutEvent)
      modifies this`outbox
      ensures outbox == old(outbox) + Presence.SendToUser(clients, conns, id, ev)
    {
      if id.Some? {
        var w := OrderedMap.Get(clients, id.value);
        if w.Some? {
          SendTo(w.value, ev);
        }
      }
    }

    /** `clients.forEach(client => { if (client.readyState === OPEN) client.send(ev) })`. */
    method Broadcast(ev: OutEvent)
      modifies this`outbox
      ensures outbox == old(outbox) + Fanout(clients, conns, ev)
    {
      var i := 0;
      while i < |clients|
        invariant 0 <= i <= |clients|
        invariant outbox == old(outbox) + Fanout(clients[..i], conns, ev)
      {
        assert clients[..i + 1][..i] == clients[..i];
        SendTo(clients[i].1, ev);
        i := i + 1;
      }
      assert clients[..i] == clients;
    }

    method OnAuth(c: ConnId, r: TokenResult)
      requires Valid() && c in conns
      modifies this`clients, this`conns, this`outbox
      ensures Valid() && State() == AuthStep(old(State()), c, r)
    {
      RelayProperties.AuthKeepsInv(State(), c, r);
      match r
      case Decoded(u) =>
        conns := conns[c := conns[c].(userId := Some(u))];
        clients := OrderedMap.Set(clients, u, c);
        Broadcast(OnlineUsersList(OrderedMap.Keys(clients)));
      case TokenError(msg) =>
        SendTo(c, AuthFailed(msg));
        conns := conns[c := conns[c].(open := false)];
    }

    method OnChat(c: ConnId, receiver: Option<UserId>, content: Option<string>, messageType: Option<string>,
                  replyTo: Option<MsgId>, fault: Fault, now: Time) returns (o: Outcome)
      requires Valid() && c in conns && Authenticated(conns[c])
      modifies this`outbox, store
      ensures Valid() && (State(), o) == ChatStep(old(State()), c, receiver, content, messageType, replyTo, fault, now)
    {
      RelayProperties.ChatKeepsInv(State(), c, receiver, content, messageType, replyTo, fault, now);
      var u := conns[c].userId.value;
      if Fails(fault, 0) {
        o := Caught;
        return;
      }
      var msgType := if messageType.Some? then messageType.value else TextType;
      var row := store.InsertRow(FreshMessage(u, receiver, content, msgType, replyTo, now));
      var reply: Option<ReplyInfo> := None;
      if row.msg.replyTo.Some? && row.msg.replyTo.value != 0 {
        if Fails(fault, 1) {
          o := Caught;
          return;
        }
        reply := store.SelectReply(row.msg.replyTo.value);
      }
      var ev := NewMessage(row, reply);
      SendToUser(receiver, ev);
      SendTo(c, ev);
      o := Done;
    }

    method OnDelete(c: ConnId, messageId: Option<MsgId>, receiver: Option<UserId>, fault: Fault) returns (o: Outcome)
      requires Valid() && c in conns && Authenticated(conns[c])
      modifies this`outbox, store
      ensures Valid() && (State(), o) == DeleteStep(old(State()), c, messageId, receiver, fault)
    {
      RelayProperties.DeleteKeepsInv(State(), c, messageId, receiver, fault);
      if Fails(fault, 0) {
        o := Rejected;
        return;
      }
      var rowCount := store.UpdateTombstone(messageId, conns[c].userId.value);
      if rowCount > 0 {
        var ev := MessageDeleted(messageId);
        SendToUser(receiver, ev);
        SendTo(c, ev);
      }
      o := Done;
    }

    method OnEdit(c: ConnId, messageId: Option<MsgId>, newContent: Option<string>, receiver: Option<UserId>,
                  fault: Fault) returns (o: Outcome)
      requires Valid() && c in conns && Authenticated(conns[c])
      modifies this`outbox, store
      ensures Valid() && (State(), o) == EditStep(old(State()), c, messageId, newContent, receiver, fault)
    {
      RelayProperties.EditKeepsInv(State(), c, messageId, newContent, receiver, fault);
      if Fails(fault, 0) {
        o := Rejected;
        return;
      }
      var rowCount, row := store.UpdateEdit(messageId, conns[c].userId.value, newContent);
      if rowCount > 0 && row.Some? {
        var ev := MessageEdited(row.value);
        SendToUser(receiver, ev);
        SendTo(c, ev);
      }
      o := Done;
    }

    method OnRead(c: ConnId, chatId: Option<UserId>, fault: Fault) returns (o: Outcome)
      requires Valid() && c in conns && Authenticated(conns[c])
      modifies this`outbox, store
      ensures Valid() && (State(), o) == ReadStep(old(State()), c, chatId, fault)
    {
      RelayProperties.ReadKeepsInv(State(), c, chatId, fault);
      if Fails(fault, 0) {
        o := Rejected;
        return;
      }
      var reader := conns[c].userId.value;
      store.MarkReadFrom(reader, chatId);
      SendToUser(chatId, MessagesUpdated(reader));
      o := Done;
    }

    method OnTyping(c: ConnId, kind: TypingKind, receiver: Option<UserId>)
      requires Valid() && c in conns && Authenticated(conns[c])
      modifies this`outbox
      ensures Valid() && State() == TypingStep(old(State()), c, kind, receiver)
    {
      SendToUser(receiver, TypingNotice(kind, conns[c].userId.value));
    }

    method OnSignal(c: ConnId, kind: SignalKind, receiver: Option<UserId>, fields: map<string, string>)
      requires Valid() && c in conns && Authenticated(conns[c])
      modifies this`outbox
      ensures Valid() && State() == SignalStep(old(State()), c, kind, receiver, fields)
    {
      SendToUser(receiver, SignalRelay(kind, receiver, fields, conns[c].userId.value));
    }

    /** `ws.on('message')`. */
    method OnMessage(c: ConnId, p: Payload, verify: Token -> TokenResult, fault: Fault, now: Time) returns (o: Outcome)
      requires Valid() && c in conns
      modifies this`clients, this`conns, this`outbox, store
      ensures Valid() && (State(), o) == Handle(old(State()), c, p, verify, fault, now)
    {
      match p
      case NotJson => o := Dropped;
      case JsonNull => o := Rejected;
      case Event(ev) =>
        if ev.Auth? {
          OnAuth(c, verify(ev.token));
          o := Done;
        } else if !Authenticated(conns[c]) {
          o := Dropped;
        } else {
          match ev
          case Chat(receiver, content, messageType, replyTo) =>
            o := OnChat(c, receiver, content, messageType, replyTo, fault, now);
          case DeleteRequest(messageId, receiver) =>
            o := OnDelete(c, messageId, receiver, fault);
          case EditRequest(messageId, newContent, receiver) =>
            o := OnEdit(c, messageId, newContent, receiver, fault);
          case Typing(kind, receiver) =>
            OnTyping(c, kind, receiver);
            o := Done;
          case MessagesRead(chatId) =>
            o := OnRead(c, chatId, fault);
          case Signal(kind, receiver, _, fields) =>
            OnSignal(c, kind, receiver, fields);
            o := Done;
          case Other =>
            o := Dropped;
        }
    }

    /** `ws.on('close')`. */
    method OnClose(c: ConnId, fault: Fault, now: Time)
      requires Valid() && c in conns
      modifies this`clients, this`conns, this`outbox, store
      ensures Valid() && State() == CloseStep(old(State()), c, fault, now)
    {
      var wasAuthenticated := Authenticated(conns[c]);
      conns := conns[c := conns[c].(open := false)];
      if wasAuthenticated {
        var u := conns[c].userId.value;
        clients := OrderedMap.Delete(clients, u);
        if !Fails(fault, 0) {
          store.TouchUserLastSeen(u, now);
        }
        Broadcast(UserOffline(u, now));
      }
      RelayProperties.CloseKeepsInv(old(State()), c, fault, now);
    }
  }
}
