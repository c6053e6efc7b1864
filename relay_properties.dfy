/** What the relay's handlers promise, proved about the step functions of module Relay. */
module RelayProperties {
  import opened Wrappers
  import opened Messages
  import opened Protocol
  import opened Presence
  import opened Relay
  import OrderedMap

  /** The sends a step added to the outbox. */
  function Sent(before: RelayState, after: RelayState): seq<Delivery>
    requires |before.outbox| <= |after.outbox|
  {
    after.outbox[|before.outbox|..]
  }

  // ---------------------------------------------------------------------------
  // auth

  /**
   * A verified token maps its user to this connection, replacing any earlier
   * entry for that user; no other user's entry changes and no key appears twice.
   */
  lemma AuthRegisters(s: RelayState, c: ConnId, u: UserId)
    requires Inv(s) && c in s.conns
    ensures var t := AuthStep(s, c, Decoded(u));
      && OrderedMap.Get(t.clients, u) == Some(c)
      && (forall u' :: u' != u ==> OrderedMap.Get(t.clients, u') == OrderedMap.Get(s.clients, u'))
      && OrderedMap.KeySet(t.clients) == OrderedMap.KeySet(s.clients) + {u}
      && OrderedMap.NoDupKeys(t.clients)
      && t.conns == s.conns[c := Conn(Some(u), s.conns[c].open)]
      && t.db == s.db
  {
    forall u' ensures OrderedMap.Get(OrderedMap.Set(s.clients, u, c), u') ==
                      if u' == u then Some(c) else OrderedMap.Get(s.clients, u') {
      OrderedMap.SetGet(s.clients, u, c, u');
    }
    OrderedMap.SetKeySet(s.clients, u, c);
    OrderedMap.SetEntries(s.clients, u, c);
  }

  /**
   * After a successful auth, every send is an `online_users_list` holding the
   * registry's keys, each once; an open connection receives one list per
   * registry entry pointing at it, a closed one none.
   */
  lemma AuthOnlineList(s: RelayState, c: ConnId, u: UserId, x: ConnId)
    requires Inv(s) && c in s.conns
    ensures var t := AuthStep(s, c, Decoded(u));
      var ids := OrderedMap.Keys(t.clients);
      && t.outbox[..|s.outbox|] == s.outbox
      && (forall d :: d in Sent(s, t) ==> d.event == OnlineUsersList(ids) && IsOpen(t.conns, d.conn) && Registered(t.clients, d.conn))
      && (forall k :: k in ids <==> k in OrderedMap.KeySet(t.clients))
      && (forall i, j :: 0 <= i < j < |ids| ==> ids[i] != ids[j])
      && CountTo(Sent(s, t), x) == if IsOpen(t.conns, x) then EntriesFor(t.clients, x) else 0
  {
    var t := AuthStep(s, c, Decoded(u));
    var ev := OnlineUsersList(OrderedMap.Keys(t.clients));
    assert Sent(s, t) == Fanout(t.clients, t.conns, ev);
    FanoutTargets(t.clients, t.conns, ev);
    FanoutCount(t.clients, t.conns, ev, x);
    OrderedMap.SetEntries(s.clients, u, c);
    OrderedMap.KeysListKeySet(t.clients);
  }

  /** When no connection is registered twice, each open registered connection gets exactly one online list. */
  lemma AuthOnlineListOnce(s: RelayState, c: ConnId, u: UserId, x: ConnId)
    requires Inv(s) && c in s.conns
    requires OneUserPerConn(AuthStep(s, c, Decoded(u)).clients)
    ensures var t := AuthStep(s, c, Decoded(u));
      CountTo(Sent(s, t), x) == if IsOpen(t.conns, x) && Registered(t.clients, x) then 1 else 0
  {
    var t := AuthStep(s, c, Decoded(u));
    var ev := OnlineUsersList(OrderedMap.Keys(t.clients));
    assert Sent(s, t) == Fanout(t.clients, t.conns, ev);
    FanoutExactlyOnce(t.clients, t.conns, ev, x);
  }

  /**
   * A rejected token: `auth_failed` goes to this connection only if it is open,
   * the connection is closed, and the registry and the store are unchanged.
   */
  lemma AuthFailure(s: RelayState, c: ConnId, msg: string)
    requires c in s.conns
    ensures var t := AuthStep(s, c, TokenError(msg));
      && t.outbox == s.outbox + (if IsOpen(s.conns, c) then [Delivery(c, AuthFailed(msg))] else [])
      && t.conns == s.conns[c := s.conns[c].(open := false)]
      && t.clients == s.clients && t.db == s.db
  {
  }

  // ---------------------------------------------------------------------------
  // Dropped input

  /**
   * A payload that is not JSON, any non-`auth` event on a connection without a
   * truthy user id, and an unknown type change nothing; JSON `null` changes
   * nothing either but rejects the handler's promise.
   */
  lemma DroppedInput(s: RelayState, c: ConnId, p: Payload, verify: Token -> TokenResult, fault: Fault, now: Time)
    requires c in s.conns && DbInv(s.db)
    requires || p.NotJson? || p.JsonNull?
             || (p.Event? && !p.data.Auth? && !Authenticated(s.conns[c]))
             || (p.Event? && p.data.Other?)
    ensures Handle(s, c, p, verify, fault, now) == (s, if p.JsonNull? then Rejected else Dropped)
  {
  }

  // ---------------------------------------------------------------------------
  // message

  /**
   * A stored message: exactly one row is inserted under a fresh id, sent by the
   * connection's user, typed `text` unless the client said otherwise, replying
   * to nothing unless the client said so; `new_message` goes to the receiver's
   * registered open connection and is echoed to the sender if open.
   */
  lemma ChatStored(s: RelayState, c: ConnId, receiver: Option<UserId>, content: Option<string>,
                   messageType: Option<string>, replyTo: Option<MsgId>, now: Time)
    requires Inv(s) && c in s.conns && Authenticated(s.conns[c])
    ensures var (t, o) := ChatStep(s, c, receiver, content, messageType, replyTo, Healthy, now);
      var id := s.db.nextId;
      && o == Done
      && id !in s.db.rows && id in t.db.rows
      && t.db == s.db.(rows := s.db.rows[id := t.db.rows[id]], nextId := id + 1)
      && |t.db.rows| == |s.db.rows| + 1
      && var m := t.db.rows[id];
      && m.sender == s.conns[c].userId.value && m.receiver == receiver && m.content == content
      && m.msgType == (if messageType.None? then TextType else messageType.value)
      && m.replyTo == replyTo && !m.isRead && !m.isEdited && !m.isDeleted
      && t.clients == s.clients && t.conns == s.conns
      && var reply := if replyTo.Some? && replyTo.value != 0 then ReplyLookup(t.db, replyTo.value) else None;
         var e := NewMessage(Row(id, m), reply);
         t.outbox == s.outbox + SendToUser(s.clients, s.conns, receiver, e) + SendIfOpen(s.conns, c, e)
  {
    var (t, o) := ChatStep(s, c, receiver, content, messageType, replyTo, Healthy, now);
    var id := s.db.nextId;
    var m := t.db.rows[id];
    var lookup := replyTo.Some? && replyTo.value != 0;
    var ev := NewMessage(Row(id, m), if lookup then ReplyLookup(t.db, replyTo.value) else None);
  }

  /** Self-chat: when the receiver is the sender's own open connection, it gets `new_message` twice. */
  lemma SelfChatTwice(s: RelayState, c: ConnId, content: Option<string>, messageType: Option<string>,
                      replyTo: Option<MsgId>, now: Time)
    requires Inv(s) && c in s.conns && Authenticated(s.conns[c]) && s.conns[c].open
    requires OrderedMap.Get(s.clients, s.conns[c].userId.value) == Some(c)
    ensures var (t, _) := ChatStep(s, c, s.conns[c].userId, content, messageType, replyTo, Healthy, now);
      |Sent(s, t)| == 2 && Sent(s, t)[0] == Sent(s, t)[1] && Sent(s, t)[0].conn == c
  {
  }

  /**
   * A failed insert changes nothing and sends nothing; a failed reply look-up
   * keeps the inserted row but sends nothing.
   */
  lemma ChatStoreError(s: RelayState, c: ConnId, receiver: Option<UserId>, content: Option<string>,
                       messageType: Option<string>, replyTo: Option<MsgId>, fault: Fault, now: Time)
    requires Inv(s) && c in s.conns && Authenticated(s.conns[c]) && fault.FailAt?
    ensures var (t, o) := ChatStep(s, c, receiver, content, messageType, replyTo, fault, now);
      && (fault.query == 0 ==> t == s && o == Caught)
      && (fault.query == 1 && replyTo.Some? && replyTo.value != 0 ==>
            var msgType := if messageType.Some? then messageType.value else TextType;
            && o == Caught && t.outbox == s.outbox && t.clients == s.clients && t.conns == s.conns
            && t.db == Insert(s.db, FreshMessage(s.conns[c].userId.value, receiver, content, msgType, replyTo, now)).0)
  {
  }

  // ---------------------------------------------------------------------------
  // delete_message and edit_message

  /**
   * Delete changes only a row the connection's user sent, into the tombstone;
   * if no row matches, the state is unchanged and nothing is sent; otherwise
   * `message_deleted` goes to the named receiver's open connection and back to the sender.
   */
  lemma DeleteOwnOnly(s: RelayState, c: ConnId, messageId: Option<MsgId>, receiver: Option<UserId>)
    requires Inv(s) && c in s.conns && Authenticated(s.conns[c])
    ensures var (t, o) := DeleteStep(s, c, messageId, receiver, Healthy);
      var u := s.conns[c].userId.value;
      && o == Done
      && (!Owns(s.db.rows, messageId, u) ==> t == s)
      && (Owns(s.db.rows, messageId, u) ==>
            && t.db == s.db.(rows := s.db.rows[messageId.value := Tombstone(s.db.rows[messageId.value])])
            && t.clients == s.clients && t.conns == s.conns
            && var e := MessageDeleted(messageId);
               t.outbox == s.outbox + SendToUser(s.clients, s.conns, receiver, e) + SendIfOpen(s.conns, c, e))
  {
  }

  /**
   * Edit changes only a row the connection's user sent: new content, edited
   * flag set, deleted flag as it was; if no row matches nothing changes; on
   * success `message_edited` carries the updated row.
   */
  lemma EditOwnOnly(s: RelayState, c: ConnId, messageId: Option<MsgId>, newContent: Option<string>, receiver: Option<UserId>)
    requires Inv(s) && c in s.conns && Authenticated(s.conns[c])
    ensures var (t, o) := EditStep(s, c, messageId, newContent, receiver, Healthy);
      var u := s.conns[c].userId.value;
      && o == Done
      && (!Owns(s.db.rows, messageId, u) ==> t == s)
      && (Owns(s.db.rows, messageId, u) ==>
            var before := s.db.rows[messageId.value];
            var m := t.db.rows[messageId.value];
            && t.db == s.db.(rows := s.db.rows[messageId.value := m])
            && m == before.(content := newContent, isEdited := true)
            && m.isDeleted == before.isDeleted
            && t.clients == s.clients && t.conns == s.conns
            && var e := MessageEdited(Row(messageId.value, m));
               t.outbox == s.outbox + SendToUser(s.clients, s.conns, receiver, e) + SendIfOpen(s.conns, c, e))
  {
  }

  /** A store failure in `delete_message`, `edit_message` or `messages_read` changes nothing and rejects. */
  lemma UncaughtStoreError(s: RelayState, c: ConnId, p: Payload, verify: Token -> TokenResult, k: nat, now: Time)
    requires Inv(s) && c in s.conns && Authenticated(s.conns[c]) && p.Event?
    requires p.data.DeleteRequest? || p.data.EditRequest? || p.data.MessagesRead?
    ensures Handle(s, c, p, verify, FailAt(0), now) == (s, Rejected)
  {
  }

  // ---------------------------------------------------------------------------
  // messages_read, typing, signalling

  /**
   * Exactly the reader's unread messages from `chatId` become read, nothing
   * else changes, and one `messages_updated` naming the reader goes to
   * `chatId`'s connection when it is registered and open; otherwise nothing is sent.
   */
  lemma ReadMarksConversation(s: RelayState, c: ConnId, chatId: Option<UserId>)
    requires Inv(s) && c in s.conns && Authenticated(s.conns[c])
    ensures var (t, o) := ReadStep(s, c, chatId, Healthy);
      var reader := s.conns[c].userId.value;
      && o == Done && t.clients == s.clients && t.conns == s.conns
      && t.db == s.db.(rows := t.db.rows) && t.db.rows.Keys == s.db.rows.Keys
      && (forall i :: i in s.db.rows ==>
            t.db.rows[i] == if UnreadFrom(s.db.rows[i], reader, chatId) then s.db.rows[i].(isRead := true) else s.db.rows[i])
      && (forall r :: ReachesOpen(s.clients, s.conns, chatId, r) ==> t.outbox == s.outbox + [Delivery(r, MessagesUpdated(reader))])
      && ((forall r :: !ReachesOpen(s.clients, s.conns, chatId, r)) ==> t.outbox == s.outbox)
  {
    var (t, o) := ReadStep(s, c, chatId, Healthy);
    var reader := s.conns[c].userId.value;
    forall i | i in s.db.rows
      ensures t.db.rows[i] == if UnreadFrom(s.db.rows[i], reader, chatId) then s.db.rows[i].(isRead := true) else s.db.rows[i]
    {
    }
  }

  /**
   * Typing notices and call signals never touch the store or the registry;
   * they are sent to the receiver's connection when it is registered and open,
   * and nowhere otherwise, carrying the connection's own user as sender
   * whatever the client claimed.
   */
  lemma EphemeralRelay(s: RelayState, c: ConnId, p: Payload, verify: Token -> TokenResult, fault: Fault, now: Time)
    requires Inv(s) && c in s.conns && Authenticated(s.conns[c]) && p.Event?
    requires p.data.Typing? || p.data.Signal?
    ensures var (t, o) := Handle(s, c, p, verify, fault, now);
      var u := s.conns[c].userId.value;
      && o == Done && t.db == s.db && t.clients == s.clients && t.conns == s.conns
      && var e := if p.data.Typing? then TypingNotice(p.data.kind, u)
                  else SignalRelay(p.data.signal, p.data.receiver, p.data.fields, u);
         && (forall r :: ReachesOpen(s.clients, s.conns, p.data.receiver, r) ==> t.outbox == s.outbox + [Delivery(r, e)])
         && ((forall r :: !ReachesOpen(s.clients, s.conns, p.data.receiver, r)) ==> t.outbox == s.outbox)
  {
    var (t, o) := Handle(s, c, p, verify, fault, now);
    var u := s.conns[c].userId.value;
    if p.data.Typing? {
      assert Sent(s, t) == SendToUser(s.clients, s.conns, p.data.receiver, TypingNotice(p.data.kind, u));
    } else {
      assert Sent(s, t) == SendToUser(s.clients, s.conns, p.data.receiver,
                                      SignalRelay(p.data.signal, p.data.receiver, p.data.fields, u));
    }
  }

  // ---------------------------------------------------------------------------
  // close

  /**
   * Closing an authenticated connection deletes its user's entry, whichever
   * connection it points at, stamps its `last_seen` unless that update fails,
   * and broadcasts `user_offline` for that user to
   * every remaining open registered connection, once per entry; the closed
   * connection receives nothing.
   */
  lemma CloseEvicts(s: RelayState, c: ConnId, fault: Fault, now: Time, x: ConnId)
    requires Inv(s) && c in s.conns && Authenticated(s.conns[c])
    ensures var t := CloseStep(s, c, fault, now);
      var u := s.conns[c].userId.value;
      && OrderedMap.Get(t.clients, u) == None
      && (forall u' :: u' != u ==> OrderedMap.Get(t.clients, u') == OrderedMap.Get(s.clients, u'))
      && OrderedMap.KeySet(t.clients) == OrderedMap.KeySet(s.clients) - {u}
      && t.clients == OrderedMap.Delete(s.clients, u)
      && t.conns == s.conns[c := s.conns[c].(open := false)]
      && t.outbox[..|s.outbox|] == s.outbox
      && t.db.rows == s.db.rows
      && t.db == (if Fails(fault, 0) then s.db else TouchLastSeen(s.db, u, now))
      && (forall d :: d in Sent(s, t) ==> d.event == UserOffline(u, now) && IsOpen(t.conns, d.conn) && Registered(t.clients, d.conn))
      && CountTo(Sent(s, t), x) == (if IsOpen(t.conns, x) then EntriesFor(t.clients, x) else 0)
      && CountTo(Sent(s, t), c) == 0
  {
    var t := CloseStep(s, c, fault, now);
    var u := s.conns[c].userId.value;
    forall u' ensures OrderedMap.Get(t.clients, u') == if u' == u then None else OrderedMap.Get(s.clients, u') {
      OrderedMap.DeleteGet(s.clients, u, u');
    }
    OrderedMap.DeleteKeySet(s.clients, u);
    assert Sent(s, t) == Fanout(t.clients, t.conns, UserOffline(u, now));
    FanoutTargets(t.clients, t.conns, UserOffline(u, now));
    FanoutCount(t.clients, t.conns, UserOffline(u, now), x);
    FanoutCount(t.clients, t.conns, UserOffline(u, now), c);
  }

  /** Closing a connection without a truthy user id only marks it closed. */
  lemma CloseUnauthenticated(s: RelayState, c: ConnId, fault: Fault, now: Time)
    requires c in s.conns && !Authenticated(s.conns[c])
    ensures CloseStep(s, c, fault, now) == s.(conns := s.conns[c := s.conns[c].(open := false)])
  {
  }

  // ---------------------------------------------------------------------------
  // Traces that show where the code departs from a guarded registry

  /**
   * The eviction is unguarded: when connection 0 and then connection 1
   * authenticate as the same user, closing connection 0 removes the user even
   * though the entry points at the still-open connection 1.
   */
  lemma StaleCloseEvictsNewer(db: Db, u: UserId, now: Time)
    requires DbInv(db) && u != 0
    ensures var s1 := Connect(Connect(Initial(db), 0), 1);
      var s2 := AuthStep(AuthStep(s1, 0, Decoded(u)), 1, Decoded(u));
      var s3 := CloseStep(s2, 0, Healthy, now);
      && OrderedMap.Get(s2.clients, u) == Some(1)
      && IsOpen(s3.conns, 1)
      && OrderedMap.Get(s3.clients, u) == None
  {
    var s1 := Connect(Connect(Initial(db), 0), 1);
    var s2 := AuthStep(AuthStep(s1, 0, Decoded(u)), 1, Decoded(u));
    assert s2.clients == [(u, 1)];
    var s3 := CloseStep(s2, 0, Healthy, now);
    assert s3.clients == OrderedMap.Delete(s2.clients, u);
    OrderedMap.DeleteGet(s2.clients, u, u);
  }

  /**
   * Re-authenticating as another user leaves the first user's key pointing at
   * the connection, which then appears under both users and receives the
   * online list twice.
   */
  lemma ReauthLeavesStaleKey(db: Db, u1: UserId, u2: UserId)
    requires DbInv(db) && u1 != u2
    ensures var s1 := AuthStep(Connect(Initial(db), 0), 0, Decoded(u1));
      var s2 := AuthStep(s1, 0, Decoded(u2));
      && OrderedMap.Get(s2.clients, u1) == Some(0)
      && OrderedMap.Get(s2.clients, u2) == Some(0)
      && s2.conns[0].userId == Some(u2)
      && CountTo(Sent(s1, s2), 0) == 2
  {
    var s1 := AuthStep(Connect(Initial(db), 0), 0, Decoded(u1));
    var s2 := AuthStep(s1, 0, Decoded(u2));
    assert s1.clients == [(u1, 0)];
    assert [(u1, 0)][1..] == [];
    assert OrderedMap.Set([], u2, 0) == [(u2, 0)];
    assert OrderedMap.Set([(u1, 0)], u2, 0) == [(u1, 0)] + OrderedMap.Set([], u2, 0);
    assert s2.clients == OrderedMap.Set(s1.clients, u2, 0);
    assert s2.clients == [(u1, 0), (u2, 0)];
    assert IsOpen(s2.conns, 0);
    var ev := OnlineUsersList(OrderedMap.Keys(s2.clients));
    assert Sent(s1, s2) == Fanout(s2.clients, s2.conns, ev);
    FanoutCount(s2.clients, s2.conns, ev, 0);
    assert s2.clients[..1] == [(u1, 0)];
    assert [(u1, 0)][..0] == [];
    assert EntriesFor([(u1, 0)], 0) == 1;
    assert EntriesFor(s2.clients, 0) == 2;
  }

  // ---------------------------------------------------------------------------
  // The invariant

  lemma ConnectKeepsInv(s: RelayState, c: ConnId)
    requires Inv(s) && c !in s.conns
    ensures Inv(Connect(s, c))
  {
  }

  lemma {:induction false} HandleKeepsInv(s: RelayState, c: ConnId, p: Payload, verify: Token -> TokenResult, fault: Fault, now: Time)
    requires Inv(s) && c in s.conns
    ensures Inv(Handle(s, c, p, verify, fault, now).0)
    ensures Handle(s, c, p, verify, fault, now).0.conns.Keys == s.conns.Keys
  {
    if p.Event? {
      var ev := p.data;
      if ev.Auth? {
        AuthKeepsInv(s, c, verify(ev.token));
      } else if Authenticated(s.conns[c]) {
        match ev
        case Chat(receiver, content, messageType, replyTo) => ChatKeepsInv(s, c, receiver, content, messageType, replyTo, fault, now);
        case DeleteRequest(messageId, receiver) => DeleteKeepsInv(s, c, messageId, receiver, fault);
        case EditRequest(messageId, newContent, receiver) => EditKeepsInv(s, c, messageId, newContent, receiver, fault);
        case Typing(kind, receiver) =>
        case MessagesRead(chatId) => ReadKeepsInv(s, c, chatId, fault);
        case Signal(_, _, _, _) =>
        case Other =>
      }
    }
  }

  lemma ChatKeepsInv(s: RelayState, c: ConnId, receiver: Option<UserId>, content: Option<string>,
                     messageType: Option<string>, replyTo: Option<MsgId>, fault: Fault, now: Time)
    requires Inv(s) && c in s.conns && Authenticated(s.conns[c])
    ensures var t := ChatStep(s, c, receiver, content, messageType, replyTo, fault, now).0;
      Inv(t) && t.clients == s.clients && t.conns == s.conns
  {
  }

  lemma DeleteKeepsInv(s: RelayState, c: ConnId, messageId: Option<MsgId>, receiver: Option<UserId>, fault: Fault)
    requires Inv(s) && c in s.conns && Authenticated(s.conns[c])
    ensures var t := DeleteStep(s, c, messageId, receiver, fault).0;
      Inv(t) && t.clients == s.clients && t.conns == s.conns
  {
  }

  lemma EditKeepsInv(s: RelayState, c: ConnId, messageId: Option<MsgId>, newContent: Option<string>,
                     receiver: Option<UserId>, fault: Fault)
    requires Inv(s) && c in s.conns && Authenticated(s.conns[c])
    ensures var t := EditStep(s, c, messageId, newContent, receiver, fault).0;
      Inv(t) && t.clients == s.clients && t.conns == s.conns
  {
  }

  lemma ReadKeepsInv(s: RelayState, c: ConnId, chatId: Option<UserId>, fault: Fault)
    requires Inv(s) && c in s.conns && Authenticated(s.conns[c])
    ensures var t := ReadStep(s, c, chatId, fault).0;
      Inv(t) && t.clients == s.clients && t.conns == s.conns
  {
  }

  lemma {:induction false} AuthKeepsInv(s: RelayState, c: ConnId, r: TokenResult)
    requires Inv(s) && c in s.conns
    ensures Inv(AuthStep(s, c, r)) && AuthStep(s, c, r).conns.Keys == s.conns.Keys
  {
    if r.Decoded? {
      OrderedMap.SetEntries(s.clients, r.id, c);
      var t := AuthStep(s, c, r);
      forall i | 0 <= i < |t.clients| ensures t.clients[i].1 in t.conns && t.conns[t.clients[i].1].userId.Some? {
        assert t.clients[i] in t.clients;
      }
    }
  }

  lemma {:induction false} CloseKeepsInv(s: RelayState, c: ConnId, fault: Fault, now: Time)
    requires Inv(s) && c in s.conns
    ensures Inv(CloseStep(s, c, fault, now))
  {
    if Authenticated(s.conns[c]) {
      var u := s.conns[c].userId.value;
      OrderedMap.DeleteEntries(s.clients, u);
      OrderedMap.DeleteNoDup(s.clients, u);
      var t := CloseStep(s, c, fault, now);
      forall i | 0 <= i < |t.clients| ensures t.clients[i].1 in t.conns && t.conns[t.clients[i].1].userId.Some? {
        assert t.clients[i] in t.clients;
        var k :| 0 <= k < |s.clients| && s.clients[k] == t.clients[i];
      }
    }
  }
}
