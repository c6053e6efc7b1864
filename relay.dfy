/**
 * The relay's behaviour on each inbound event, as a function of its state:
 * the registry, the connections, the store and the sends made so far.
 * Each handler runs to completion before the next event is taken.
 */
module Relay {
  import opened Wrappers
  import opened Messages
  import opened Protocol
  import opened Presence
  import OrderedMap

  datatype RelayState = RelayState(clients: Registry, conns: Conns, db: Db, outbox: seq<Delivery>)

  /**
   * What every handler keeps: one registry entry per user id, every registered
   * connection is known and has had a user id assigned, and the store's ids are sound.
   */
  predicate Inv(s: RelayState)
  {
    && OrderedMap.NoDupKeys(s.clients)
    && (forall i :: 0 <= i < |s.clients| ==> s.clients[i].1 in s.conns && s.conns[s.clients[i].1].userId.Some?)
    && DbInv(s.db)
  }

  /** The state of a freshly started relay. */
  function Initial(db: Db): RelayState
  {
    RelayState([], map[], db, [])
  }

  /** `wss.on('connection')`: a new, open, unauthenticated connection. */
  function Connect(s: RelayState, c: ConnId): RelayState
    requires c !in s.conns
  {
    s.(conns := s.conns[c := Conn(None, true)])
  }

  /** An `auth` event, given what the verifier made of its token. */
  function AuthStep(s: RelayState, c: ConnId, r: TokenResult): RelayState
    requires c in s.conns
  {
    match r
    case Decoded(u) =>
      var conns := s.conns[c := s.conns[c].(userId := Some(u))];
      var clients := OrderedMap.Set(s.clients, u, c);
      s.(clients := clients, conns := conns,
         outbox := s.outbox + Fanout(clients, conns, OnlineUsersList(OrderedMap.Keys(clients))))
    case TokenError(msg) =>
      s.(outbox := s.outbox + SendIfOpen(s.conns, c, AuthFailed(msg)),
         conns := s.conns[c := s.conns[c].(open := false)])
  }

  /** A `message` event: query 0 is the insert, query 1 the reply look-up. */
  function ChatStep(s: RelayState, c: ConnId, receiver: Option<UserId>, content: Option<string>,
                    messageType: Option<string>, replyTo: Option<MsgId>, fault: Fault, now: Time): (RelayState, Outcome)
    requires c in s.conns && Authenticated(s.conns[c]) && DbInv(s.db)
  {
    var u := s.conns[c].userId.value;
    if Fails(fault, 0) then (s, Caught)
    else
      var msgType := if messageType.Some? then messageType.value else TextType;
      var (db, row) := Insert(s.db, FreshMessage(u, receiver, content, msgType, replyTo, now));
      var lookup := row.msg.replyTo.Some? && row.msg.replyTo.value != 0;
      if lookup && Fails(fault, 1) then (s.(db := db), Caught)
      else
        var ev := NewMessage(row, if lookup then ReplyLookup(db, row.msg.replyTo.value) else None);
        (s.(db := db, outbox := s.outbox + SendToUser(s.clients, s.conns, receiver, ev) + SendIfOpen(s.conns, c, ev)), Done)
  }

  /** A `delete_message` event. */
  function DeleteStep(s: RelayState, c: ConnId, messageId: Option<MsgId>, receiver: Option<UserId>, fault: Fault): (RelayState, Outcome)
    requires c in s.conns && Authenticated(s.conns[c])
  {
    if Fails(fault, 0) then (s, Rejected)
    else
      var (rows, n) := DeleteOwned(s.db.rows, messageId, s.conns[c].userId.value);
      var s1 := s.(db := s.db.(rows := rows));
      if n > 0 then
        var ev := MessageDeleted(messageId);
        (s1.(outbox := s.outbox + SendToUser(s.clients, s.conns, receiver, ev) + SendIfOpen(s.conns, c, ev)), Done)
      else (s1, Done)
  }

  /** An `edit_message` event. */
  function EditStep(s: RelayState, c: ConnId, messageId: Option<MsgId>, newContent: Option<string>,
                    receiver: Option<UserId>, fault: Fault): (RelayState, Outcome)
    requires c in s.conns && Authenticated(s.conns[c])
  {
    if Fails(fault, 0) then (s, Rejected)
    else
      var (rows, n, row) := EditOwned(s.db.rows, messageId, s.conns[c].userId.value, newContent);
      var s1 := s.(db := s.db.(rows := rows));
      if n > 0 && row.Some? then
        var ev := MessageEdited(row.value);
        (s1.(outbox := s.outbox + SendToUser(s.clients, s.conns, receiver, ev) + SendIfOpen(s.conns, c, ev)), Done)
      else (s1, Done)
  }

  /** A `typing` or `stop_typing` event. */
  function TypingStep(s: RelayState, c: ConnId, kind: TypingKind, receiver: Option<UserId>): RelayState
    requires c in s.conns && Authenticated(s.conns[c])
  {
    s.(outbox := s.outbox + SendToUser(s.clients, s.conns, receiver, TypingNotice(kind, s.conns[c].userId.value)))
  }

  /** A `messages_read` event: the reader's unread messages from `chatId` become read. */
  function ReadStep(s: RelayState, c: ConnId, chatId: Option<UserId>, fault: Fault): (RelayState, Outcome)
    requires c in s.conns && Authenticated(s.conns[c])
  {
    var reader := s.conns[c].userId.value;
    if Fails(fault, 0) then (s, Rejected)
    else
      (s.(db := s.db.(rows := MarkRead(s.db.rows, reader, chatId)),
          outbox := s.outbox + SendToUser(s.clients, s.conns, chatId, MessagesUpdated(reader))), Done)
  }

  /** A call-signalling event: the payload is relayed with `sender_id` set to the connection's user. */
  function SignalStep(s: RelayState, c: ConnId, kind: SignalKind, receiver: Option<UserId>, fields: map<string, string>): RelayState
    requires c in s.conns && Authenticated(s.conns[c])
  {
    s.(outbox := s.outbox + SendToUser(s.clients, s.conns, receiver,
                                       SignalRelay(kind, receiver, fields, s.conns[c].userId.value)))
  }

  /** `ws.on('message')`: parse, then dispatch on the event's type. */
  function Handle(s: RelayState, c: ConnId, p: Payload, verify: Token -> TokenResult, fault: Fault, now: Time): (RelayState, Outcome)
    requires c in s.conns && DbInv(s.db)
  {
    match p
    case NotJson => (s, Dropped)
    case JsonNull => (s, Rejected)
    case Event(ev) =>
      if ev.Auth? then (AuthStep(s, c, verify(ev.token)), Done)
      else if !Authenticated(s.conns[c]) then (s, Dropped)
      else match ev
        case Chat(receiver, content, messageType, replyTo) => ChatStep(s, c, receiver, content, messageType, replyTo, fault, now)
        case DeleteRequest(messageId, receiver) => DeleteStep(s, c, messageId, receiver, fault)
        case EditRequest(messageId, newContent, receiver) => EditStep(s, c, messageId, newContent, receiver, fault)
        case Typing(kind, receiver) => (TypingStep(s, c, kind, receiver), Done)
        case MessagesRead(chatId) => ReadStep(s, c, chatId, fault)
        case Signal(kind, receiver, _, fields) => (SignalStep(s, c, kind, receiver, fields), Done)
        case Other => (s, Dropped)
  }

  /**
   * `ws.on('close')`: the connection is closed; an authenticated one has its
   * user's entry deleted (whichever connection it points at), its `last_seen`
   * updated (query 0, whose failure is caught) and `user_offline` broadcast.
   */
  function CloseStep(s: RelayState, c: ConnId, fault: Fault, now: Time): RelayState
    requires c in s.conns
  {
    var conns := s.conns[c := s.conns[c].(open := false)];
    if Authenticated(s.conns[c]) then
      var u := s.conns[c].userId.value;
      var clients := OrderedMap.Delete(s.clients, u);
      var db := if Fails(fault, 0) then s.db else TouchLastSeen(s.db, u, now);
      RelayState(clients, conns, db, s.outbox + Fanout(clients, conns, UserOffline(u, now)))
    else s.(conns := conns)
  }
}
