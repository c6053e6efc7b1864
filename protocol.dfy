/** The envelopes exchanged over a connection, and a connection's own state. */
module Protocol {
  import opened Wrappers
  import opened Messages

  type ConnId = nat
  type Token = string

  /** A `ws` object: its `userId` field (unset before auth) and whether its `readyState` is OPEN. */
  datatype Conn = Conn(userId: Option<UserId>, open: bool)

  /** `if (ws.userId)`: JavaScript truthiness, under which the id 0 counts as absent. */
  predicate Authenticated(c: Conn)
  {
    c.userId.Some? && c.userId.value != 0
  }

  /** What `jwt.verify` yields: the decoded id, or the error message it throws. */
  datatype TokenResult = Decoded(id: UserId) | TokenError(message: string)

  datatype TypingKind = StartTyping | StopTyping
  datatype SignalKind = CallOffer | CallAnswer | IceCandidate | HangUp

  /** A parsed inbound event, discriminated by its `type` field. Absent fields are `None`. */
  datatype Inbound =
    | Auth(token: Token)
    | Chat(receiver: Option<UserId>, content: Option<string>, messageType: Option<string>, replyTo: Option<MsgId>)
    | DeleteRequest(messageId: Option<MsgId>, receiver: Option<UserId>)
    | EditRequest(messageId: Option<MsgId>, newContent: Option<string>, receiver: Option<UserId>)
    | Typing(kind: TypingKind, receiver: Option<UserId>)
    | MessagesRead(chatId: Option<UserId>)
      /** `claimedSender` is a `sender_id` the client put in the payload; `fields` is the rest of the payload. */
    | Signal(signal: SignalKind, receiver: Option<UserId>, claimedSender: Option<UserId>, fields: map<string, string>)
      /** An event whose `type` is none of the ones handled above. */
    | Other

  /**
   * A raw frame as `JSON.parse` sees it: not JSON, the JSON literal `null`
   * (on which reading `data.type` throws), or an object.
   */
  datatype Payload = NotJson | JsonNull | Event(data: Inbound)

  datatype OutEvent =
    | AuthFailed(message: string)
    | OnlineUsersList(userIds: seq<UserId>)
    | NewMessage(row: Row, reply: Option<ReplyInfo>)
    | MessageDeleted(messageId: Option<MsgId>)
    | MessageEdited(row: Row)
    | TypingNotice(kind: TypingKind, senderId: UserId)
    | MessagesUpdated(chatId: UserId)
    | UserOffline(userId: UserId, lastSeen: Time)
    | SignalRelay(signal: SignalKind, receiver: Option<UserId>, fields: map<string, string>, senderId: UserId)

  /** One `send` to one connection. */
  datatype Delivery = Delivery(conn: ConnId, event: OutEvent)

  /**
   * How a handler ends: `Done`; `Dropped` (ignored input); `Caught` (a store
   * error the handler catches and logs); `Rejected` (an exception the async
   * handler does not catch, so its promise rejects).
   */
  datatype Outcome = Done | Dropped | Caught | Rejected

  /** A store-failure oracle: `FailAt(k)` makes the handler's k-th query (from 0) fail. */
  datatype Fault = Healthy | FailAt(query: nat)

  predicate Fails(f: Fault, k: nat)
  {
    f.FailAt? && f.query == k
  }
}
