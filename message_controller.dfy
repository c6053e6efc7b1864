/**
 * The REST path over the same message table: `sendMessage`, `deleteMessage`
 * and `getMessages`, for a user the authentication middleware has already
 * identified.
 */
module MessageController {
  import opened Wrappers
  import opened Messages
  import opened Protocol
  import opened Store
  import opened Conversation
  import Relay

  /** "Receiver and message text are required". */
  const MissingFieldsText: string := "Необходимо указать получателя и текст сообщения"
  /** "You cannot delete this message". */
  const ForbiddenText: string := "Вы не можете удалить это сообщение"
  /** "Server error". */
  const ServerErrorText: string := "Ошибка сервера"

  datatype Body =
    | Notice(message: string)
    | CreatedRow(row: Row)
    | DeletedNotice(message: string, messageId: MsgId)
    | HistoryRows(rows: seq<HistoryRow>)
    | ErrorText(text: string)

  datatype Response = Response(status: nat, body: Body)

  /** `!receiver_id || !content`: an absent, zero receiver or an absent, empty content is falsy. */
  predicate MissingFields(receiver: Option<UserId>, content: Option<string>)
  {
    receiver.None? || receiver.value == 0 || content.None? || content.value == ""
  }

  /** `sendMessage`: validate, then `INSERT (sender_id, receiver_id, content) RETURNING *` (query 0). */
  function SendMessageStep(db: Db, user: UserId, receiver: Option<UserId>, content: Option<string>,
                           fault: Fault, now: Time): (Db, Response)
    requires DbInv(db)
  {
    if MissingFields(receiver, content) then (db, Response(400, Notice(MissingFieldsText)))
    else if Fails(fault, 0) then (db, Response(500, ErrorText(ServerErrorText)))
    else
      var (db', row) := Insert(db, FreshMessage(user, receiver, content, TextType, None, now));
      (db', Response(201, CreatedRow(row)))
  }

  /** `deleteMessage`: the tombstone update conditioned on ownership (query 0), 403 when no row matched. */
  function DeleteMessageStep(db: Db, user: UserId, messageId: MsgId, fault: Fault): (Db, Response)
  {
    if Fails(fault, 0) then (db, Response(500, ErrorText(ServerErrorText)))
    else
      var (rows, n) := DeleteOwned(db.rows, Some(messageId), user);
      if n == 0 then (db, Response(403, Notice(ForbiddenText)))
      else (db.(rows := rows), Response(200, DeletedNotice(DeletedText, messageId)))
  }

  /** `getMessages`: the conversation query (query 0). */
  function GetMessages(db: Db, user: UserId, other: UserId, fault: Fault): Response
  {
    if Fails(fault, 0) then Response(500, ErrorText(ServerErrorText))
    else Response(200, HistoryRows(History(db, user, other)))
  }

  method SendMessage(store: MessageStore, user: UserId, receiver: Option<UserId>, content: Option<string>,
                     fault: Fault, now: Time) returns (resp: Response)
    requires store.Valid()
    modifies store
    ensures store.Valid() && (store.Snapshot(), resp) == SendMessageStep(old(store.Snapshot()), user, receiver, content, fault, now)
  {
    if MissingFields(receiver, content) {
      return Response(400, Notice(MissingFieldsText));
    }
    if Fails(fault, 0) {
      return Response(500, ErrorText(ServerErrorText));
    }
    var row := store.InsertRow(FreshMessage(user, receiver, content, TextType, None, now));
    resp := Response(201, CreatedRow(row));
  }

  method DeleteMessage(store: MessageStore, user: UserId, messageId: MsgId, fault: Fault) returns (resp: Response)
    requires store.Valid()
    modifies store
    ensures store.Valid() && (store.Snapshot(), resp) == DeleteMessageStep(old(store.Snapshot()), user, messageId, fault)
  {
    if Fails(fault, 0) {
      return Response(500, ErrorText(ServerErrorText));
    }
    var rowCount := store.UpdateTombstone(Some(messageId), user);
    if rowCount == 0 {
      return Response(403, Notice(ForbiddenText));
    }
    resp := Response(200, DeletedNotice(DeletedText, messageId));
  }

  // ---------------------------------------------------------------------------
  // Properties

  /** A missing receiver or content answers 400 and inserts nothing; otherwise nothing answers 400. */
  lemma SendMessageValidates(db: Db, user: UserId, receiver: Option<UserId>, content: Option<string>, fault: Fault, now: Time)
    requires DbInv(db)
    ensures var (db', resp) := SendMessageStep(db, user, receiver, content, fault, now);
      && (resp.status == 400 <==> MissingFields(receiver, content))
      && (resp.status != 201 ==> db' == db)
  {
  }

  /**
   * A successful send inserts exactly one row, sent by the authenticated user,
   * with the request's receiver and content, and answers 201 with that row.
   */
  lemma SendMessageInsertsOne(db: Db, user: UserId, receiver: Option<UserId>, content: Option<string>, now: Time)
    requires DbInv(db) && !MissingFields(receiver, content)
    ensures var (db', resp) := SendMessageStep(db, user, receiver, content, Healthy, now);
      && resp.status == 201 && resp.body.CreatedRow?
      && var row := resp.body.row;
      && row.id !in db.rows && db' == db.(rows := db.rows[row.id := row.msg], nextId := db.nextId + 1)
      && |db'.rows| == |db.rows| + 1
      && row.msg.sender == user && row.msg.receiver == receiver && row.msg.content == content
      && row.msg.replyTo.None? && !row.msg.isDeleted && !row.msg.isEdited && !row.msg.isRead
  {
  }

  /**
   * An ownership failure answers 403 and leaves the table as it was; a success
   * tombstones the user's own row, echoes the requested id, and nothing else
   * answers 200.
   */
  lemma DeleteMessageOwnership(db: Db, user: UserId, messageId: MsgId)
    ensures var (db', resp) := DeleteMessageStep(db, user, messageId, Healthy);
      && (resp.status == 403 <==> !Owns(db.rows, Some(messageId), user))
      && (resp.status == 403 ==> db' == db)
      && (resp.status == 200 <==> Owns(db.rows, Some(messageId), user))
      && (resp.status == 200 ==>
            && resp.body == DeletedNotice(DeletedText, messageId)
            && db'.rows == db.rows[messageId := Tombstone(db.rows[messageId])]
            && db'.nextId == db.nextId && db'.usernames == db.usernames && db'.lastSeen == db.lastSeen)
  {
  }

  /** The REST delete and the live `delete_message` write the same table. */
  lemma RestAndLiveDeleteAgree(s: Relay.RelayState, c: ConnId, messageId: MsgId, receiver: Option<UserId>)
    requires c in s.conns && Authenticated(s.conns[c])
    ensures DeleteMessageStep(s.db, s.conns[c].userId.value, messageId, Healthy).0
         == Relay.DeleteStep(s, c, Some(messageId), receiver, Healthy).0.db
  {
  }

  /**
   * `getMessages` answers 200 with exactly the two users' messages in either
   * direction, each once and oldest first, or 500 when the query fails.
   */
  lemma GetMessagesConversation(db: Db, user: UserId, other: UserId, fault: Fault)
    requires DbInv(db)
    ensures var resp := GetMessages(db, user, other, fault);
      && (resp.status == 500 <==> Fails(fault, 0))
      && (!Fails(fault, 0) ==> resp == Response(200, HistoryRows(History(db, user, other))))
      && (resp.status == 200 ==>
            && resp.body.HistoryRows?
            && var h := resp.body.rows;
            && (forall k :: 0 <= k < |h| ==> h[k].id in db.rows && Between(db.rows[h[k].id], user, other))
            && (forall id :: id in db.rows && Between(db.rows[id], user, other) ==> exists k :: 0 <= k < |h| && h[k].id == id)
            && (forall i, j :: 0 <= i < j < |h| ==> h[i].id != h[j].id && h[i].createdAt <= h[j].createdAt))
  {
    HistoryMembers(db, user, other);
    HistoryOrder(db, user, other);
  }
}
