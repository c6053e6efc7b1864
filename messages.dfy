/**
 * The `messages` and `users` tables the relay and the REST controller write,
 * and the conditional updates they issue against them.
 */
module Messages {
  import opened Wrappers

  type UserId = int
  type MsgId = int
  /** A clock reading (`NOW()`, `new Date()`), only compared for order. */
  type Time = int

  /** The text ("Message deleted") that a deletion writes over a message's content. */
  const DeletedText: string := "Сообщение удалено"
  const TextType: string := "text"

  /** A `messages` row without its id. Absent JSON fields are stored as NULL (`None`). */
  datatype Message = Message(
    sender: UserId,
    receiver: Option<UserId>,
    content: Option<string>,
    msgType: string,
    createdAt: Time,
    isRead: bool,
    isEdited: bool,
    isDeleted: bool,
    replyTo: Option<MsgId>)

  /** A row as `RETURNING *` gives it back. */
  datatype Row = Row(id: MsgId, msg: Message)

  type Table = map<MsgId, Message>

  /**
   * The store's state: the message table with its id sequence, and the two
   * columns of `users` the core touches (`username`, read by reply look-ups;
   * `last_seen`, written on disconnect).
   */
  datatype Db = Db(rows: Table, nextId: MsgId, usernames: map<UserId, string>, lastSeen: map<UserId, Time>)

  /** Ids are handed out by a serial sequence that starts at 1. */
  predicate DbInv(db: Db)
  {
    db.nextId >= 1 && forall id :: id in db.rows ==> 1 <= id < db.nextId
  }

  /** A freshly inserted row: not read, not edited, not deleted. */
  function FreshMessage(sender: UserId, receiver: Option<UserId>, content: Option<string>, msgType: string,
                      replyTo: Option<MsgId>, now: Time): Message
  {
    Message(sender, receiver, content, msgType, now, false, false, false, replyTo)
  }

  /** `INSERT ... RETURNING *`: the row gets the next id of the sequence. */
  function Insert(db: Db, m: Message): (r: (Db, Row))
    requires DbInv(db)
    ensures DbInv(r.0)
    ensures r.1.id !in db.rows && r.0.rows == db.rows[r.1.id := m] && r.1.msg == m
    ensures r.0.rows.Keys == db.rows.Keys + {r.1.id} && |r.0.rows| == |db.rows| + 1
    ensures r.0.usernames == db.usernames && r.0.lastSeen == db.lastSeen
  {
    var id := db.nextId;
    (db.(rows := db.rows[id := m], nextId := id + 1), Row(id, m))
  }

  /** `WHERE id = $1 AND sender_id = $2`: the row exists and the given user sent it. */
  predicate Owns(t: Table, id: Option<MsgId>, sender: UserId)
  {
    id.Some? && id.value in t && t[id.value].sender == sender
  }

  /** The tombstone: the content is overwritten, the row is flagged deleted and its type reset to text. */
  function Tombstone(m: Message): Message
  {
    m.(content := Some(DeletedText), isDeleted := true, msgType := TextType)
  }

  /**
   * `UPDATE messages SET is_deleted = TRUE, content = 'Сообщение удалено', type = 'text'
   * WHERE id = $1 AND sender_id = $2`: the new table and the row count.
   */
  function DeleteOwned(t: Table, id: Option<MsgId>, sender: UserId): (r: (Table, nat))
    ensures r.1 == 1 <==> Owns(t, id, sender)
    ensures r.1 == 0 <==> !Owns(t, id, sender)
    ensures r.0.Keys == t.Keys
    ensures forall i :: i in t && r.0[i] != t[i] ==> Owns(t, Some(i), sender) && id == Some(i)
    ensures Owns(t, id, sender) ==> var m := r.0[id.value];
      m.content == Some(DeletedText) && m.isDeleted && m.msgType == TextType
      && m.(content := t[id.value].content, isDeleted := t[id.value].isDeleted, msgType := t[id.value].msgType) == t[id.value]
  {
    if Owns(t, id, sender) then (t[id.value := Tombstone(t[id.value])], 1) else (t, 0)
  }

  /**
   * `UPDATE messages SET content = $1, is_edited = TRUE WHERE id = $2 AND sender_id = $3
   * RETURNING *`: the new table, the row count and the updated row. The condition does not look at `is_deleted`.
   */
  function EditOwned(t: Table, id: Option<MsgId>, sender: UserId, content: Option<string>): (r: (Table, nat, Option<Row>))
    ensures r.1 == 1 <==> Owns(t, id, sender)
    ensures r.1 == 0 <==> !Owns(t, id, sender)
    ensures r.0.Keys == t.Keys
    ensures forall i :: i in t && r.0[i] != t[i] ==> Owns(t, Some(i), sender) && id == Some(i)
    ensures Owns(t, id, sender) ==> var m := r.0[id.value];
      m.content == content && m.isEdited && m.isDeleted == t[id.value].isDeleted
      && m.(content := t[id.value].content, isEdited := t[id.value].isEdited) == t[id.value]
      && r.2 == Some(Row(id.value, m))
    ensures !Owns(t, id, sender) ==> r.2 == None
  {
    if Owns(t, id, sender) then
      var m := t[id.value].(content := content, isEdited := true);
      (t[id.value := m], 1, Some(Row(id.value, m)))
    else (t, 0, None)
  }

  /** `receiver_id = $1 AND sender_id = $2 AND is_read = FALSE`. */
  predicate UnreadFrom(m: Message, reader: UserId, partner: Option<UserId>)
  {
    m.receiver == Some(reader) && partner == Some(m.sender) && !m.isRead
  }

  /** `UPDATE messages SET is_read = TRUE WHERE receiver_id = $1 AND sender_id = $2 AND is_read = FALSE`. */
  function MarkRead(t: Table, reader: UserId, partner: Option<UserId>): (r: Table)
    ensures r.Keys == t.Keys
    ensures forall i :: i in t ==> r[i].isRead == (t[i].isRead || UnreadFrom(t[i], reader, partner))
    ensures forall i :: i in t ==> r[i].(isRead := t[i].isRead) == t[i]
  {
    map i | i in t :: if UnreadFrom(t[i], reader, partner) then t[i].(isRead := true) else t[i]
  }

  /** `reply_to_content` and `reply_to_username` added to a new message that replies to another. */
  datatype ReplyInfo = ReplyInfo(content: Option<string>, username: string)

  /**
   * `SELECT m.content, u.username FROM messages m JOIN users u ON m.sender_id = u.id WHERE m.id = $1`:
   * found only when the message exists and its author is a user.
   */
  function ReplyLookup(db: Db, id: MsgId): Option<ReplyInfo>
  {
    if id in db.rows && db.rows[id].sender in db.usernames
    then Some(ReplyInfo(db.rows[id].content, db.usernames[db.rows[id].sender]))
    else None
  }

  /** `UPDATE users SET last_seen = NOW() WHERE id = $1`: only an existing user row is touched. */
  function TouchLastSeen(db: Db, u: UserId, now: Time): (r: Db)
    ensures r.rows == db.rows && r.nextId == db.nextId && r.usernames == db.usernames
    ensures u in db.usernames ==> r.lastSeen == db.lastSeen[u := now]
    ensures u !in db.usernames ==> r.lastSeen == db.lastSeen
  {
    if u in db.usernames then db.(lastSeen := db.lastSeen[u := now]) else db
  }

  // ---------------------------------------------------------------------------
  // Properties of the updates

  /** The delete is a terminal overwrite: after an owner's edit, deleting leaves the same row whatever the edit wrote. */
  lemma EditThenDelete(t: Table, id: MsgId, owner: UserId, c1: Option<string>, c2: Option<string>)
    requires Owns(t, Some(id), owner)
    ensures var after1 := DeleteOwned(EditOwned(t, Some(id), owner, c1).0, Some(id), owner).0;
            var after2 := DeleteOwned(EditOwned(t, Some(id), owner, c2).0, Some(id), owner).0;
            after1 == after2 && after1[id].isDeleted && after1[id].content == Some(DeletedText)
  {
    var e1 := EditOwned(t, Some(id), owner, c1).0;
    var e2 := EditOwned(t, Some(id), owner, c2).0;
    assert Owns(e1, Some(id), owner) && Owns(e2, Some(id), owner);
    assert Tombstone(e1[id]) == Tombstone(e2[id]);
    assert e1[id := Tombstone(e1[id])] == e2[id := Tombstone(e2[id])];
  }

  /** Editing a deleted message keeps its deleted flag while replacing the tombstone text. */
  lemma EditAfterDelete(t: Table, id: MsgId, owner: UserId, c: Option<string>)
    requires Owns(t, Some(id), owner)
    ensures var r := EditOwned(DeleteOwned(t, Some(id), owner).0, Some(id), owner, c);
            r.1 == 1 && r.0[id].isDeleted && r.0[id].isEdited && r.0[id].content == c
  {
    var d := DeleteOwned(t, Some(id), owner).0;
    assert d[id].sender == t[id].sender;
  }

  /** Deleting twice leaves the table as deleting once, and the second delete still reports a row. */
  lemma DeleteIdempotent(t: Table, id: Option<MsgId>, sender: UserId)
    ensures var once := DeleteOwned(t, id, sender);
            var twice := DeleteOwned(once.0, id, sender);
            twice.0 == once.0 && twice.1 == once.1
  {
    if Owns(t, id, sender) {
      var d := DeleteOwned(t, id, sender).0;
      assert d[id.value].sender == sender;
      assert Tombstone(Tombstone(t[id.value])) == Tombstone(t[id.value]);
    }
  }

  /** After `messages_read` nothing the partner sent to the reader is left unread, and repeating it changes nothing. */
  lemma MarkReadComplete(t: Table, reader: UserId, partner: Option<UserId>)
    ensures forall i :: i in MarkRead(t, reader, partner) ==> !UnreadFrom(MarkRead(t, reader, partner)[i], reader, partner)
    ensures MarkRead(MarkRead(t, reader, partner), reader, partner) == MarkRead(t, reader, partner)
  {
    var r := MarkRead(t, reader, partner);
    var r2 := MarkRead(r, reader, partner);
    forall i | i in r ensures r2[i] == r[i] {
      assert !UnreadFrom(r[i], reader, partner);
    }
  }
}
