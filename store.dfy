/** The backing store as the core uses it: each method is one SQL statement. */
module Store {
  import opened Wrappers
  import opened Messages

  class MessageStore {
    var rows: Table
    var nextId: MsgId
    var usernames: map<UserId, string>
    var lastSeen: map<UserId, Time>

    function Snapshot(): Db
      reads this
    {
      Db(rows, nextId, usernames, lastSeen)
    }

    ghost predicate Valid()
      reads this
    {
      DbInv(Snapshot())
    }

    /** An empty message table over the given users. */
    constructor (usernames: map<UserId, string>)
      ensures Valid() && Snapshot() == Db(map[], 1, usernames, map[])
    {
      rows := map[];
      nextId := 1;
      this.usernames := usernames;
      lastSeen := map[];
    }

    method InsertRow(m: Message) returns (row: Row)
      requires Valid()
      modifies this
      ensures Valid() && (Snapshot(), row) == Insert(old(Snapshot()), m)
    {
      row := Row(nextId, m);
      rows := rows[nextId := m];
      nextId := nextId + 1;
    }

    method UpdateTombstone(id: Option<MsgId>, sender: UserId) returns (rowCount: nat)
      requires Valid()
      modifies this
      ensures Valid() && (rows, rowCount) == DeleteOwned(old(rows), id, sender)
      ensures nextId == old(nextId) && usernames == old(usernames) && lastSeen == old(lastSeen)
    {
      if Owns(rows, id, sender) {
        rows := rows[id.value := Tombstone(rows[id.value])];
        rowCount := 1;
      } else {
        rowCount := 0;
      }
    }

    method UpdateEdit(id: Option<MsgId>, sender: UserId, content: Option<string>) returns (rowCount: nat, row: Option<Row>)
      requires Valid()
      modifies this
      ensures Valid() && (rows, rowCount, row) == EditOwned(old(rows), id, sender, content)
      ensures nextId == old(nextId) && usernames == old(usernames) && lastSeen == old(lastSeen)
    {
      if Owns(rows, id, sender) {
        var m := rows[id.value].(content := content, isEdited := true);
        rows := rows[id.value := m];
        rowCount, row := 1, Some(Row(id.value, m));
      } else {
        rowCount, row := 0, None;
      }
    }

    method MarkReadFrom(reader: UserId, partner: Option<UserId>)
      requires Valid()
      modifies this
      ensures Valid() && rows == MarkRead(old(rows), reader, partner)
      ensures nextId == old(nextId) && usernames == old(usernames) && lastSeen == old(lastSeen)
    {
      rows := MarkRead(rows, reader, partner);
    }

    method TouchUserLastSeen(u: UserId, now: Time)
      requires Valid()
      modifies this
      ensures Valid() && Snapshot() == TouchLastSeen(old(Snapshot()), u, now)
    {
      if u in usernames {
        lastSeen := lastSeen[u := now];
      }
    }

    /** The reply look-up: the replied message's content and its author's name, when both exist. */
    method SelectReply(id: MsgId) returns (r: Option<ReplyInfo>)
      ensures r.Some? <==> id in rows && rows[id].sender in usernames
      ensures r.Some? ==> r.value.content == rows[id].content && r.value.username == usernames[rows[id].sender]
      ensures r == ReplyLookup(Snapshot(), id)
    {
      if id in rows && rows[id].sender in usernames {
        r := Some(ReplyInfo(rows[id].content, usernames[rows[id].sender]));
      } else {
        r := None;
      }
    }
  }
}
