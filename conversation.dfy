/**
 * The conversation query of `getMessages`: every message exchanged between
 * two users, oldest first, with the content and author name of the message
 * each one replies to.
 */
module Conversation {
  import opened Wrappers
  import opened Messages

  /** A result row: the selected columns plus `reply_to_content` and `reply_to_username`. */
  datatype HistoryRow = HistoryRow(
    id: MsgId, sender: UserId, receiver: Option<UserId>, content: Option<string>, msgType: string,
    createdAt: Time, isDeleted: bool, isEdited: bool, isRead: bool,
    replyContent: Option<string>, replyUsername: Option<string>)

  /** `(sender_id = $1 AND receiver_id = $2) OR (sender_id = $2 AND receiver_id = $1)`. */
  predicate Between(m: Message, a: UserId, b: UserId)
  {
    (m.sender == a && m.receiver == Some(b)) || (m.sender == b && m.receiver == Some(a))
  }

  /** The row of message `id`, with the two LEFT JOINs on the replied message and its author. */
  function Project(db: Db, id: MsgId): HistoryRow
    requires id in db.rows
  {
    var m := db.rows[id];
    var replied := if m.replyTo.Some? && m.replyTo.value in db.rows then Some(db.rows[m.replyTo.value]) else None;
    HistoryRow(id, m.sender, m.receiver, m.content, m.msgType, m.createdAt, m.isDeleted, m.isEdited, m.isRead,
               if replied.Some? then replied.value.content else None,
               if replied.Some? && replied.value.sender in db.usernames then Some(db.usernames[replied.value.sender]) else None)
  }

  predicate InTable(t: Table, ids: seq<MsgId>)
  {
    forall k :: 0 <= k < |ids| ==> ids[k] in t
  }

  /** `ORDER BY created_at ASC`; rows with the same timestamp are taken in id order. */
  predicate Before(t: Table, i: MsgId, j: MsgId)
    requires i in t && j in t
  {
    t[i].createdAt < t[j].createdAt || (t[i].createdAt == t[j].createdAt && i < j)
  }

  predicate SortedByTime(t: Table, ids: seq<MsgId>)
    requires InTable(t, ids)
  {
    forall i, j :: 0 <= i < j < |ids| ==> Before(t, ids[i], ids[j])
  }

  /** The ids below `n` of the messages between `a` and `b`, ascending. */
  function MatchingIds(t: Table, a: UserId, b: UserId, n: int): (ids: seq<MsgId>)
    ensures InTable(t, ids)
    ensures forall id :: id in ids <==> 1 <= id < n && id in t && Between(t[id], a, b)
    ensures forall i, j :: 0 <= i < j < |ids| ==> ids[i] < ids[j]
    ensures forall k :: 0 <= k < |ids| ==> ids[k] < n
    decreases n
  {
    if n <= 1 then []
    else
      var init := MatchingIds(t, a, b, n - 1);
      init + (if n - 1 in t && Between(t[n - 1], a, b) then [n - 1] else [])
  }

  /** Inserts `x` before the first id that does not come before it. */
  function InsertByTime(t: Table, x: MsgId, s: seq<MsgId>): (r: seq<MsgId>)
    requires x in t && InTable(t, s)
    ensures InTable(t, r) && multiset(r) == multiset(s) + multiset{x}
  {
    if s == [] then [x]
    else if Before(t, x, s[0]) then [x] + s
    else
      assert s == [s[0]] + s[1..];
      [s[0]] + InsertByTime(t, x, s[1..])
  }

  function SortByTime(t: Table, s: seq<MsgId>): (r: seq<MsgId>)
    requires InTable(t, s)
    ensures InTable(t, r) && multiset(r) == multiset(s)
  {
    if s == [] then []
    else
      assert s == [s[0]] + s[1..];
      InsertByTime(t, s[0], SortByTime(t, s[1..]))
  }

  lemma {:induction false} InsertKeepsSorted(t: Table, x: MsgId, s: seq<MsgId>)
    requires x in t && InTable(t, s) && SortedByTime(t, s) && x !in s
    ensures SortedByTime(t, InsertByTime(t, x, s))
  {
    if s != [] && !Before(t, x, s[0]) {
      var rest := InsertByTime(t, x, s[1..]);
      InsertKeepsSorted(t, x, s[1..]);
      assert multiset(rest) == multiset(s[1..]) + multiset{x};
      var r := [s[0]] + rest;
      forall j | 1 <= j < |r| ensures Before(t, r[0], r[j]) {
        assert r[j] in multiset(rest);
        if r[j] == x {
          assert x != s[0];
        } else {
          assert r[j] in multiset(s[1..]);
          var k :| 0 <= k < |s[1..]| && s[1..][k] == r[j];
          assert s[k + 1] == r[j];
        }
      }
    }
  }

  lemma {:induction false} SortSorts(t: Table, s: seq<MsgId>)
    requires InTable(t, s) && forall i, j :: 0 <= i < j < |s| ==> s[i] != s[j]
    ensures SortedByTime(t, SortByTime(t, s))
  {
    if s != [] {
      SortSorts(t, s[1..]);
      var sorted := SortByTime(t, s[1..]);
      forall k | 0 <= k < |s[1..]| ensures s[1..][k] != s[0] {
        assert s[1..][k] == s[k + 1];
      }
      assert s[0] !in multiset(s[1..]);
      InsertKeepsSorted(t, s[0], sorted);
    }
  }

  /** The result of the conversation query between `me` and `other`. */
  function History(db: Db, me: UserId, other: UserId): seq<HistoryRow>
  {
    var ids := HistoryIds(db, me, other);
    seq(|ids|, k requires 0 <= k < |ids| => Project(db, ids[k]))
  }

  /** The ids behind the result, in the query's order. */
  function HistoryIds(db: Db, me: UserId, other: UserId): (ids: seq<MsgId>)
    ensures InTable(db.rows, ids)
  {
    SortByTime(db.rows, MatchingIds(db.rows, me, other, db.nextId))
  }

  /** The sorted ids are exactly the ids of the messages between the two users. */
  lemma HistoryIdsMatch(db: Db, me: UserId, other: UserId)
    requires DbInv(db)
    ensures var ids := HistoryIds(db, me, other);
      forall id :: id in ids <==> id in db.rows && Between(db.rows[id], me, other)
  {
    var matching := MatchingIds(db.rows, me, other, db.nextId);
    var ids := HistoryIds(db, me, other);
    assert multiset(ids) == multiset(matching);
    forall id ensures id in ids <==> id in matching {
      assert id in ids <==> id in multiset(ids);
      assert id in matching <==> id in multiset(matching);
    }
  }

  /** The query returns exactly the messages exchanged between the two users, in either direction. */
  lemma HistoryMembers(db: Db, me: UserId, other: UserId)
    requires DbInv(db)
    ensures var h := History(db, me, other);
      && (forall k :: 0 <= k < |h| ==> h[k].id in db.rows && h[k] == Project(db, h[k].id) && Between(db.rows[h[k].id], me, other))
      && (forall id :: id in db.rows && Between(db.rows[id], me, other) ==> exists k :: 0 <= k < |h| && h[k].id == id)
  {
    var ids := HistoryIds(db, me, other);
    var h := History(db, me, other);
    HistoryIdsMatch(db, me, other);
    forall k | 0 <= k < |h| ensures h[k].id == ids[k] && Between(db.rows[ids[k]], me, other) {
      assert ids[k] in ids;
    }
    forall id | id in db.rows && Between(db.rows[id], me, other) ensures exists k :: 0 <= k < |h| && h[k].id == id {
      var k :| 0 <= k < |ids| && ids[k] == id;
      assert h[k].id == id;
    }
  }

  /** Each message appears once, oldest first; messages with the same timestamp come in id order. */
  lemma HistoryOrder(db: Db, me: UserId, other: UserId)
    ensures var h := History(db, me, other);
      && (forall i, j :: 0 <= i < j < |h| ==> h[i].id != h[j].id)
      && (forall i, j :: 0 <= i < j < |h| ==> h[i].createdAt <= h[j].createdAt)
      && (forall i, j :: 0 <= i < j < |h| && h[i].createdAt == h[j].createdAt ==> h[i].id < h[j].id)
  {
    var matching := MatchingIds(db.rows, me, other, db.nextId);
    SortSorts(db.rows, matching);
    var ids := HistoryIds(db, me, other);
    var h := History(db, me, other);
    forall i, j | 0 <= i < j < |h| ensures h[i].id != h[j].id && h[i].createdAt <= h[j].createdAt {
      assert Before(db.rows, ids[i], ids[j]);
    }
  }

  /**
   * The reply columns are null for a message that replies to nothing or to a
   * missing message, and otherwise come from the replied message and its
   * author, the name being null when the author is not a user.
   */
  lemma HistoryReplies(db: Db, me: UserId, other: UserId, k: nat)
    requires DbInv(db) && k < |History(db, me, other)|
    ensures History(db, me, other)[k].id in db.rows
    ensures var row := History(db, me, other)[k];
      var m := db.rows[row.id];
      && (m.replyTo.None? || m.replyTo.value !in db.rows ==> row.replyContent.None? && row.replyUsername.None?)
      && (m.replyTo.Some? && m.replyTo.value in db.rows ==>
            var r := db.rows[m.replyTo.value];
            && row.replyContent == r.content
            && row.replyUsername == (if r.sender in db.usernames then Some(db.usernames[r.sender]) else None))
  {
    HistoryMembers(db, me, other);
  }
}
