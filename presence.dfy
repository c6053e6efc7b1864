/**
 * The `clients` registry and the presence broadcast
 * `clients.forEach(client => { if (client.readyState === OPEN) client.send(...) })`.
 */
module Presence {
  import opened Wrappers
  import opened Messages
  import opened Protocol
  import OrderedMap

  /** `clients`: user id to connection, in insertion order. */
  type Registry = OrderedMap.Entries<UserId, ConnId>
  type Conns = map<ConnId, Conn>

  predicate IsOpen(conns: Conns, c: ConnId)
  {
    c in conns && conns[c].open
  }

  /** `if (ws && ws.readyState === OPEN) ws.send(ev)`. */
  function SendIfOpen(conns: Conns, c: ConnId, ev: OutEvent): seq<Delivery>
  {
    if IsOpen(conns, c) then [Delivery(c, ev)] else []
  }

  /** The connection `clients.get(id)` finds, when it is open. */
  predicate ReachesOpen(reg: Registry, conns: Conns, id: Option<UserId>, c: ConnId)
  {
    id.Some? && OrderedMap.Get(reg, id.value) == Some(c) && IsOpen(conns, c)
  }

  /**
   * `const w = clients.get(id); if (w && w.readyState === OPEN) w.send(ev)`:
   * the event goes to the target's connection exactly when it is registered
   * and open, and nowhere else.
   */
  function SendToUser(reg: Registry, conns: Conns, id: Option<UserId>, ev: OutEvent): (ds: seq<Delivery>)
    ensures forall c :: ReachesOpen(reg, conns, id, c) ==> ds == [Delivery(c, ev)]
    ensures (forall c :: !ReachesOpen(reg, conns, id, c)) ==> ds == []
    ensures |ds| <= 1
    ensures forall d :: d in ds ==> d.event == ev && IsOpen(conns, d.conn) && id.Some? && (id.value, d.conn) in reg
  {
    if id.None? then []
    else match OrderedMap.Get(reg, id.value)
      case None => []
      case Some(c) => SendIfOpen(conns, c, ev)
  }

  /** The sends of one `clients.forEach` broadcast of `ev`, in iteration order. */
  function Fanout(reg: Registry, conns: Conns, ev: OutEvent): seq<Delivery>
  {
    if reg == [] then []
    else Fanout(reg[..|reg| - 1], conns, ev) + SendIfOpen(conns, reg[|reg| - 1].1, ev)
  }

  /** How many of the deliveries go to connection `c`. */
  function CountTo(ds: seq<Delivery>, c: ConnId): nat
  {
    if ds == [] then 0 else (if ds[0].conn == c then 1 else 0) + CountTo(ds[1..], c)
  }

  /** How many registry entries point at connection `c`. */
  function EntriesFor(reg: Registry, c: ConnId): nat
  {
    if reg == [] then 0 else EntriesFor(reg[..|reg| - 1], c) + (if reg[|reg| - 1].1 == c then 1 else 0)
  }

  /** Some registry entry points at connection `c`. */
  predicate Registered(reg: Registry, c: ConnId)
  {
    exists i :: 0 <= i < |reg| && reg[i].1 == c
  }

  /** No connection is registered under two user ids. */
  predicate OneUserPerConn(reg: Registry)
  {
    forall i, j :: 0 <= i < j < |reg| ==> reg[i].1 != reg[j].1
  }

  lemma {:induction false} CountConcat(a: seq<Delivery>, b: seq<Delivery>, c: ConnId)
    ensures CountTo(a + b, c) == CountTo(a, c) + CountTo(b, c)
  {
    if a == [] {
      assert a + b == b;
    } else {
      assert (a + b)[1..] == a[1..] + b;
      CountConcat(a[1..], b, c);
    }
  }

  /**
   * A broadcast reaches a connection once per registry entry that points at it
   * when it is open, and never when it is closed.
   */
  lemma {:induction false} FanoutCount(reg: Registry, conns: Conns, ev: OutEvent, c: ConnId)
    ensures CountTo(Fanout(reg, conns, ev), c) == if IsOpen(conns, c) then EntriesFor(reg, c) else 0
  {
    if reg != [] {
      var init := reg[..|reg| - 1];
      FanoutCount(init, conns, ev, c);
      CountConcat(Fanout(init, conns, ev), SendIfOpen(conns, reg[|reg| - 1].1, ev), c);
      var tail := SendIfOpen(conns, reg[|reg| - 1].1, ev);
      if tail != [] { assert tail[1..] == []; }
    }
  }

  /** Every broadcast delivery carries the event and goes to an open registered connection. */
  lemma {:induction false} FanoutTargets(reg: Registry, conns: Conns, ev: OutEvent)
    ensures forall d :: d in Fanout(reg, conns, ev) ==>
      d.event == ev && IsOpen(conns, d.conn) && Registered(reg, d.conn)
  {
    if reg != [] {
      var init := reg[..|reg| - 1];
      FanoutTargets(init, conns, ev);
      forall d | d in Fanout(reg, conns, ev)
        ensures d.event == ev && IsOpen(conns, d.conn) && Registered(reg, d.conn)
      {
        var last := reg[|reg| - 1];
        assert Fanout(reg, conns, ev) == Fanout(init, conns, ev) + SendIfOpen(conns, last.1, ev);
        if d in Fanout(init, conns, ev) {
          var k :| 0 <= k < |init| && init[k].1 == d.conn;
          assert reg[k] == init[k];
        } else {
          assert d == Delivery(last.1, ev);
          assert reg[|reg| - 1].1 == d.conn;
        }
      }
    }
  }

  lemma {:induction false} EntriesForAtMostOne(reg: Registry, c: ConnId)
    requires OneUserPerConn(reg)
    ensures EntriesFor(reg, c) <= 1
    ensures EntriesFor(reg, c) == 1 <==> Registered(reg, c)
  {
    if reg != [] {
      var init := reg[..|reg| - 1];
      assert OneUserPerConn(init);
      EntriesForAtMostOne(init, c);
      if reg[|reg| - 1].1 == c {
        forall i | 0 <= i < |init| ensures init[i].1 != c {
          assert reg[i] == init[i];
        }
      } else {
        forall i | 0 <= i < |reg| && reg[i].1 == c ensures i < |init| && init[i].1 == c { }
      }
    }
  }

  /**
   * When no connection is registered twice, a broadcast reaches each open
   * registered connection exactly once, and nothing else.
   */
  lemma FanoutExactlyOnce(reg: Registry, conns: Conns, ev: OutEvent, c: ConnId)
    requires OneUserPerConn(reg)
    ensures CountTo(Fanout(reg, conns, ev), c) == 1 <==> IsOpen(conns, c) && Registered(reg, c)
    ensures CountTo(Fanout(reg, conns, ev), c) <= 1
  {
    FanoutCount(reg, conns, ev, c);
    EntriesForAtMostOne(reg, c);
  }
}
