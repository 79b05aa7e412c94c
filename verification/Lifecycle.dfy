/** The life of connections in a worker: tree, timeout queue, counters and deferred freeing. */
module Lifecycle {
  import opened RbShape

  /** struct mk_sched_conn, apart from its place in the tree */
  datatype Conn = Conn(arrive: int, timeoutOn: bool, idle: bool, closed: bool)

  /** struct mk_sched_worker: the tree in order, the connections in memory, and the two queues. */
  datatype Sched = Sched(order: seq<Node>, conns: map<Node, Conn>, queue: seq<Node>, freeQueue: seq<Node>,
                         accepted: nat, closed: nat, freed: seq<Node>)

  ghost predicate NoDup(s: seq<Node>) {
    s == [] || (s[0] !in Elements(s[1..]) && NoDup(s[1..]))
  }

  /** mk_list_del */
  function Without(s: seq<Node>, n: Node): seq<Node> {
    if s == [] then [] else if s[0] == n then s[1..] else [s[0]] + Without(s[1..], n)
  }

  /**
   * Accepted minus closed connections are in the tree; the timeout queue has exactly those with
   * the flag; a connection is in memory as long as it is in the tree or waits to be freed, and
   * never both; and nothing that was freed is in any of them.
   */
  ghost predicate Inv(s: Sched) {
    && NoDup(s.order) && NoDup(s.queue) && NoDup(s.freeQueue) && NoDup(s.freed)
    && s.accepted == s.closed + |s.order|
    && s.conns.Keys == Elements(s.order) + Elements(s.freeQueue) && Elements(s.order) !! Elements(s.freeQueue)
    && s.conns.Keys !! Elements(s.freed)
    && Elements(s.queue) <= Elements(s.order)
    && (forall n :: n in s.conns ==> Flags(s.conns[n], n in Elements(s.freeQueue), n in Elements(s.queue)))
  }

  predicate Flags(c: Conn, leaving: bool, queued: bool) {
    c.idle == leaving && c.closed == leaving && c.timeoutOn == queued
  }

  const START := Sched([], map[], [], [], 0, 0, [])

  // ------------------------------------------------------- the operations

  /** mk_sched_conn_timeout_add */
  function TimeoutAdd(s: Sched, n: Node): Sched
    requires n in s.conns
  {
    if s.conns[n].timeoutOn then s
    else s.(queue := s.queue + [n], conns := s.conns[n := s.conns[n].(timeoutOn := true)])
  }

  /** mk_sched_conn_timeout_del */
  function TimeoutDel(s: Sched, n: Node): Sched
    requires n in s.conns
  {
    if s.conns[n].timeoutOn then
      s.(queue := Without(s.queue, n), conns := s.conns[n := s.conns[n].(timeoutOn := false)])
    else s
  }

  /** mk_sched_event_free */
  function EventFree(s: Sched, n: Node): Sched
    requires n in s.conns
  {
    if s.conns[n].idle then s
    else s.(conns := s.conns[n := s.conns[n].(idle := true)], freeQueue := s.freeQueue + [n])
  }

  /** mk_sched_remove_client */
  function RemoveClient(s: Sched, n: Node): Sched
    requires n in s.conns
  {
    var a := s.(closed := s.closed + 1, order := Without(s.order, n));
    var b := EventFree(TimeoutDel(a, n), n);
    b.(conns := b.conns[n := b.conns[n].(closed := true)])
  }

  /** The connection in the tree, with its timeout running, counted if its events could be registered. */
  function Accepted(s: Sched, n: Node, k: nat, now: int, registered: bool): Sched
    requires k <= |s.order|
  {
    var a := s.(order := s.order[..k] + [n] + s.order[k..], conns := s.conns[n := Conn(now, false, false, false)]);
    var b := TimeoutAdd(a, n);
    if registered then b.(accepted := b.accepted + 1) else b
  }

  /** mk_sched_event_free_all */
  ghost function FreeAll(s: Sched): Sched {
    s.(conns := s.conns - Elements(s.freeQueue), freed := s.freed + s.freeQueue, freeQueue := [])
  }

  /** The value of a sum in an int of 32 bits. */
  function Int32(n: int): int {
    (n + 0x8000_0000) % 0x1_0000_0000 - 0x8000_0000
  }

  predicate Expired(c: Conn, timeout: int, now: int) {
    Int32(c.arrive + timeout) <= now
  }

  /** Until the end of the 32-bit clock this is what it should be; afterwards everything expires at once. */
  lemma {:induction false} ExpiredMeans(c: Conn, timeout: int, now: int)
    requires timeout >= 0 && 0 <= c.arrive <= now && c.arrive + timeout < 0x1_0000_0000
    ensures Expired(c, timeout, now) <==> c.arrive + timeout <= now || c.arrive + timeout >= 0x8000_0000
  {
  }

  /** mk_sched_check_timeouts, over the entries `todo` of the timeout queue */
  ghost function Sweep(s: Sched, todo: seq<Node>, timeout: int, now: int): Sched
    requires Elements(todo) <= s.conns.Keys
    decreases todo
  {
    if todo == [] then s
    else
      var n := todo[0];
      var t := if !s.conns[n].idle && Expired(s.conns[n], timeout, now) then RemoveClient(s, n) else s;
      RemoveConns(s, n);
      Sweep(t, todo[1..], timeout, now)
  }

  lemma {:induction false} RemoveConns(s: Sched, n: Node)
    requires n in s.conns
    ensures RemoveClient(s, n).conns.Keys == s.conns.Keys
  {
  }

  // -------------------------------------------------------- lists

  lemma {:induction false} WithoutIs(s: seq<Node>, n: Node)
    requires NoDup(s)
    ensures NoDup(Without(s, n)) && Elements(Without(s, n)) == Elements(s) - {n}
    ensures |Without(s, n)| == |s| - if n in Elements(s) then 1 else 0
  {
    if s != [] {
      WithoutIs(s[1..], n);
    }
  }

  lemma {:induction false} NoDupJoin(s: seq<Node>, u: seq<Node>)
    requires NoDup(s) && NoDup(u) && Elements(s) !! Elements(u)
    ensures NoDup(s + u) && Elements(s + u) == Elements(s) + Elements(u)
  {
    if s == [] {
      assert s + u == u;
    } else {
      assert (s + u)[1..] == s[1..] + u;
      NoDupJoin(s[1..], u);
    }
  }

  lemma {:induction false} NoDupAdd(s: seq<Node>, n: Node)
    requires NoDup(s) && n !in Elements(s)
    ensures NoDup(s + [n]) && Elements(s + [n]) == Elements(s) + {n}
  {
    assert [n][1..] == [];
    NoDupJoin(s, [n]);
  }

  lemma {:induction false} NoDupInsert(s: seq<Node>, n: Node, k: nat)
    requires NoDup(s) && n !in Elements(s) && k <= |s|
    ensures NoDup(s[..k] + [n] + s[k..]) && Elements(s[..k] + [n] + s[k..]) == Elements(s) + {n}
    decreases k
  {
    var u := s[..k] + [n] + s[k..];
    if k == 0 {
      assert u[1..] == s;
    } else {
      InsertTail(s, n, k);
      NoDupInsert(s[1..], n, k - 1);
    }
  }

  lemma {:induction false} InsertTail(s: seq<Node>, n: Node, k: nat)
    requires 0 < k <= |s|
    ensures var u := s[..k] + [n] + s[k..]; u[0] == s[0] && u[1..] == s[1..][..k - 1] + [n] + s[1..][k - 1..]
  {
  }

  // ------------------------------------------------- what every step keeps

  lemma {:induction false} StartsFine()
    ensures Inv(START)
  {
  }

  lemma {:induction false} TimeoutAddKeeps(s: Sched, n: Node)
    requires Inv(s) && n in Elements(s.order)
    ensures Inv(TimeoutAdd(s, n))
  {
    if !s.conns[n].timeoutOn {
      NoDupAdd(s.queue, n);
    }
  }

  lemma {:induction false} TimeoutDelKeeps(s: Sched, n: Node)
    requires Inv(s) && n in Elements(s.order)
    ensures Inv(TimeoutDel(s, n))
  {
    WithoutIs(s.queue, n);
  }

  /** Starting and stopping a timeout changes the queue by exactly this connection, and nothing but queue and flag. */
  lemma {:induction false} TimeoutsMean(s: Sched, n: Node)
    requires Inv(s) && n in Elements(s.order)
    ensures var t := TimeoutAdd(s, n);
      && Elements(t.queue) == Elements(s.queue) + {n} && NoDup(t.queue)
      && t == s.(queue := t.queue, conns := s.conns[n := s.conns[n].(timeoutOn := true)])
    ensures var t := TimeoutDel(s, n);
      && Elements(t.queue) == Elements(s.queue) - {n} && NoDup(t.queue)
      && t == s.(queue := t.queue, conns := s.conns[n := s.conns[n].(timeoutOn := false)])
  {
    hide Without;
    WithoutIs(s.queue, n);
    if n !in Elements(s.queue) {
      NoDupAdd(s.queue, n);
    }
    assert s.conns[n := s.conns[n]] == s.conns;
  }

  /** A connection leaves tree and timeout queue, is counted as closed, and waits to be freed. */
  lemma {:induction false} RemoveKeeps(s: Sched, n: Node)
    requires Inv(s) && n in Elements(s.order)
    ensures var t := RemoveClient(s, n);
      && Inv(t) && t.closed == s.closed + 1 && t.accepted == s.accepted && t.freed == s.freed
      && n !in Elements(t.order) && n !in Elements(t.queue) && n in Elements(t.freeQueue)
      && t.conns == s.conns[n := s.conns[n].(timeoutOn := false, idle := true, closed := true)]
      && t.order == Without(s.order, n)
  {
    hide NoDup, Elements, Without;
    WithoutIs(s.order, n);
    WithoutIs(s.queue, n);
    NoDupAdd(s.freeQueue, n);
    var t := RemoveClient(s, n);
    assert t == Sched(Without(s.order, n), s.conns[n := s.conns[n].(timeoutOn := false, idle := true, closed := true)],
                      if s.conns[n].timeoutOn then Without(s.queue, n) else s.queue, s.freeQueue + [n], s.accepted,
                        s.closed + 1, s.freed);
  }

  /** The new connection is live and on the timeout queue; the count is right exactly if it was registered. */
  lemma {:induction false} AcceptKeeps(s: Sched, n: Node, k: nat, now: int, registered: bool)
    requires Inv(s) && n !in s.conns && n !in Elements(s.freed) && k <= |s.order|
    ensures var t := Accepted(s, n, k, now, registered);
      && (Inv(t) <==> registered)
      && n in Elements(t.order) && n in Elements(t.queue) && t.conns == s.conns[n := Conn(now, true, false, false)]
  {
    hide NoDup, Elements;
    NoDupInsert(s.order, n, k);
    NoDupAdd(s.queue, n);
    assert Accepted(s, n, k, now, registered) ==
      Sched(s.order[..k] + [n] + s.order[k..], s.conns[n := Conn(now, true, false, false)], s.queue + [n], s.freeQueue,
            if registered then s.accepted + 1 else s.accepted, s.closed, s.freed);
  }

  /** Freeing releases each waiting connection, which is then nowhere, and no other. */
  lemma {:induction false} FreeAllKeeps(s: Sched)
    requires Inv(s)
    ensures var t := FreeAll(s);
      && Inv(t) && t.order == s.order && t.queue == s.queue
      && t.conns.Keys == Elements(s.order) && (forall n :: n in t.conns ==> t.conns[n] == s.conns[n])
      && Elements(t.freed) == Elements(s.freed) + Elements(s.freeQueue)
  {
    NoDupJoin(s.freed, s.freeQueue);
  }

  /** The connections of a set whose time is over. */
  ghost function Over(conns: map<Node, Conn>, of: set<Node>, timeout: int, now: int): set<Node> {
    set n | n in of && n in conns && Expired(conns[n], timeout, now)
  }

  lemma {:induction false} SweepStep(s: Sched, todo: seq<Node>, timeout: int, now: int)
    requires Inv(s) && NoDup(todo) && Elements(todo) <= Elements(s.queue) && todo != []
    ensures var n := todo[0]; n in Elements(s.order) && n in s.conns && !s.conns[n].idle
    ensures var n := todo[0]; var t := if Expired(s.conns[n], timeout, now) then RemoveClient(s, n) else s;
      && Inv(t) && NoDup(todo[1..]) && Elements(todo[1..]) <= Elements(t.queue)
      && Over(s.conns, Elements(todo), timeout, now) ==
           Over(t.conns, Elements(todo[1..]), timeout, now) + (if Expired(s.conns[n], timeout, now) then {n} else {})
      && n !in Elements(todo[1..])
  {
    hide Inv;
    var n, rest := todo[0], todo[1..];
    Queued(s, n);
    if Expired(s.conns[n], timeout, now) {
      RemoveKeeps(s, n);
      QueueLeft(s, n);
      var t := RemoveClient(s, n);
      assert Over(t.conns, Elements(rest), timeout, now) == Over(s.conns, Elements(rest), timeout, now);
    }
    assert Elements(todo) == {n} + Elements(rest);
  }

  lemma {:induction false} Queued(s: Sched, n: Node)
    requires Inv(s) && n in Elements(s.queue)
    ensures n in Elements(s.order) && n in s.conns && !s.conns[n].idle
  {
  }

  lemma {:induction false} QueueLeft(s: Sched, n: Node)
    requires Inv(s) && n in Elements(s.order)
    ensures Elements(RemoveClient(s, n).queue) == Elements(s.queue) - {n}
  {
    WithoutIs(s.queue, n);
  }

  /** A sweep drops exactly the connections on the queue whose time is over, and touches no other. */
  lemma {:induction false} SweepDrops(s: Sched, todo: seq<Node>, timeout: int, now: int)
    requires Inv(s) && NoDup(todo) && Elements(todo) <= Elements(s.queue) <= s.conns.Keys
    ensures Elements(todo) <= s.conns.Keys
    ensures var t := Sweep(s, todo, timeout, now); var gone := Over(s.conns, Elements(todo), timeout, now);
      && Inv(t) && Elements(t.order) == Elements(s.order) - gone && t.closed == s.closed + |gone| &&
        t.accepted == s.accepted
      && t.freed == s.freed && t.conns.Keys == s.conns.Keys &&
        (forall n :: n in s.conns && n !in gone ==> t.conns[n] == s.conns[n])
    decreases todo
  {
    hide Inv, NoDup, Elements, Over, RemoveClient;
    if todo == [] {
      NothingOver(s.conns, timeout, now);
    } else {
      SweepStep(s, todo, timeout, now);
      var n := todo[0];
      if Expired(s.conns[n], timeout, now) {
        var t := RemoveClient(s, n);
        RemoveKeeps(s, n);
        OrderLeft(s, n);
        QueueOwned(t);
        RemoveConns(s, n);
        SweepDrops(t, todo[1..], timeout, now);
        OverIn(t.conns, Elements(todo[1..]), timeout, now);
      } else {
        SweepDrops(s, todo[1..], timeout, now);
      }
    }
  }

  lemma {:induction false} NothingOver(conns: map<Node, Conn>, timeout: int, now: int)
    ensures Over(conns, Elements([]), timeout, now) == {} && Elements([]) == {}
  {
  }

  lemma {:induction false} OverIn(conns: map<Node, Conn>, of: set<Node>, timeout: int, now: int)
    ensures Over(conns, of, timeout, now) <= of
  {
  }

  lemma {:induction false} OrderLeft(s: Sched, n: Node)
    requires Inv(s) && n in Elements(s.order)
    ensures Elements(RemoveClient(s, n).order) == Elements(s.order) - {n}
  {
    WithoutIs(s.order, n);
  }

  lemma {:induction false} QueueOwned(s: Sched)
    requires Inv(s)
    ensures Elements(s.queue) <= s.conns.Keys
  {
  }

  // ------------------------------------------------------------ whole runs

  /** What can happen to a worker. */
  datatype Event =
    | Accept(n: Node, k: nat, now: int)
    | Close(n: Node)
    | TimeoutOn(n: Node)
    | TimeoutOff(n: Node)
    | Timeouts(timeout: int, now: int)
    | Release

  /**
   * A new connection is a new object; the event loop and the plugins reach a connection only
   * while it is in memory, and the handlers change its timeout only while it is live.
   */
  ghost predicate Enabled(s: Sched, e: Event) {
    match e
    case Accept(n, k, _) => n !in s.conns && n !in Elements(s.freed) && k <= |s.order|
    case Close(n) => n in s.conns
    case TimeoutOn(n) => n in Elements(s.order) && n in s.conns
    case TimeoutOff(n) => n in Elements(s.order) && n in s.conns
    case Timeouts(_, _) => Elements(s.queue) <= s.conns.Keys
    case Release => true
  }

  ghost function Step(s: Sched, e: Event): Sched
    requires Enabled(s, e)
  {
    match e
    case Accept(n, k, now) => Accepted(s, n, k, now, true)
    case Close(n) => if s.conns[n].idle || s.conns[n].closed then s else RemoveClient(s, n)
    case TimeoutOn(n) => TimeoutAdd(s, n)
    case TimeoutOff(n) => TimeoutDel(s, n)
    case Timeouts(timeout, now) => Sweep(s, s.queue, timeout, now)
    case Release => FreeAll(s)
  }

  /** The events can happen one after the other. */
  ghost predicate Possible(s: Sched, es: seq<Event>)
    decreases |es|
  {
    es == [] || (Enabled(s, es[0]) && Possible(Step(s, es[0]), es[1..]))
  }

  ghost function Run(s: Sched, es: seq<Event>): Sched
    requires Possible(s, es)
    decreases |es|
  {
    if es == [] then s else Run(Step(s, es[0]), es[1..])
  }

  lemma {:induction false} StepKeeps(s: Sched, e: Event)
    requires Inv(s) && Enabled(s, e)
    ensures var t := Step(s, e);
      && Inv(t) && Elements(s.freed) <= Elements(t.freed) && |s.freed| <= |t.freed| && t.freed[..|s.freed|] == s.freed
      && s.accepted <= t.accepted && s.closed <= t.closed
  {
    hide NoDup, Inv;
    match e
    case Accept(n, k, now) => AcceptKeeps(s, n, k, now, true);
    case Close(n) =>
      if !s.conns[n].idle && !s.conns[n].closed {
        LiveInOrder(s, n);
        RemoveKeeps(s, n);
      }
    case TimeoutOn(n) => TimeoutAddKeeps(s, n);
    case TimeoutOff(n) => TimeoutDelKeeps(s, n);
    case Timeouts(timeout, now) =>
      QueueNoDup(s);
      SweepDrops(s, s.queue, timeout, now);
    case Release =>
      FreeAllKeeps(s);
  }

  lemma {:induction false} LiveInOrder(s: Sched, n: Node)
    requires Inv(s) && n in s.conns && !s.conns[n].idle
    ensures n in Elements(s.order)
  {
  }

  lemma {:induction false} QueueNoDup(s: Sched)
    requires Inv(s)
    ensures NoDup(s.queue)
  {
  }

  /**
   * Over every run from the start: accepted minus closed connections are the tree, the queue is
   * the flag, and no connection is freed twice or before it left tree and queue.
   */
  lemma {:induction false} RunKeeps(s: Sched, es: seq<Event>)
    requires Inv(s) && Possible(s, es)
    ensures Inv(Run(s, es)) && Elements(s.freed) <= Elements(Run(s, es).freed)
    decreases |es|
  {
    hide NoDup, Inv, Enabled, Step;
    if es != [] {
      StepKeeps(s, es[0]);
      RunKeeps(Step(s, es[0]), es[1..]);
    }
  }

  /** What has been freed is never reached again: no event can name it. */
  lemma {:induction false} FreedForever(s: Sched, es: seq<Event>, n: Node)
    requires Inv(s) && Possible(s, es) && n in Elements(s.freed)
    ensures var t := Run(s, es);
      n !in t.conns && n !in Elements(t.order) && n !in Elements(t.queue) && n !in Elements(t.freeQueue) &&
        n in Elements(t.freed)
  {
    RunKeeps(s, es);
  }
}
