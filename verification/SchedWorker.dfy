/** A worker of the scheduler: its connections live in the red-black tree. */
module SchedWorker {
  import opened RbShape
  import opened RbMemory
  import CT = ConnTree
  import opened Lifecycle

  lemma {:induction false} NotIn(s: seq<Node>, n: Node)
    requires n !in s
    ensures n !in Elements(s)
  {
    if s != [] {
      NotIn(s[1..], n);
    }
  }

  lemma {:induction false} WithoutAt(s: seq<Node>, k: nat)
    requires NoDup(s) && k < |s|
    ensures Without(s, s[k]) == s[..k] + s[k + 1..]
  {
    if k > 0 {
      CT.InElements(s[1..], k - 1);
      WithoutAt(s[1..], k - 1);
      assert s[..k] + s[k + 1..] == [s[0]] + (s[1..][..k - 1] + s[1..][k..]);
    }
  }

  lemma {:induction false} NodesAllocated(t: Tree)
    ensures forall o :: o in Nodes(t) ==> allocated(o)
  {
    if t.Bin? {
      NodesAllocated(t.left);
      NodesAllocated(t.right);
    }
  }

  lemma {:induction false} Contains(s: seq<Node>, n: Node)
    ensures n in Elements(s) <==> n in s
  {
    if s != [] {
      Contains(s[1..], n);
    }
  }

  /** struct mk_sched_worker */
  class Worker {
    const root: Root
    ghost var tree: Tree
    var conns: map<Node, Conn>
    var queue: seq<Node>
    var freeQueue: seq<Node>
    var accepted: nat
    var closed: nat
    ghost var freed: seq<Node>

    ghost function View(): Sched
      reads this
    {
      Sched(Inorder(tree), conns, queue, freeQueue, accepted, closed, freed)
    }

    ghost predicate Valid()
      reads this, root, Nodes(tree)
    {
      CT.Valid(root, tree) && Inv(View())
    }

    constructor ()
      ensures Valid() && View() == START && fresh(root)
    {
      root := new Root();
      tree, conns, queue, freeQueue, accepted, closed, freed := Leaf, map[], [], [], 0, 0, [];
      new;
      StartsFine();
      assert IsRedBlack(Leaf) by { assert RedBlack(Leaf, 0); }
    }

    /** mk_sched_conn_timeout_add */
    method TimeoutAdd(n: Node)
      requires n in conns && CT.Valid(root, tree)
      modifies this`queue, this`conns
      ensures View() == Lifecycle.TimeoutAdd(old(View()), n) && tree == old(tree) && CT.Valid(root, tree)
    {
      if !conns[n].timeoutOn {
        queue := queue + [n];
        conns := conns[n := conns[n].(timeoutOn := true)];
      }
    }

    /** mk_sched_conn_timeout_del */
    method TimeoutDel(n: Node)
      requires n in conns && CT.Valid(root, tree)
      modifies this`queue, this`conns
      ensures View() == Lifecycle.TimeoutDel(old(View()), n) && tree == old(tree) && CT.Valid(root, tree)
    {
      if conns[n].timeoutOn {
        queue := Without(queue, n);
        conns := conns[n := conns[n].(timeoutOn := false)];
      }
    }

    /** mk_sched_event_free */
    method EventFree(n: Node)
      requires n in conns && CT.Valid(root, tree)
      modifies this`conns, this`freeQueue
      ensures View() == Lifecycle.EventFree(old(View()), n) && tree == old(tree) && CT.Valid(root, tree)
    {
      if conns[n].idle {
        return;
      }
      conns := conns[n := conns[n].(idle := true)];
      freeQueue := freeQueue + [n];
    }

    /** rb_erase */
    method Erase(n: Node)
      requires CT.Valid(root, tree) && NoDup(Inorder(tree)) && n in Elements(Inorder(tree))
      modifies this`tree, root, Nodes(tree)
      ensures CT.Valid(root, tree) && Inorder(tree) == Without(old(Inorder(tree)), n) && Nodes(tree) <= old(Nodes(tree))
    {
      hide NoDup, Without, Elements, CT.Sorted, IsRedBlack, At;
      Contains(Inorder(tree), n);
      ghost var t := tree;
      ghost var u := CT.Remove(n, root, t);
      ghost var k :| 0 <= k < |Inorder(t)| && Inorder(t)[k] == n && Inorder(u) == Inorder(t)[..k] + Inorder(t)[k + 1..];
      WithoutAt(Inorder(t), k);
      FewerNodes(t, u, k);
      tree := u;
    }

    /** mk_sched_remove_client, for a connection in the tree */
    method RemoveClient(n: Node)
      requires Valid() && n in Elements(Inorder(tree))
      modifies this, root, Nodes(tree)
      ensures Valid() && View() == Lifecycle.RemoveClient(old(View()), n) && Nodes(tree) <= old(Nodes(tree))
    {
      hide NoDup, Without, Elements, Inv, CT.Valid, Inorder;
      ghost var s := View();
      RemoveKeeps(s, n);
      Known(s, n);
      OrderNoDup(s);
      closed := closed + 1;
      Erase(n);
      TimeoutDel(n);
      EventFree(n);
      conns := conns[n := conns[n].(closed := true)];
    }

    /** The new node takes its place in the tree; false if its descriptor is there already. */
    method Insert(n: Node) returns (ok: bool, ghost k: nat)
      requires CT.Valid(root, tree) && n !in Nodes(tree)
      modifies this`tree, root, Nodes(tree), n
      ensures CT.Valid(root, tree)
      ensures ok <==> forall i :: 0 <= i < |old(Inorder(tree))| ==> old(Inorder(tree))[i].key != n.key
      ensures !ok ==> tree == old(tree)
      ensures ok ==>
        k <= |old(Inorder(tree))| &&
        Inorder(tree) == old(Inorder(tree))[..k] + [n] + old(Inorder(tree))[k..]
    {
      hide CT.Sorted, IsRedBlack, At;
      ghost var t, u := tree, Leaf;
      ok, u := CT.Add(n, root, t);
      k := 0;
      if ok {
        ghost var at :| 0 <= at <= |Inorder(t)| && Inorder(u) == Inorder(t)[..at] + [n] + Inorder(t)[at..];
        k := at;
      }
      tree := u;
    }

    /** The fields of a new connection. */
    method Fill(n: Node, now: int)
      requires CT.Valid(root, tree)
      modifies this`conns
      ensures CT.Valid(root, tree) && conns == old(conns)[n := Conn(now, false, false, false)]
    {
      conns := conns[n := Conn(now, false, false, false)];
    }

    method Count()
      requires CT.Valid(root, tree)
      modifies this`accepted
      ensures CT.Valid(root, tree) && accepted == old(accepted) + 1
    {
      accepted := accepted + 1;
    }

    /** mk_sched_add_connection for an allocated connection; it is counted if its events are `registered`. */
    method Register(n: Node, now: int, registered: bool) returns (ok: bool, ghost k: nat)
      requires Valid() && n !in conns && n !in freed
      modifies this, root, Nodes(tree), n
      ensures ok <==> forall i :: 0 <= i < |old(Inorder(tree))| ==> old(Inorder(tree))[i].key != n.key
      ensures !ok ==> View() == old(View()) && Valid()
      ensures ok ==>
        k <= |old(Inorder(tree))| && View() == Accepted(old(View()), n, k, now, registered) &&
        CT.Valid(root, tree)
    {
      hide Inv, NoDup, Elements, CT.Valid, Inorder;
      ghost var s := View();
      NewNode(s, tree, n);
      ok, k := Insert(n);
      if ok {
        Fill(n, now);
        TimeoutAdd(n);
        if registered {
          Count();
        }
      }
    }

    /**
     * mk_server_listen_handler: the connection is `refused` by a plugin, or its events can be
     * `registered` or not.  If they cannot, it stays in tree and queue without being counted.
     */
    method Accept(fd: int, now: int, refused: bool, registered: bool)
        returns (conn: Node?, ghost n: Node, ghost k: nat, ghost ok: bool)
      requires Valid()
      modifies this, root, Nodes(tree)
      ensures fresh(n) && n.key == fd && conn == if ok && registered then n else null
      ensures ok <==> !refused && forall i :: 0 <= i < |old(Inorder(tree))| ==> old(Inorder(tree))[i].key != fd
      ensures !ok ==> View() == old(View()) && Valid()
      ensures ok ==>
        k <= |old(Inorder(tree))| && View() == Accepted(old(View()), n, k, now, registered) &&
        (Valid() <==> registered)
    {
      hide Inv, NoDup, Elements, CT.Sorted, IsRedBlack, At;
      ghost var s := View();
      NodesAllocated(tree);
      label before:
      var node := new Node(fd);
      assert Snapshot(Nodes(tree)) == old@before(Snapshot(Nodes(tree)));
      n, k, ok, conn := node, 0, false, null;
      if refused {
        return;
      }
      var done;
      done, k := Register(node, now, registered);
      ok := done;
      if done {
        Fresh(s, node);
        AcceptKeeps(s, node, k, now, registered);
        conn := if registered then node else null;
      }
    }

    /** The event loop's guarded close: an event of a connection whose handler failed. */
    method CloseEvent(n: Node)
      requires Valid() && n in conns
      modifies this, root, Nodes(tree)
      ensures Valid() && View() == if n in Elements(old(Inorder(tree))) then Lifecycle.RemoveClient(old(View()), n)
        else old(View())
    {
      hide NoDup, Elements, CT.Valid;
      ghost var s := View();
      InTreeUnlessClosed(s, n);
      if conns[n].idle {
        return;
      }
      if !conns[n].closed {
        RemoveClient(n);
      }
    }

    /** mk_plugin_sched_remove_client: removal by descriptor, -1 if there is none */
    method RemoveByFd(fd: int) returns (ret: int, ghost n: Node?)
      requires Valid()
      modifies this, root, Nodes(tree)
      ensures Valid()
      ensures ret == -1 ==> View() == old(View()) && forall i :: 0 <= i < |old(Inorder(tree))| ==>
        old(Inorder(tree))[i].key != fd
      ensures ret != -1 ==>
        ret == 0 && n != null && n.key == fd && n in old(Inorder(tree)) && n in old(conns) &&
        View() == Lifecycle.RemoveClient(old(View()), n)
    {
      hide NoDup, Elements, Inv;
      var conn := CT.Get(fd, root, tree);
      n := conn;
      if conn == null {
        return -1, n;
      }
      Contains(Inorder(tree), conn);
      Known(View(), conn);
      RemoveClient(conn);
      ret := 0;
    }

    /** mk_sched_check_timeouts */
    method CheckTimeouts(timeout: int, now: int)
      requires Valid()
      modifies this, root, Nodes(tree)
      ensures Valid()
      ensures Elements(old(queue)) <= old(conns).Keys && View() == Sweep(old(View()), old(queue), timeout, now)
    {
      hide NoDup, Elements, Inv, CT.Valid, Lifecycle.RemoveClient, Sweep;
      ghost var s := View();
      QueueFine(s);
      var todo := queue;
      for i := 0 to |todo|
        invariant Valid() && Nodes(tree) <= old(Nodes(tree))
        invariant NoDup(todo[i..]) && Elements(todo[i..]) <= Elements(queue) <= conns.Keys &&
          Elements(todo) <= s.conns.Keys
        invariant Sweep(View(), todo[i..], timeout, now) == Sweep(s, todo, timeout, now)
      {
        var n := todo[i];
        SweepRound(View(), todo, i, timeout, now);
        if !conns[n].idle && Int32(conns[n].arrive + timeout) <= now {
          RemoveClient(n);
        }
        QueueOwned(View());
      }
      SweepNone(View(), todo[|todo|..], timeout, now);
    }

    /** mk_sched_event_free_all */
    method FreeAll()
      requires Valid()
      modifies this`conns, this`freeQueue, this`freed
      ensures Valid() && View() == Lifecycle.FreeAll(old(View()))
    {
      hide NoDup, Inv, CT.Valid, Lifecycle.FreeAll, Inorder;
      ghost var s := View();
      FreeAllKeeps(s);
      while freeQueue != []
        invariant CT.Valid(root, tree) && tree == old(tree)
        invariant Lifecycle.FreeAll(View()) == Lifecycle.FreeAll(s)
        decreases |freeQueue|
      {
        FreeOne(View());
        FreeHead();
      }
      FreeNone(View());
    }

    method FreeHead()
      requires CT.Valid(root, tree) && freeQueue != []
      modifies this`conns, this`freeQueue, this`freed
      ensures CT.Valid(root, tree) && |freeQueue| < |old(freeQueue)|
      ensures View() == old(View()).(conns := old(conns) - {old(freeQueue)[0]},
        freed := old(freed) + [old(freeQueue)[0]], freeQueue := old(freeQueue)[1..])
    {
      var n := freeQueue[0];
      conns, freed, freeQueue := conns - {n}, freed + [n], freeQueue[1..];
    }
  }

  lemma {:induction false} FreeOne(s: Sched)
    requires s.freeQueue != []
    ensures var n := s.freeQueue[0];
      FreeAll(s.(conns := s.conns - {n}, freed := s.freed + [n], freeQueue := s.freeQueue[1..])) == FreeAll(s)
  {
    var n, rest := s.freeQueue[0], s.freeQueue[1..];
    assert (s.conns - {n}) - Elements(rest) == s.conns - Elements(s.freeQueue);
    assert s.freed + [n] + rest == s.freed + s.freeQueue;
  }

  lemma {:induction false} FreeNone(s: Sched)
    requires s.freeQueue == []
    ensures FreeAll(s) == s
  {
    assert s.conns - Elements([]) == s.conns;
  }

  lemma {:induction false} InTreeUnlessClosed(s: Sched, n: Node)
    requires Inv(s) && n in s.conns
    ensures n in Elements(s.order) <==> !s.conns[n].idle
    ensures s.conns[n].closed == s.conns[n].idle
  {
  }

  lemma {:induction false} QueueFine(s: Sched)
    requires Inv(s)
    ensures NoDup(s.queue[0..]) && Elements(s.queue[0..]) <= Elements(s.queue) <= s.conns.Keys &&
      s.queue[0..] == s.queue
  {
  }

  lemma {:induction false} SweepNone(s: Sched, todo: seq<Node>, timeout: int, now: int)
    requires todo == [] && Elements(todo) <= s.conns.Keys
    ensures Sweep(s, todo, timeout, now) == s
  {
  }

  /** One entry of the timeout queue. */
  lemma {:induction false} SweepRound(s: Sched, todo: seq<Node>, i: nat, timeout: int, now: int)
    requires Inv(s) && i < |todo| && NoDup(todo[i..]) && Elements(todo[i..]) <= Elements(s.queue) <= s.conns.Keys
    ensures var n := todo[i]; n in Elements(s.order) && n in s.conns && !s.conns[n].idle
    ensures var n := todo[i]; var t := if Expired(s.conns[n], timeout, now) then RemoveClient(s, n) else s;
      && Inv(t) && NoDup(todo[i + 1..]) && Elements(todo[i + 1..]) <= Elements(t.queue) &&
        Elements(todo[i + 1..]) <= t.conns.Keys
      && Sweep(s, todo[i..], timeout, now) == Sweep(t, todo[i + 1..], timeout, now)
  {
    hide Inv, NoDup, Elements, RemoveClient;
    SweepStep(s, todo[i..], timeout, now);
    assert todo[i..][1..] == todo[i + 1..] && todo[i..][0] == todo[i];
    var t := if Expired(s.conns[todo[i]], timeout, now) then RemoveClient(s, todo[i]) else s;
    QueueOwned(t);
  }

  lemma {:induction false} Fresh(s: Sched, n: Node)
    requires n !in s.freed
    ensures n !in Elements(s.freed)
  {
    NotIn(s.freed, n);
  }

  lemma {:induction false} NewNode(s: Sched, t: Tree, n: Node)
    requires Inv(s) && s.order == Inorder(t) && n !in s.conns && n !in s.freed
    ensures n !in Nodes(t) && n !in Elements(s.freed)
  {
    NodesAreElements(t);
    NotIn(s.freed, n);
  }

  lemma {:induction false} Known(s: Sched, n: Node)
    requires Inv(s) && n in Elements(s.order)
    ensures n in s.conns
  {
  }

  lemma {:induction false} OrderNoDup(s: Sched)
    requires Inv(s)
    ensures NoDup(s.order)
  {
  }

  lemma {:induction false} FewerNodes(t: Tree, u: Tree, k: nat)
    requires k < |Inorder(t)| && Inorder(u) == Inorder(t)[..k] + Inorder(t)[k + 1..]
    ensures Nodes(u) <= Nodes(t)
  {
    NodesAreElements(t);
    NodesAreElements(u);
    ElementsConcat(Inorder(t)[..k], Inorder(t)[k + 1..]);
    ElementsConcat(Inorder(t)[..k], Inorder(t)[k..]);
    assert Inorder(t)[..k] + Inorder(t)[k..] == Inorder(t);
    assert Inorder(t)[k..][1..] == Inorder(t)[k + 1..];
  }
}
