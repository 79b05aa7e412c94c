/** The scheduler's tree of connections, ordered by file descriptor. */
module ConnTree {
  import opened RbShape
  import opened RbMemory
  import opened RbInsert
  import opened RbRemove
  import opened RbWalk

  /** Descriptors strictly increase. */
  ghost predicate Sorted(s: seq<Node>) {
    forall i, j :: 0 <= i < j < |s| ==> s[i].key < s[j].key
  }

  lemma {:induction false} InElements(s: seq<Node>, i: nat)
    requires i < |s|
    ensures s[i] in Elements(s)
    decreases s
  {
    if i > 0 {
      InElements(s[1..], i - 1);
    }
  }

  /** The cells after rb_link_node put `n` into the empty hole of `p`. */
  lemma {:induction false} LinkedAt(p: Path, n: Node, root: Node?, m: Memory, root': Node?, w: Memory)
    requires At(p, Leaf, root, m) && n !in m && w.Keys == m.Keys + {n} && w[n] == Cell(null, null, PathRef(p), false)
    requires Covers(m, w, TopStep(p)) && ChildChanged(p, root, m, n, root', w)
    ensures At(p, Bin(Leaf, n, false, Leaf), root', w)
  {
    SpellsPathChanged(p, root, null, m, n, root', w, TopStep(p));
  }

  /** In a sorted order, everything before a node is smaller and everything after is larger. */
  lemma {:induction false} OrderAround(a: seq<Node>, l: seq<Node>, n: Node, r: seq<Node>, z: seq<Node>)
    requires Sorted(a + (l + [n] + r) + z)
    ensures forall i :: 0 <= i < |l| ==> l[i].key < n.key
    ensures forall i :: 0 <= i < |r| ==> r[i].key > n.key
    ensures forall i :: 0 <= i < |a| ==> a[i].key < n.key
    ensures forall i :: 0 <= i < |z| ==> z[i].key > n.key
  {
    var s, k := a + (l + [n] + r) + z, |a| + |l|;
    assert s[k] == n;
    assert forall i :: 0 <= i < |l| ==> s[|a| + i] == l[i];
    assert forall i :: 0 <= i < |r| ==> s[k + 1 + i] == r[i];
    assert forall i :: 0 <= i < |a| ==> s[i] == a[i];
    assert forall i :: 0 <= i < |z| ==> s[k + 1 + |r| + i] == z[i];
  }

  /** The hole of `p` is where `fd` belongs. */
  ghost predicate Belongs(p: Path, fd: int) {
    && (forall i :: 0 <= i < |Before(p)| ==> Before(p)[i].key < fd)
    && (forall i :: 0 <= i < |After(p)| ==> After(p)[i].key > fd)
  }

  /** One comparison of the descent keeps to where the descriptor belongs. */
  lemma {:induction false} Narrow(left: bool, p: Path, u: Tree, fd: int)
    requires u.Bin? && Sorted(Inorder(Plug(p, u))) && Belongs(p, fd) &&
      (if left then fd < u.node.key else fd > u.node.key)
    ensures Belongs(Down(left, p, u).0, fd)
  {
    hide Sorted, Plug;
    PlugInorder(p, u);
    OrderAround(Before(p), Inorder(u.left), u.node, Inorder(u.right), After(p));
  }

  /** A tree that fills a set of nodes fills exactly its own nodes. */
  lemma {:induction false} OwnNodes(t: Tree, root: Root, S: set<Node>)
    requires At(Top, t, root.node, Snapshot(S))
    ensures At(Top, t, root.node, Snapshot(Nodes(t))) && Nodes(t) == S
  {
    assert Snapshot(S).Keys == S;
    assert Nodes(t) == S;
  }

  /** Below `root`, a red-black search tree: parent-consistent, ordered, and all five properties. */
  ghost predicate Valid(root: Root, t: Tree)
    reads root, Nodes(t)
  {
    At(Top, t, root.node, Snapshot(Nodes(t))) && IsRedBlack(t) && Sorted(Inorder(t))
  }

  /** The search that looking up and adding have in common: a hit, or the place to link to. */
  method Descend(fd: int, root: Root, ghost t: Tree) returns (conn: Node?, parent: Node?, ghost p: Path)
    requires Valid(root, t)
    ensures Valid(root, t)
    ensures conn != null ==> conn.key == fd && conn in Inorder(t)
    ensures conn == null ==>
      Plug(p, Leaf) == t && At(p, Leaf, root.node, Snapshot(Nodes(t))) && Belongs(p, fd) &&
      parent == PathRef(p)
    ensures conn == null && parent != null ==> parent.key != fd && (p.inLeft <==> fd < parent.key)
  {
    hide Nodes, Distinct, Spells, Sorted;
    ghost var u, m := t, Snapshot(Nodes(t));
    p, conn, parent := Top, root.node, null;
    while conn != null
      invariant At(p, u, root.node, m) && Ref(u) == conn && Plug(p, u) == t && Belongs(p, fd) && parent == PathRef(p)
      invariant parent != null ==> parent.key != fd && (p.inLeft <==> fd < parent.key)
      decreases u
    {
      DownKeeps(true, p, u, root.node, m);
      DownKeeps(false, p, u, root.node, m);
      parent := conn;
      if fd < conn.key {
        Narrow(true, p, u, fd);
        conn := conn.left;
        p, u := Down(true, p, u).0, Down(true, p, u).1;
      } else if fd > conn.key {
        Narrow(false, p, u, fd);
        conn := conn.right;
        p, u := Down(false, p, u).0, Down(false, p, u).1;
      } else {
        PlugInorder(p, u);
        assert Inorder(t)[|Before(p)| + |Inorder(u.left)|] == conn;
        return;
      }
    }
  }

  /** mk_sched_get_connection: the connection with this descriptor, if there is one. */
  method Get(fd: int, root: Root, ghost t: Tree) returns (conn: Node?)
    requires Valid(root, t)
    ensures Valid(root, t)
    ensures conn == null ==> forall i :: 0 <= i < |Inorder(t)| ==> Inorder(t)[i].key != fd
    ensures conn != null ==> conn.key == fd && conn in Inorder(t)
  {
    var parent;
    ghost var p;
    conn, parent, p := Descend(fd, root, t);
    if conn == null {
      PlugInorder(p, Leaf);
    }
  }

  /** rb_link_node in the empty hole of `p`. */
  method Link(conn: Node, parent: Node?, root: Root, ghost p: Path, ghost S: set<Node>)
    requires conn !in S && At(p, Leaf, root.node, Snapshot(S)) && parent == PathRef(p)
    requires parent != null ==> (p.inLeft <==> conn.key < parent.key)
    modifies root, S, conn
    ensures At(p, Bin(Leaf, conn, false, Leaf), root.node, Snapshot(S + {conn}))
  {
    ghost var m, r := Snapshot(S), root.node;
    conn.parent, conn.black := parent, false;
    conn.left, conn.right := null, null;
    if parent == null {
      root.node := conn;
    } else if conn.key < parent.key {
      parent.left := conn;
    } else {
      parent.right := conn;
    }
    ghost var w := Snapshot(S + {conn});
    assert w.Keys == m.Keys + {conn};
    LinkedAt(p, conn, r, m, root.node, w);
  }

  /**
   * The part of mk_sched_add_connection that registers a connection: find its place, link it
   * in and rebalance.  `ok` is false for what the source calls a bug, a descriptor that is
   * already there.
   */
  method Add(conn: Node, root: Root, ghost t: Tree) returns (ok: bool, ghost u: Tree)
    requires Valid(root, t) && conn !in Nodes(t)
    modifies root, Nodes(t), conn
    ensures Valid(root, u)
    ensures ok <==> forall i :: 0 <= i < |Inorder(t)| ==> Inorder(t)[i].key != conn.key
    ensures !ok ==> u == t
    ensures ok ==> exists k :: 0 <= k <= |Inorder(t)| && Inorder(u) == Inorder(t)[..k] + [conn] + Inorder(t)[k..]
  {
    var hit, parent;
    ghost var p, S := Top, Nodes(t);
    hit, parent, p := Descend(conn.key, root, t);
    if hit != null {
      return false, t;
    }
    LinkedOrder(p, conn);
    ghost var g: nat :| RedBlack(t, g);
    ghost var h := UnplugRedBlack(p, Leaf, g);
    Link(conn, parent, root, p, S);
    u := InsertColor(conn, root, p, Bin(Leaf, conn, false, Leaf), h, S + {conn});
    OwnNodes(u, root, S + {conn});
    ok := true;
  }

  /** rb_erase of a registered connection, as in mk_sched_remove_client. */
  method Remove(conn: Node, root: Root, ghost t: Tree) returns (ghost u: Tree)
    requires Valid(root, t) && conn in Inorder(t)
    modifies root, Nodes(t)
    ensures Valid(root, u)
    ensures exists k ::
      0 <= k < |Inorder(t)| && Inorder(t)[k] == conn &&
      Inorder(u) == Inorder(t)[..k] + Inorder(t)[k + 1..]
  {
    ghost var S := Nodes(t);
    ghost var p, v := RemovalPlace(t, conn);
    PlugAt(p, v, root.node, Snapshot(S));
    u := Erase(conn, root, p, v, S);
    OwnNodes(u, root, S - {conn});
  }

  /** Where the descriptor belongs, linking it keeps the order and is found missing before. */
  lemma {:induction false} LinkedOrder(p: Path, conn: Node)
    requires Sorted(Inorder(Plug(p, Leaf))) && Belongs(p, conn.key)
    ensures var s, u, k := Inorder(Plug(p, Leaf)), Inorder(Plug(p, Bin(Leaf, conn, false, Leaf))), |Before(p)|;
      && k <= |s| && u == s[..k] + [conn] + s[k..] && Sorted(u)
      && (forall i :: 0 <= i < |s| ==> s[i].key != conn.key)
  {
    PlugInorder(p, Leaf);
    PlugInorder(p, Bin(Leaf, conn, false, Leaf));
    assert Before(p) + [] + After(p) == Before(p) + After(p);
    assert Inorder(Bin(Leaf, conn, false, Leaf)) == [conn];
    SortedAround(Before(p), conn, After(p));
  }

  /** Where a connection is, and what is left of the order without it. */
  lemma {:induction false} RemovalPlace(t: Tree, conn: Node) returns (p: Path, v: Tree)
    requires Sorted(Inorder(t)) && conn in Inorder(t)
    ensures v.Bin? && v.node == conn && Plug(p, v) == t && Sorted(OrderWithout(p, v))
    ensures exists k ::
      0 <= k < |Inorder(t)| && Inorder(t)[k] == conn &&
      OrderWithout(p, v) == Inorder(t)[..k] + Inorder(t)[k + 1..]
  {
    hide Sorted, Inorder, OrderWithout, Before, Plug;
    var k :| 0 <= k < |Inorder(t)| && Inorder(t)[k] == conn;
    p, v := Locate(t, k);
    WithoutIsRest(p, v);
    SortedWithout(Inorder(t), k);
  }

  lemma {:induction false} WithoutIsRest(p: Path, t: Tree)
    requires t.Bin?
    ensures var s := Inorder(Plug(p, t)); var k := |Before(p)| + |Inorder(t.left)|;
      k < |s| && OrderWithout(p, t) == s[..k] + s[k + 1..]
  {
    PlugInorder(p, t);
    Cut(Inorder(Plug(p, t)), Before(p), Inorder(t.left), t.node, Inorder(t.right), After(p));
  }

  lemma {:induction false} Cut(s: seq<Node>, a: seq<Node>, l: seq<Node>, n: Node, r: seq<Node>, z: seq<Node>)
    requires s == a + (l + [n] + r) + z
    ensures |a| + |l| < |s| && a + l + r + z == s[..|a| + |l|] + s[|a| + |l| + 1..]
  {
    var k := |a| + |l|;
    assert s[..k] == a + l;
    assert s[k + 1..] == r + z;
    assert (a + l) + (r + z) == a + l + r + z;
  }

  lemma {:induction false} SortedWithout(s: seq<Node>, k: nat)
    requires Sorted(s) && k < |s|
    ensures Sorted(s[..k] + s[k + 1..])
  {
    var u := s[..k] + s[k + 1..];
    assert forall i :: 0 <= i < |u| ==> u[i] == s[if i < k then i else i + 1];
  }

  lemma {:induction false} SortedAround(a: seq<Node>, n: Node, b: seq<Node>)
    requires Sorted(a + b) && (forall i :: 0 <= i < |a| ==> a[i].key < n.key) &&
      (forall i :: 0 <= i < |b| ==> b[i].key > n.key)
    ensures Sorted(a + [n] + b)
  {
    var s, u := a + b, a + [n] + b;
    assert forall i :: 0 <= i < |a| ==> u[i] == s[i] == a[i];
    assert u[|a|] == n;
    assert forall i :: |a| < i < |u| ==> u[i] == s[i - 1] && u[i] == b[i - |a| - 1];
  }
}
