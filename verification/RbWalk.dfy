/** Walking the tree: `rb_first`, `rb_last`, `rb_next`, `rb_prev` and the postorder pair. */
module RbWalk {
  import opened RbShape
  import opened RbMemory

  /** The place of the `i`-th node in order. */
  lemma {:induction false} Locate(t: Tree, i: nat) returns (p: Path, u: Tree)
    requires i < |Inorder(t)|
    ensures Plug(p, u) == t && u.Bin? && |Before(p)| + |Inorder(u.left)| == i && u.node == Inorder(t)[i]
    decreases t
  {
    var k := |Inorder(t.left)|;
    if i == k {
      p, u := Top, t;
    } else {
      var d;
      if i < k {
        d, u := Locate(t.left, i);
        p := Graft(d, Step(true, t.node, t.black, t.right, Top));
        GraftPlug(d, Step(true, t.node, t.black, t.right, Top), u);
        GraftBefore(d, Step(true, t.node, t.black, t.right, Top));
      } else {
        d, u := Locate(t.right, i - k - 1);
        p := Graft(d, Step(false, t.node, t.black, t.left, Top));
        GraftPlug(d, Step(false, t.node, t.black, t.left, Top), u);
        GraftBefore(d, Step(false, t.node, t.black, t.left, Top));
      }
      PlugInorder(p, u);
    }
  }

  /** One step down or up the tree, seen from the place. */
  ghost function Down(left: bool, p: Path, u: Tree): (Path, Tree)
    requires u.Bin?
  {
    if left then (Step(true, u.node, u.black, u.right, p), u.left)
      else (Step(false, u.node, u.black, u.left, p), u.right)
  }

  lemma {:induction false} DownKeeps(left: bool, p: Path, u: Tree, root: Node?, m: Memory)
    requires u.Bin? && At(p, u, root, m)
    ensures var (q, v) := Down(left, p, u);
      && At(q, v, root, m) && Plug(q, v) == Plug(p, u)
      && Before(q) == (if left then Before(p) else Before(p) + Inorder(u.left) + [u.node])
      && After(q) == (if left then [u.node] + Inorder(u.right) + After(p) else After(p))
      && m[u.node] == Cell(Ref(u.left), Ref(u.right), PathRef(p), u.black)
  {
  }

  lemma {:induction false} UpKeeps(p: Path, u: Tree, root: Node?, m: Memory)
    requires p.Step? && u.Bin? && At(p, u, root, m)
    ensures var v := Join(p.inLeft, u, p.node, p.black, p.sibling);
      At(p.up, v, root, m) && Plug(p.up, v) == Plug(p, u)
    ensures p.node in m && m[p.node] == StepCell(p, u.node) && Ref(p.sibling) != u.node && p.node != u.node
  {
    assert u.node in Nodes(u);
    assert p.sibling.Bin? ==> p.sibling.node in Nodes(p.sibling);
  }

  // ------------------------------------------------------------- in order

  method LeftMost(n0: Node, root: Root, ghost p0: Path, ghost u0: Tree, ghost S: set<Node>) returns (n: Node)
    requires At(p0, u0, root.node, Snapshot(S)) && Ref(u0) == n0
    ensures var order := Inorder(Plug(p0, u0)); |Before(p0)| < |order| && n == order[|Before(p0)|]
  {
    n := n0;
    ghost var p, u, m, t := p0, u0, Snapshot(S), Plug(p0, u0);
    while n.left != null
      invariant At(p, u, root.node, m) && u.Bin? && n == u.node && |Before(p)| == |Before(p0)| && Plug(p, u) == t
      decreases u
    {
      DownKeeps(true, p, u, root.node, m);
      n := n.left;
      p, u := Down(true, p, u).0, Down(true, p, u).1;
    }
    DownKeeps(true, p, u, root.node, m);
    PlugInorder(p, u);
  }

  method RightMost(n0: Node, root: Root, ghost p0: Path, ghost u0: Tree, ghost S: set<Node>) returns (n: Node)
    requires At(p0, u0, root.node, Snapshot(S)) && Ref(u0) == n0
    ensures var order := Inorder(Plug(p0, u0)); |After(p0)| < |order| && n == order[|order| - 1 - |After(p0)|]
  {
    n := n0;
    ghost var p, u, m, t := p0, u0, Snapshot(S), Plug(p0, u0);
    while n.right != null
      invariant At(p, u, root.node, m) && u.Bin? && n == u.node && |After(p)| == |After(p0)| && Plug(p, u) == t
      decreases u
    {
      DownKeeps(false, p, u, root.node, m);
      n := n.right;
      p, u := Down(false, p, u).0, Down(false, p, u).1;
    }
    DownKeeps(false, p, u, root.node, m);
    PlugInorder(p, u);
  }

  /** rb_first is the first node in order. */
  method First(root: Root, ghost t: Tree, ghost S: set<Node>) returns (n: Node?)
    requires At(Top, t, root.node, Snapshot(S))
    ensures n == if Inorder(t) == [] then null else Inorder(t)[0]
  {
    n := root.node;
    if n != null {
      n := LeftMost(n, root, Top, t, S);
    }
  }

  /** rb_last is the last node in order. */
  method Last(root: Root, ghost t: Tree, ghost S: set<Node>) returns (n: Node?)
    requires At(Top, t, root.node, Snapshot(S))
    ensures n == if Inorder(t) == [] then null else Inorder(t)[|Inorder(t)| - 1]
  {
    n := root.node;
    if n != null {
      n := RightMost(n, root, Top, t, S);
    }
  }

  lemma {:induction false} NotOwnParent(p: Path, u: Tree)
    requires Separate(p, u) && u.Bin?
    ensures PathRef(p) != u.node
  {
  }

  /** rb_next leads from the `i`-th node in order to the next one. */
  method Next(node0: Node, root: Root, ghost t: Tree, ghost i: nat, ghost S: set<Node>) returns (r: Node?)
    requires At(Top, t, root.node, Snapshot(S)) && i < |Inorder(t)| && node0 == Inorder(t)[i]
    ensures r == if i + 1 < |Inorder(t)| then Inorder(t)[i + 1] else null
  {
    hide Nodes, PathNodes, Distinct, PathDistinct;
    ghost var m := Snapshot(S);
    ghost var p, u := Locate(t, i);
    PlugAt(p, u, root.node, m);
    DownKeeps(false, p, u, root.node, m);
    var node := node0;
    NotOwnParent(p, u);
    if node.parent == node {
      assert false;      // RB_EMPTY_NODE: never the case inside a tree
    }
    if node.right != null {
      p, u := Down(false, p, u).0, Down(false, p, u).1;
      r := LeftMost(node.right, root, p, u, S);
      return;
    }
    var parent := node.parent;
    while parent != null && node == parent.right
      invariant At(p, u, root.node, m) && u.Bin? && node == u.node && parent == PathRef(p)
      invariant |Before(p)| + |Inorder(u)| == i + 1 && Plug(p, u) == t
      decreases p
    {
      UpKeeps(p, u, root.node, m);
      node := parent;
      p, u := p.up, Join(p.inLeft, u, p.node, p.black, p.sibling);
      DownKeeps(false, p, u, root.node, m);
      parent := node.parent;
    }
    PlugInorder(p, u);
    if parent != null {
      UpKeeps(p, u, root.node, m);
    }
    return parent;
  }

  /** rb_prev leads from the `i`-th node in order to the one before. */
  method Prev(node0: Node, root: Root, ghost t: Tree, ghost i: nat, ghost S: set<Node>) returns (r: Node?)
    requires At(Top, t, root.node, Snapshot(S)) && i < |Inorder(t)| && node0 == Inorder(t)[i]
    ensures r == if i > 0 then Inorder(t)[i - 1] else null
  {
    hide Nodes, PathNodes, Distinct, PathDistinct;
    ghost var m := Snapshot(S);
    ghost var p, u := Locate(t, i);
    PlugAt(p, u, root.node, m);
    PlugInorder(p, u);
    DownKeeps(true, p, u, root.node, m);
    var node := node0;
    NotOwnParent(p, u);
    if node.parent == node {
      assert false;      // RB_EMPTY_NODE: never the case inside a tree
    }
    if node.left != null {
      p, u := Down(true, p, u).0, Down(true, p, u).1;
      r := RightMost(node.left, root, p, u, S);
      return;
    }
    var parent := node.parent;
    while parent != null && node == parent.left
      invariant At(p, u, root.node, m) && u.Bin? && node == u.node && parent == PathRef(p)
      invariant |Before(p)| == i && Plug(p, u) == t
      decreases p
    {
      UpKeeps(p, u, root.node, m);
      node := parent;
      p, u := p.up, Join(p.inLeft, u, p.node, p.black, p.sibling);
      DownKeeps(true, p, u, root.node, m);
      parent := node.parent;
    }
    PlugInorder(p, u);
    if parent != null {
      UpKeeps(p, u, root.node, m);
    }
    return parent;
  }

  /** rb_prev leads back from where rb_next led. */
  method NextThenPrev(node: Node, root: Root, ghost t: Tree, ghost i: nat, ghost S: set<Node>)
      returns (r: Node?, back: Node?)
    requires At(Top, t, root.node, Snapshot(S)) && i < |Inorder(t)| && node == Inorder(t)[i]
    ensures r == null <==> i == |Inorder(t)| - 1
    ensures r != null ==> back == node
  {
    r := Next(node, root, t, i, S);
    back := null;
    if r != null {
      back := Prev(r, root, t, i + 1, S);
    }
  }

  /** Going from rb_first along rb_next visits every node once, in order. */
  method Walk(root: Root, ghost t: Tree, ghost S: set<Node>) returns (visited: seq<Node>)
    requires At(Top, t, root.node, Snapshot(S))
    ensures visited == Inorder(t)
  {
    visited := [];
    var n := First(root, t, S);
    while n != null
      invariant |visited| <= |Inorder(t)| && visited == Inorder(t)[..|visited|]
      invariant n == if |visited| < |Inorder(t)| then Inorder(t)[|visited|] else null
      decreases |Inorder(t)| - |visited|
    {
      ghost var i := |visited|;
      visited := visited + [n];
      n := Next(n, root, t, i, S);
    }
  }

  // ------------------------------------------------------------ postorder

  ghost function Postorder(t: Tree): seq<Node> {
    if t.Leaf? then [] else Postorder(t.left) + Postorder(t.right) + [t.node]
  }

  /** The nodes of a path visited before and after those in its hole. */
  ghost function PostBefore(p: Path): seq<Node> {
    if p.Top? then []
    else if p.inLeft then PostBefore(p.up)
    else PostBefore(p.up) + Postorder(p.sibling)
  }

  ghost function PostAfter(p: Path): seq<Node> {
    if p.Top? then []
    else if p.inLeft then Postorder(p.sibling) + [p.node] + PostAfter(p.up)
    else [p.node] + PostAfter(p.up)
  }

  lemma {:induction false} PlugPostorder(p: Path, t: Tree)
    ensures Postorder(Plug(p, t)) == PostBefore(p) + Postorder(t) + PostAfter(p)
    decreases p
  {
    if p.Step? {
      PlugPostorder(p.up, Join(p.inLeft, t, p.node, p.black, p.sibling));
      if p.inLeft {
        PostRegroup(PostBefore(p.up), Postorder(t), Postorder(p.sibling), p.node, PostAfter(p.up));
      } else {
        PostRegroup(PostBefore(p.up), Postorder(p.sibling), Postorder(t), p.node, PostAfter(p.up));
      }
    }
  }

  lemma {:induction false} PostRegroup(a: seq<Node>, b: seq<Node>, c: seq<Node>, n: Node, d: seq<Node>)
    ensures a + (b + c + [n]) + d == a + b + (c + [n] + d)
    ensures a + (b + c + [n]) + d == (a + b) + c + ([n] + d)
  {
  }

  /** The postorder lists exactly the nodes of the tree, as many times as the order does. */
  lemma {:induction false} PostorderIsPermutation(t: Tree)
    ensures multiset(Postorder(t)) == multiset(Inorder(t))
    decreases t
  {
    if t.Bin? {
      PostorderIsPermutation(t.left);
      PostorderIsPermutation(t.right);
    }
  }

  /** Children come before their parent: every place's subtree ends just at its own node. */
  lemma {:induction false} ChildrenFirst(p: Path, u: Tree)
    requires u.Bin?
    ensures var s := Postorder(Plug(p, u)); var e := |PostBefore(p)| + |Postorder(u)|;
      && e <= |s| && s[e - 1] == u.node && s[|PostBefore(p)|..e] == Postorder(u)
      && Postorder(u)[..|Postorder(u)| - 1] == Postorder(u.left) + Postorder(u.right)
  {
    PlugPostorder(p, u);
  }

  /** The place of the `i`-th node in postorder. */
  lemma {:induction false} LocatePost(t: Tree, i: nat) returns (p: Path, u: Tree)
    requires i < |Postorder(t)|
    ensures Plug(p, u) == t && u.Bin? && |PostBefore(p)| + |Postorder(u)| == i + 1 && u.node == Postorder(t)[i]
    decreases t
  {
    var k := |Postorder(t.left)|;
    var d;
    if i < k {
      d, u := LocatePost(t.left, i);
      p := Graft(d, Step(true, t.node, t.black, t.right, Top));
      GraftPlug(d, Step(true, t.node, t.black, t.right, Top), u);
      GraftPost(d, Step(true, t.node, t.black, t.right, Top));
    } else if i < k + |Postorder(t.right)| {
      d, u := LocatePost(t.right, i - k);
      p := Graft(d, Step(false, t.node, t.black, t.left, Top));
      GraftPlug(d, Step(false, t.node, t.black, t.left, Top), u);
      GraftPost(d, Step(false, t.node, t.black, t.left, Top));
    } else {
      p, u := Top, t;
    }
    ChildrenFirst(p, u);
  }

  lemma {:induction false} GraftPost(d: Path, base: Path)
    ensures PostBefore(Graft(d, base)) == PostBefore(base) + PostBefore(d)
    decreases d
  {
    if d.Step? {
      GraftPost(d.up, base);
    }
  }

  lemma {:induction false} LeafComesFirst(p: Path, u: Tree)
    requires u.Bin? && u.left.Leaf? && u.right.Leaf?
    ensures var s := Postorder(Plug(p, u)); |PostBefore(p)| < |s| && s[|PostBefore(p)|] == u.node
  {
    PlugPostorder(p, u);
    assert Postorder(u) == [u.node];
  }

  lemma {:induction false} DownPost(left: bool, p: Path, u: Tree)
    requires u.Bin?
    ensures PostBefore(Down(left, p, u).0) == if left then PostBefore(p) else PostBefore(p) + Postorder(u.left)
  {
  }

  /** rb_left_deepest_node is the first node of a subtree in postorder. */
  method LeftDeepest(n0: Node, root: Root, ghost p0: Path, ghost u0: Tree, ghost S: set<Node>) returns (n: Node)
    requires At(p0, u0, root.node, Snapshot(S)) && Ref(u0) == n0
    ensures var order := Postorder(Plug(p0, u0)); |PostBefore(p0)| < |order| && n == order[|PostBefore(p0)|]
  {
    n := n0;
    ghost var p, u, m, t := p0, u0, Snapshot(S), Plug(p0, u0);
    while true
      invariant At(p, u, root.node, m) && u.Bin? && n == u.node && |PostBefore(p)| == |PostBefore(p0)| &&
        Plug(p, u) == t
      decreases u
    {
      OpenPlace(p, u, root.node, m);
      ghost var left := n.left != null;
      if n.left != null {
        n := n.left;
      } else if n.right != null {
        n := n.right;
      } else {
        LeafComesFirst(p, u);
        return;
      }
      DownKeeps(left, p, u, root.node, m);
      DownPost(left, p, u);
      p, u := Down(left, p, u).0, Down(left, p, u).1;
    }
  }

  method FirstPostorder(root: Root, ghost t: Tree, ghost S: set<Node>) returns (n: Node?)
    requires At(Top, t, root.node, Snapshot(S))
    ensures n == if Postorder(t) == [] then null else Postorder(t)[0]
  {
    n := root.node;
    if n != null {
      n := LeftDeepest(n, root, Top, t, S);
    }
  }

  /** rb_next_postorder leads from the `i`-th node in postorder to the next one. */
  method NextPostorder(node: Node?, root: Root, ghost t: Tree, ghost i: nat, ghost S: set<Node>) returns (r: Node?)
    requires At(Top, t, root.node, Snapshot(S)) && (node != null ==> i < |Postorder(t)| && node == Postorder(t)[i])
    ensures r == if node != null && i + 1 < |Postorder(t)| then Postorder(t)[i + 1] else null
  {
    if node == null {
      return null;
    }
    ghost var m := Snapshot(S);
    ghost var p, u := LocatePost(t, i);
    PlugAt(p, u, root.node, m);
    PlugPostorder(p, u);
    DownKeeps(true, p, u, root.node, m);
    var parent := node.parent;
    if parent != null {
      UpKeeps(p, u, root.node, m);
      if node == parent.left && parent.right != null {
        ghost var v := Join(p.inLeft, u, p.node, p.black, p.sibling);
        DownKeeps(false, p.up, v, root.node, m);
        r := LeftDeepest(parent.right, root, Step(false, v.node, v.black, v.left, p.up), v.right, S);
        return;
      }
    }
    return parent;
  }

  /** Going from rb_first_postorder along rb_next_postorder visits every node once, children first. */
  method WalkPostorder(root: Root, ghost t: Tree, ghost S: set<Node>) returns (visited: seq<Node>)
    requires At(Top, t, root.node, Snapshot(S))
    ensures visited == Postorder(t)
  {
    visited := [];
    var n := FirstPostorder(root, t, S);
    while n != null
      invariant |visited| <= |Postorder(t)| && visited == Postorder(t)[..|visited|]
      invariant n == if |visited| < |Postorder(t)| then Postorder(t)[|visited|] else null
      decreases |Postorder(t)| - |visited|
    {
      ghost var i := |visited|;
      visited := visited + [n];
      n := NextPostorder(n, root, t, i, S);
    }
  }
}
