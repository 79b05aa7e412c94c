/** Insertion rebalancing: `__rb_insert`. */
module RbInsert {
  import opened RbShape
  import opened RbMemory

  /** A red node below a red parent, with the grandparent that must exist. */
  ghost predicate RedRed(p: Path, t: Tree) {
    t.Bin? && !t.black && p.Step? && !p.black && p.up.Step?
  }

  /** Case 1: parent and uncle turn black, the grandparent red. */
  ghost function Flipped(p: Path, t: Tree): Tree
    requires RedRed(p, t)
  {
    var g := p.up;
    Join(g.inLeft, Join(p.inLeft, t, p.node, true, p.sibling), g.node, false, Recoloured(g.sibling, true))
  }

  /** The two levels above the hole, as they are. */
  ghost function TwoUp(p: Path, t: Tree): Tree
    requires RedRed(p, t)
  {
    var g := p.up;
    Join(g.inLeft, Join(p.inLeft, t, p.node, p.black, p.sibling), g.node, g.black, g.sibling)
  }

  /** Case 3: the parent becomes the top of node and grandparent. */
  ghost function Rotated(p: Path, t: Tree): Tree
    requires RedRed(p, t) && p.inLeft == p.up.inLeft
  {
    var g := p.up;
    Join(g.inLeft, t, p.node, g.black, Join(g.inLeft, p.sibling, g.node, false, g.sibling))
  }

  /** Case 2 turns an inner red node into an outer one: node and parent change places. */
  ghost function InnerTree(p: Path, t: Tree): Tree
    requires RedRed(p, t)
  {
    Join(p.inLeft, if p.inLeft then t.right else t.left, p.node, false, p.sibling)
  }

  ghost function InnerPath(p: Path, t: Tree): Path
    requires RedRed(p, t)
  {
    Step(!p.inLeft, t.node, false, if p.inLeft then t.left else t.right, p.up)
  }

  /** Case 1 keeps the order and the black heights, and moves the red node two levels up. */
  lemma {:induction false} FlippedKeeps(p: Path, t: Tree, h: nat)
    requires RedRed(p, t) && !IsBlack(p.up.sibling)
    requires Balanced(t, h) && PathBalanced(p, h)
    ensures Balanced(Flipped(p, t), h + 1) && PathBalanced(p.up.up, h + 1)
    ensures Inorder(Plug(p.up.up, Flipped(p, t))) == Inorder(Plug(p, t))
  {
    assert PathBalanced(p.up, h) && p.up.black;
    PlugKeepsOrder(p.up.up, Flipped(p, t), TwoUp(p, t));
  }

  /** Case 3 keeps the order and the black heights, and ends the violation. */
  lemma {:induction false} RotatedKeeps(p: Path, t: Tree, h: nat)
    requires RedRed(p, t) && IsBlack(p.up.sibling) && p.inLeft == p.up.inLeft
    requires Balanced(t, h) && PathBalanced(p, h)
    ensures RedBlack(Rotated(p, t), h + 1) && PathBalanced(p.up.up, h + 1)
    ensures Inorder(Plug(p.up.up, Rotated(p, t))) == Inorder(Plug(p, t))
  {
    assert PathBalanced(p.up, h) && p.up.black;
    if p.inLeft {
      Around(Inorder(t), p.node, Inorder(p.sibling), p.up.node, Inorder(p.up.sibling));
    } else {
      Around(Inorder(p.up.sibling), p.up.node, Inorder(p.sibling), p.node, Inorder(t));
    }
    PlugKeepsOrder(p.up.up, Rotated(p, t), TwoUp(p, t));
  }

  /** Case 2 keeps the order and the black heights. */
  lemma {:induction false} InnerKeeps(p: Path, t: Tree, h: nat)
    requires RedRed(p, t) && Balanced(t, h) && PathBalanced(p, h)
    ensures Balanced(InnerTree(p, t), h) && PathBalanced(InnerPath(p, t), h)
    ensures Inorder(Plug(InnerPath(p, t), InnerTree(p, t))) == Inorder(Plug(p, t))
  {
    if p.inLeft {
      Around(Inorder(t.left), t.node, Inorder(t.right), p.node, Inorder(p.sibling));
    } else {
      Around(Inorder(p.sibling), p.node, Inorder(t.left), t.node, Inorder(t.right));
    }
    var q := InnerPath(p, t);
    PlugKeepsOrder(p.up, Join(q.inLeft, InnerTree(p, t), q.node, q.black, q.sibling),
      Join(p.inLeft, t, p.node, p.black, p.sibling));
  }

  lemma {:induction false} FlippedAt(p: Path, t: Tree, root: Node?, m: Memory, w: Memory)
    requires RedRed(p, t) && p.up.sibling.Bin? && At(p, t, root, m)
    requires Separate(p.up.up, Flipped(p, t)) && m.Keys == PathNodes(p.up.up) + Nodes(Flipped(p, t))
    requires var u := p.up.sibling.node; var n := p.node; var g := p.up.node;
      && u in m && n in m && g in m && Agree(m, w, {u, n, g})
      && w[u] == m[u].(black := true) && w[n] == m[n].(black := true) && w[g] == m[g].(black := false)
    ensures At(p.up.up, Flipped(p, t), root, w)
  {
    var u, g, x := p.up.sibling, p.up, {p.up.sibling.node, p.node, p.up.node};
    assert PathDistinct(g) && SpellsPath(g, root, p.node, m);
    assert u.node in Nodes(u);
    SpellsFrame(t, p.node, m, w, x);
    SpellsFrame(p.sibling, p.node, m, w, x);
    SpellsMoved(u, g.node, m, g.node, true, w, x);
    SpellsPathFrame(g.up, root, g.node, m, w, x);
  }

  /** What case 3 leaves in memory. */
  lemma {:induction false} RotatedAt(p: Path, t: Tree, root: Node?, m: Memory, root': Node?, w: Memory)
    requires RedRed(p, t) && p.inLeft == p.up.inLeft && At(p, t, root, m) && IsBlack(p.sibling)
    requires Separate(p.up.up, Rotated(p, t)) && m.Keys == PathNodes(p.up.up) + Nodes(Rotated(p, t))
    requires Lifted(m, root, w, root', p.node, p.up.node, Ref(p.sibling), true, p.inLeft, false)
    ensures At(p.up.up, Rotated(p, t), root', w)
  {
    var s, g, x := p.sibling, p.up, {p.node, p.up.node} + TopNode(p.sibling) + TopStep(p.up.up);
    assert PathDistinct(g) && SpellsPath(g, root, p.node, m);
    SpellsFrame(t, p.node, m, w, x);
    SpellsMoved(s, p.node, m, g.node, true, w, x);
    SpellsFrame(g.sibling, g.node, m, w, x);
    SpellsPathChanged(g.up, root, g.node, m, p.node, root', w, x);
    assert Spells(Join(g.inLeft, s, g.node, false, g.sibling), p.node, w);
  }

  /** What case 2 does: the node `x` and its parent `n` change places, `c` moves from `x` to `n`. */
  ghost predicate Swapped(m: Memory, w: Memory, n: Node, x: Node, c: Node?, left: bool) {
    && n in m && x in m && Agree(m, w, {n, x} + Opt(c))
    && w[x] == WithChild(m[x], left, n)
    && w[n] == WithChild(m[n], !left, c).(parent := x, black := false)
    && (c != null ==> c in m && w[c] == m[c].(parent := n, black := true))
  }

  /** The child of `t` that case 2 hands to the parent. */
  ghost function Inner(p: Path, t: Tree): Tree
    requires RedRed(p, t)
  {
    if p.inLeft then t.right else t.left
  }

  lemma {:induction false} InnerTreeAt(p: Path, t: Tree, root: Node?, m: Memory, w: Memory, v: Memory)
    requires RedRed(p, t) && At(p, t, root, m) && p.inLeft != p.up.inLeft && IsBlack(Inner(p, t))
    requires Swapped(m, w, p.node, t.node, Ref(Inner(p, t)), !p.inLeft) && p.up.node in w
    requires v == Repaired(w, t.node, p.up.node, !p.inLeft)
    ensures Spells(InnerTree(p, t), t.node, v)
  {
    var c, x := Inner(p, t), {p.node, t.node, p.up.node} + TopNode(Inner(p, t));
    assert p.up.node !in Nodes(p.sibling) && p.up.node !in Nodes(t) && Spells(p.sibling, p.node, m);
    SpellsMoved(c, t.node, m, p.node, true, v, x);
    SpellsFrame(p.sibling, p.node, m, v, x);
  }

  lemma {:induction false} InnerPathAt(p: Path, t: Tree, root: Node?, m: Memory, w: Memory, v: Memory)
    requires RedRed(p, t) && At(p, t, root, m) && p.inLeft != p.up.inLeft && IsBlack(Inner(p, t))
    requires Swapped(m, w, p.node, t.node, Ref(Inner(p, t)), !p.inLeft) && p.up.node in w
    requires v == Repaired(w, t.node, p.up.node, !p.inLeft)
    ensures SpellsPath(InnerPath(p, t), root, p.node, v)
  {
    var q, x := InnerPath(p, t), {p.node, t.node, p.up.node} + TopNode(Inner(p, t));
    assert PathDistinct(p.up) && SpellsPath(p.up, root, p.node, m);
    SpellsFrame(q.sibling, t.node, m, v, x);
    SpellsPathChanged(p.up, root, p.node, m, t.node, root, v, x);
  }

  /** What case 2 would leave in memory if it also repaired the two links it leaves stale. */
  lemma {:induction false} InnerAt(p: Path, t: Tree, root: Node?, m: Memory, w: Memory)
    requires RedRed(p, t) && At(p, t, root, m) && p.inLeft != p.up.inLeft && IsBlack(Inner(p, t))
    requires Swapped(m, w, p.node, t.node, Ref(Inner(p, t)), !p.inLeft) && p.up.node in w
    requires Separate(InnerPath(p, t), InnerTree(p, t)) && m.Keys == PathNodes(InnerPath(p, t)) + Nodes(InnerTree(p, t))
    ensures At(InnerPath(p, t), InnerTree(p, t), root, Repaired(w, t.node, p.up.node, !p.inLeft))
  {
    var v := Repaired(w, t.node, p.up.node, !p.inLeft);
    InnerTreeAt(p, t, root, m, w, v);
    InnerPathAt(p, t, root, m, w, v);
    assert v.Keys == m.Keys;
  }

  /** Case 2 for a left parent: left rotate at parent. */
  method TurnLeft(node: Node, parent: Node, ghost S: set<Node>) returns (tmp: Node?)
    requires node in S && parent in S && node != parent
    requires node.left != null ==> node.left in S && node.left != node && node.left != parent
    modifies S
    ensures tmp == node.right
    ensures Swapped(old(Snapshot(S)), Snapshot(S), parent, node, old(node.left), true)
  {
    var inner := node.left;
    parent.right := inner;
    node.left := parent;
    if inner != null {
      inner.parent, inner.black := parent, true;
    }
    parent.parent, parent.black := node, false;
    tmp := node.right;
  }

  /** Case 3 for a left parent: right rotate at gparent. */
  method LiftLeft(parent: Node, gparent: Node, tmp: Node?, root: Root, ghost S: set<Node>)
    requires parent in S && gparent in S && (tmp != null ==> tmp in S) &&
      (gparent.parent != null ==> gparent.parent in S)
    requires parent != gparent && tmp != parent && tmp != gparent
    requires gparent.parent != parent && gparent.parent != gparent && (tmp != null ==> gparent.parent != tmp)
    modifies root, S
    ensures Lifted(old(Snapshot(S)), old(root.node), Snapshot(S), root.node, parent, gparent, tmp, true, true, false)
  {
    ghost var m, r := Snapshot(S), root.node;
    gparent.left := tmp;
    parent.right := gparent;
    if tmp != null {
      tmp.parent, tmp.black := gparent, true;
    }
    ghost var a := Snapshot(S);
    RotateSetParents(gparent, parent, root, false, S);
    TurnedAndReparented(m, a, r, Snapshot(S), root.node, parent, gparent, tmp, true, true, false);
  }

  /** Case 2 for a right parent: right rotate at parent. */
  method TurnRight(node: Node, parent: Node, ghost S: set<Node>) returns (tmp: Node?)
    requires node in S && parent in S && node != parent
    requires node.right != null ==> node.right in S && node.right != node && node.right != parent
    modifies S
    ensures tmp == node.left
    ensures Swapped(old(Snapshot(S)), Snapshot(S), parent, node, old(node.right), false)
  {
    var inner := node.right;
    parent.left := inner;
    node.right := parent;
    if inner != null {
      inner.parent, inner.black := parent, true;
    }
    parent.parent, parent.black := node, false;
    tmp := node.left;
  }

  /** Case 3 for a right parent: left rotate at gparent. */
  method LiftRight(parent: Node, gparent: Node, tmp: Node?, root: Root, ghost S: set<Node>)
    requires parent in S && gparent in S && (tmp != null ==> tmp in S) &&
      (gparent.parent != null ==> gparent.parent in S)
    requires parent != gparent && tmp != parent && tmp != gparent
    requires gparent.parent != parent && gparent.parent != gparent && (tmp != null ==> gparent.parent != tmp)
    modifies root, S
    ensures Lifted(old(Snapshot(S)), old(root.node), Snapshot(S), root.node, parent, gparent, tmp, true, false, false)
  {
    ghost var m, r := Snapshot(S), root.node;
    gparent.right := tmp;
    parent.left := gparent;
    if tmp != null {
      tmp.parent, tmp.black := gparent, true;
    }
    ghost var a := Snapshot(S);
    RotateSetParents(gparent, parent, root, false, S);
    TurnedAndReparented(m, a, r, Snapshot(S), root.node, parent, gparent, tmp, true, false, false);
  }

  /** The links around a red node below a red parent. */
  lemma {:induction false} OpenStep(p: Path, t: Tree, root: Node?, m: Memory)
    requires RedRed(p, t) && At(p, t, root, m)
    ensures var g := p.up;
      && p.node in m && g.node in m && t.node in m
      && t.node != p.node && t.node != g.node && p.node != g.node
      && PathRef(g.up) != p.node && PathRef(g.up) != g.node && PathRef(g.up) != t.node
      && m[p.node] == StepCell(p, t.node) && m[g.node] == StepCell(g, p.node)
      && m[t.node] == Cell(Ref(t.left), Ref(t.right), p.node, t.black)
      && (g.up.Step? ==> g.up.node in m)
      && Ref(p.sibling) !in {p.node, g.node, t.node} && Ref(g.sibling) !in {p.node, g.node, t.node}
      && (p.sibling.Bin? ==> p.sibling.node in m && p.sibling.node != PathRef(g.up))
      && (g.sibling.Bin? ==>
        g.sibling.node in m && g.sibling.node != PathRef(g.up) &&
        m[g.sibling.node].black == g.sibling.black)
      && Ref(t.left) !in {p.node, g.node, t.node} && Ref(t.right) !in {p.node, g.node, t.node}
      && (t.left.Bin? ==> t.left.node in m && t.left.node != PathRef(g.up))
      && (t.right.Bin? ==> t.right.node in m && t.right.node != PathRef(g.up))
  {
    assert PathDistinct(p.up) && SpellsPath(p.up, root, p.node, m) && PathDistinct(p.up.up);
    assert SpellsPath(p.up.up, root, p.up.node, m);
  }

  lemma {:induction false} InnerStep(p: Path, t: Tree, h: nat, root: Node?, m: Memory, w: Memory)
    requires At(p, t, root, m) && RedRed(p, t) && p.inLeft != p.up.inLeft
    requires Balanced(t, h) && PathBalanced(p, h)
    requires Swapped(m, w, p.node, t.node, Ref(if p.inLeft then t.right else t.left), !p.inLeft)
    ensures p.up.node in w && At(InnerPath(p, t), InnerTree(p, t), root, Repaired(w, t.node, p.up.node, !p.inLeft))
  {
    InnerKeeps(p, t, h);
    SameOrder(p, t, InnerPath(p, t), InnerTree(p, t));
    OpenStep(p, t, root, m);
    InnerAt(p, t, root, m, w);
  }

  lemma {:induction false} RotatedStep(p: Path, t: Tree, h: nat, root: Node?, m: Memory, root': Node?, w: Memory)
    requires RedRed(p, t) && p.inLeft == p.up.inLeft && IsBlack(p.up.sibling)
    requires Balanced(t, h) && PathBalanced(p, h)
    requires p.node in m && p.up.node in m && At(p, t, root, Repaired(m, p.node, p.up.node, p.inLeft))
    requires Lifted(m, root, w, root', p.node, p.up.node, Ref(p.sibling), true, p.inLeft, false)
    ensures At(p.up.up, Rotated(p, t), root', w)
  {
    var v := Repaired(m, p.node, p.up.node, p.inLeft);
    RotatedKeeps(p, t, h);
    SameOrder(p, t, p.up.up, Rotated(p, t));
    OpenStep(p, t, root, v);
    LiftedRepaired(m, root, w, root', p.node, p.up.node, Ref(p.sibling), true, p.inLeft, false);
    RotatedAt(p, t, root, v, root', w);
  }

  /** Case 2 for a left parent, up to the two links it leaves stale. */
  method InnerLeft(node: Node, parent: Node, gparent: Node, root: Root, ghost p: Path, ghost t: Tree, ghost h: nat,
      ghost S: set<Node>)
      returns (tmp: Node?)
    requires At(p, t, root.node, Snapshot(S)) && RedRed(p, t) && p.up.inLeft && !p.inLeft
    requires Balanced(t, h) && PathBalanced(p, h)
    requires t.node == node && p.node == parent && p.up.node == gparent
    modifies S
    ensures tmp == Ref(InnerPath(p, t).sibling) && node in S && gparent in S
    ensures At(InnerPath(p, t), InnerTree(p, t), root.node, Repaired(Snapshot(S), node, gparent, true))
  {
    ghost var m := Snapshot(S);
    OpenStep(p, t, root.node, m);
    tmp := TurnLeft(node, parent, S);
    InnerStep(p, t, h, root.node, m, Snapshot(S));
  }

  /** Case 3 for a left parent, whether or not case 2 came before. */
  method OuterLeft(parent: Node, gparent: Node, tmp: Node?, root: Root, ghost p: Path, ghost t: Tree, ghost h: nat,
      ghost S: set<Node>)
    requires RedRed(p, t) && p.inLeft == p.up.inLeft == true && IsBlack(p.up.sibling)
    requires Balanced(t, h) && PathBalanced(p, h)
    requires p.node == parent && p.up.node == gparent && parent in S && gparent in S && tmp == Ref(p.sibling)
    requires At(p, t, root.node, Repaired(Snapshot(S), parent, gparent, true))
    modifies root, S
    ensures At(p.up.up, Rotated(p, t), root.node, Snapshot(S))
  {
    ghost var m, r := Snapshot(S), root.node;
    OpenStep(p, t, r, Repaired(m, parent, gparent, true));
    LiftLeft(parent, gparent, tmp, root, S);
    RotatedStep(p, t, h, r, m, root.node, Snapshot(S));
  }

  /** Case 2 for a right parent, up to the two links it leaves stale. */
  method InnerRight(node: Node, parent: Node, gparent: Node, root: Root, ghost p: Path, ghost t: Tree, ghost h: nat,
      ghost S: set<Node>)
      returns (tmp: Node?)
    requires At(p, t, root.node, Snapshot(S)) && RedRed(p, t) && !p.up.inLeft && p.inLeft
    requires Balanced(t, h) && PathBalanced(p, h)
    requires t.node == node && p.node == parent && p.up.node == gparent
    modifies S
    ensures tmp == Ref(InnerPath(p, t).sibling) && node in S && gparent in S
    ensures At(InnerPath(p, t), InnerTree(p, t), root.node, Repaired(Snapshot(S), node, gparent, false))
  {
    ghost var m := Snapshot(S);
    OpenStep(p, t, root.node, m);
    tmp := TurnRight(node, parent, S);
    InnerStep(p, t, h, root.node, m, Snapshot(S));
  }

  /** Case 3 for a right parent, whether or not case 2 came before. */
  method OuterRight(parent: Node, gparent: Node, tmp: Node?, root: Root, ghost p: Path, ghost t: Tree, ghost h: nat,
      ghost S: set<Node>)
    requires RedRed(p, t) && p.inLeft == p.up.inLeft == false && IsBlack(p.up.sibling)
    requires Balanced(t, h) && PathBalanced(p, h)
    requires p.node == parent && p.up.node == gparent && parent in S && gparent in S && tmp == Ref(p.sibling)
    requires At(p, t, root.node, Repaired(Snapshot(S), parent, gparent, false))
    modifies root, S
    ensures At(p.up.up, Rotated(p, t), root.node, Snapshot(S))
  {
    ghost var m, r := Snapshot(S), root.node;
    OpenStep(p, t, r, Repaired(m, parent, gparent, false));
    LiftRight(parent, gparent, tmp, root, S);
    RotatedStep(p, t, h, r, m, root.node, Snapshot(S));
  }

  /** What case 1 does to memory. */
  ghost predicate FlippedCells(m: Memory, w: Memory, u: Node, n: Node, g: Node) {
    && u in m && n in m && g in m && Agree(m, w, {u, n, g})
    && w[u] == m[u].(parent := g, black := true) && w[n] == m[n].(parent := g, black := true) &&
      w[g] == m[g].(black := false)
  }

  /** Case 1: color flips. */
  method Flip(tmp: Node, parent: Node, gparent: Node, ghost S: set<Node>)
    requires tmp in S && parent in S && gparent in S && tmp != parent && tmp != gparent && parent != gparent
    modifies S
    ensures FlippedCells(old(Snapshot(S)), Snapshot(S), tmp, parent, gparent)
  {
    tmp.parent, tmp.black := gparent, true;
    parent.parent, parent.black := gparent, true;
    var up := gparent.parent;
    gparent.parent, gparent.black := up, false;
  }

  lemma {:induction false} FlippedStep(p: Path, t: Tree, h: nat, root: Node?, m: Memory, w: Memory)
    requires At(p, t, root, m) && RedRed(p, t) && !IsBlack(p.up.sibling)
    requires Balanced(t, h) && PathBalanced(p, h)
    requires FlippedCells(m, w, p.up.sibling.node, p.node, p.up.node)
    ensures At(p.up.up, Flipped(p, t), root, w)
    ensures Balanced(Flipped(p, t), h + 1) && PathBalanced(p.up.up, h + 1)
    ensures Inorder(Plug(p.up.up, Flipped(p, t))) == Inorder(Plug(p, t))
    ensures p.up.node in w && w[p.up.node].parent == PathRef(p.up.up)
  {
    FlippedKeeps(p, t, h);
    SameOrder(p, t, p.up.up, Flipped(p, t));
    OpenStep(p, t, root, m);
    assert Spells(p.up.sibling, p.up.node, m) by { assert SpellsPath(p.up, root, p.node, m); }
    FlippedAt(p, t, root, m, w);
  }

  /** Cases 2 and 3 for a left parent. */
  method RotateLeft(node: Node, parent: Node, gparent: Node, root: Root, ghost p: Path, ghost t: Tree, ghost h: nat,
      ghost S: set<Node>)
      returns (ghost u: Tree)
    requires At(p, t, root.node, Snapshot(S)) && RedRed(p, t) && p.up.inLeft && IsBlack(p.up.sibling)
    requires Balanced(t, h) && PathBalanced(p, h)
    requires t.node == node && p.node == parent && p.up.node == gparent
    modifies root, S
    ensures At(p.up.up, u, root.node, Snapshot(S))
    ensures RedBlack(u, h + 1) && PathBalanced(p.up.up, h + 1)
    ensures Inorder(Plug(p.up.up, u)) == Inorder(Plug(p, t))
  {
    OpenStep(p, t, root.node, Snapshot(S));
    var tmp := parent.right;
    if node == tmp {
      tmp := InnerLeft(node, parent, gparent, root, p, t, h, S);
      InnerKeeps(p, t, h);
      ghost var q, v := InnerPath(p, t), InnerTree(p, t);
      OuterLeft(node, gparent, tmp, root, q, v, h, S);
      RotatedKeeps(q, v, h);
      u := Rotated(q, v);
    } else {
      assert Repaired(Snapshot(S), parent, gparent, true) == Snapshot(S);
      OuterLeft(parent, gparent, tmp, root, p, t, h, S);
      RotatedKeeps(p, t, h);
      u := Rotated(p, t);
    }
  }

  /** Cases 2 and 3 for a right parent. */
  method RotateRight(node: Node, parent: Node, gparent: Node, root: Root, ghost p: Path, ghost t: Tree, ghost h: nat,
      ghost S: set<Node>)
      returns (ghost u: Tree)
    requires At(p, t, root.node, Snapshot(S)) && RedRed(p, t) && !p.up.inLeft && IsBlack(p.up.sibling)
    requires Balanced(t, h) && PathBalanced(p, h)
    requires t.node == node && p.node == parent && p.up.node == gparent
    modifies root, S
    ensures At(p.up.up, u, root.node, Snapshot(S))
    ensures RedBlack(u, h + 1) && PathBalanced(p.up.up, h + 1)
    ensures Inorder(Plug(p.up.up, u)) == Inorder(Plug(p, t))
  {
    OpenStep(p, t, root.node, Snapshot(S));
    var tmp := parent.left;
    if node == tmp {
      tmp := InnerRight(node, parent, gparent, root, p, t, h, S);
      InnerKeeps(p, t, h);
      ghost var q, v := InnerPath(p, t), InnerTree(p, t);
      OuterRight(node, gparent, tmp, root, q, v, h, S);
      RotatedKeeps(q, v, h);
      u := Rotated(q, v);
    } else {
      assert Repaired(Snapshot(S), parent, gparent, false) == Snapshot(S);
      OuterRight(parent, gparent, tmp, root, p, t, h, S);
      RotatedKeeps(p, t, h);
      u := Rotated(p, t);
    }
  }

  /** One round with the parent on the left: cases 1 to 3. */
  method RepairLeft(node: Node, parent: Node, gparent: Node, tmp: Node?, root: Root, ghost p: Path, ghost t: Tree,
      ghost h: nat, ghost S: set<Node>)
      returns (next: Node?, ghost u: Tree)
    requires At(p, t, root.node, Snapshot(S)) && RedRed(p, t) && p.up.inLeft
    requires Balanced(t, h) && PathBalanced(p, h)
    requires t.node == node && p.node == parent && p.up.node == gparent && tmp == Ref(p.up.sibling)
    modifies root, S
    ensures At(p.up.up, u, root.node, Snapshot(S))
    ensures Balanced(u, h + 1) && PathBalanced(p.up.up, h + 1)
    ensures if next == null then IsBlack(u) else !IsBlack(u) && u.node == next
    ensures Inorder(Plug(p.up.up, u)) == Inorder(Plug(p, t))
  {
    ghost var m := Snapshot(S);
    OpenStep(p, t, root.node, m);
    if tmp != null && !tmp.black {
      Flip(tmp, parent, gparent, S);
      FlippedStep(p, t, h, root.node, m, Snapshot(S));
      return gparent, Flipped(p, t);
    }
    u := RotateLeft(node, parent, gparent, root, p, t, h, S);
    next := null;
  }

  /** One round with the parent on the right: cases 1 to 3. */
  method RepairRight(node: Node, parent: Node, gparent: Node, tmp: Node?, root: Root, ghost p: Path, ghost t: Tree,
      ghost h: nat, ghost S: set<Node>)
      returns (next: Node?, ghost u: Tree)
    requires At(p, t, root.node, Snapshot(S)) && RedRed(p, t) && !p.up.inLeft
    requires Balanced(t, h) && PathBalanced(p, h)
    requires t.node == node && p.node == parent && p.up.node == gparent && tmp == Ref(p.up.sibling)
    modifies root, S
    ensures At(p.up.up, u, root.node, Snapshot(S))
    ensures Balanced(u, h + 1) && PathBalanced(p.up.up, h + 1)
    ensures if next == null then IsBlack(u) else !IsBlack(u) && u.node == next
    ensures Inorder(Plug(p.up.up, u)) == Inorder(Plug(p, t))
  {
    ghost var m := Snapshot(S);
    OpenStep(p, t, root.node, m);
    if tmp != null && !tmp.black {
      Flip(tmp, parent, gparent, S);
      FlippedStep(p, t, h, root.node, m, Snapshot(S));
      return gparent, Flipped(p, t);
    }
    u := RotateRight(node, parent, gparent, root, p, t, h, S);
    next := null;
  }

  /** One round below a red parent, on whichever side of its own parent that one hangs. */
  method Repair(node: Node, parent: Node, root: Root, ghost p: Path, ghost t: Tree, ghost h: nat, ghost S: set<Node>)
      returns (next: Node?, ghost u: Tree)
    requires At(p, t, root.node, Snapshot(S)) && RedRed(p, t)
    requires Balanced(t, h) && PathBalanced(p, h)
    requires t.node == node && p.node == parent
    modifies root, S
    ensures At(p.up.up, u, root.node, Snapshot(S))
    ensures Balanced(u, h + 1) && PathBalanced(p.up.up, h + 1)
    ensures if next == null then IsBlack(u) else !IsBlack(u) && u.node == next
    ensures Inorder(Plug(p.up.up, u)) == Inorder(Plug(p, t))
  {
    OpenStep(p, t, root.node, Snapshot(S));
    var gparent: Node := parent.parent;
    var tmp := gparent.right;
    if parent != tmp {
      next, u := RepairLeft(node, parent, gparent, tmp, root, p, t, h, S);
    } else {
      tmp := gparent.left;
      next, u := RepairRight(node, parent, gparent, tmp, root, p, t, h, S);
    }
  }

  /** The root turns black. */
  method Blacken(node: Node, ghost S: set<Node>)
    requires node in S
    modifies S
    ensures Agree(old(Snapshot(S)), Snapshot(S), {node})
    ensures Snapshot(S)[node] == old(Snapshot(S))[node].(parent := null, black := true)
  {
    node.parent, node.black := null, true;
  }

  lemma {:induction false} BlackenedStep(t: Tree, h: nat, root: Node?, m: Memory, w: Memory)
    requires t.Bin? && At(Top, t, root, m) && Balanced(t, h) && !t.black
    requires Agree(m, w, {t.node}) && t.node in w && w[t.node] == m[t.node].(parent := null, black := true)
    ensures At(Top, t.(black := true), root, w) && Balanced(t.(black := true), h + 1)
    ensures Inorder(Plug(Top, t.(black := true))) == Inorder(Plug(Top, t))
  {
    SpellsMoved(t, null, m, null, true, w, {t.node});
  }

  /** The walk has reached the root. */
  method BlackenRoot(node: Node, root: Root, ghost t: Tree, ghost h: nat, ghost S: set<Node>)
    requires At(Top, t, root.node, Snapshot(S)) && t.Bin? && t.node == node && !t.black && Balanced(t, h)
    modifies S
    ensures At(Top, t.(black := true), root.node, Snapshot(S)) && Balanced(t.(black := true), h + 1)
    ensures Inorder(Plug(Top, t.(black := true))) == Inorder(Plug(Top, t))
  {
    ghost var m := Snapshot(S);
    OpenPlace(Top, t, root.node, m);
    Blacken(node, S);
    BlackenedStep(t, h, root.node, m, Snapshot(S));
  }

  /**
   * __rb_insert, from any tree that is red-black except that the red node `node0` may have
   * a red parent or be the root: ends with a red-black tree of the same nodes in the same order.
   */
  method InsertColor(node0: Node, root: Root, ghost p0: Path, ghost t0: Tree, ghost h0: nat, ghost S: set<Node>)
      returns (ghost result: Tree)
    requires At(p0, t0, root.node, Snapshot(S)) && Ref(t0) == node0
    requires !IsBlack(t0) && Balanced(t0, h0) && PathBalanced(p0, h0)
    modifies root, S
    ensures At(Top, result, root.node, Snapshot(S))
    ensures IsRedBlack(result)
    ensures Inorder(result) == Inorder(Plug(p0, t0))
  {
    hide At, Inorder, Balanced;
    var node: Node := node0;
    ghost var p, t, h, order := p0, t0, h0, Inorder(Plug(p0, t0));
    while true
      invariant At(p, t, root.node, Snapshot(S)) && Ref(t) == node
      invariant !IsBlack(t) && Balanced(t, h) && PathBalanced(p, h)
      invariant Inorder(Plug(p, t)) == order
      decreases p
    {
      ghost var m := Snapshot(S);
      OpenPlace(p, t, root.node, m);
      var parent := node.parent;
      if parent == null {
        BlackenRoot(node, root, t, h, S);
        Settled(p, t.(black := true), h + 1, root.node, Snapshot(S));
        return Plug(p, t.(black := true));
      } else if parent.black {
        Settled(p, t, h, root.node, m);
        return Plug(p, t);
      }
      var next;
      next, t := Repair(node, parent, root, p, t, h, S);
      p, h := p.up.up, h + 1;
      if next == null {
        Settled(p, t, h, root.node, Snapshot(S));
        return Plug(p, t);
      }
      node := next;
    }
  }
}
