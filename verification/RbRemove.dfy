/** Removing a node: `__rb_erase_augmented`, `rb_erase` and `rb_replace_node`. */
module RbRemove {
  import opened RbShape
  import opened RbMemory
  import opened RbErase

  /** What is left of a node with at most one child: that child, in the node's colour. */
  ghost function Spliced(t: Tree): Tree
    requires t.Bin?
  {
    Recoloured(if t.left.Leaf? then t.right else t.left, t.black)
  }

  /** A lone child is red below a black node, so handing it the colour restores the balance. */
  lemma {:induction false} SplicedBalanced(p: Path, t: Tree, h: nat)
    requires t.Bin? && (t.left.Leaf? || t.right.Leaf?)
    requires PathBalanced(p, h) && Balanced(t, h) && (IsBlack(t) || AcceptsRed(p))
    ensures Spliced(t).Bin? ==> t.black
    ensures Spliced(t).Bin? || !t.black ==> Balanced(Spliced(t), h) && IsBlack(Spliced(t))
    ensures Spliced(t).Leaf? && t.black && p.Step? ==> h == 1 && Short(p, Spliced(t), 0)
    ensures Spliced(t).Leaf? && t.black && p.Top? ==> Balanced(Spliced(t), 0)
  {
    if t.black {
      assert Balanced(t.left, h - 1) && Balanced(t.right, h - 1);
    }
  }

  lemma {:induction false} SplicedApart(p: Path, t: Tree)
    requires t.Bin? && (t.left.Leaf? || t.right.Leaf?) && Separate(p, t)
    ensures Separate(p, Spliced(t)) && t.node !in PathNodes(p)
    ensures Nodes(Spliced(t)) == Nodes(t) - {t.node}
  {
    var c := if t.left.Leaf? then t.right else t.left;
    assert Distinct(c) && (c.Bin? ==> Distinct(c.left) && Distinct(c.right));
  }

  lemma {:induction false} SplicedAt(p: Path, t: Tree, root: Node?, m: Memory, root': Node?, w: Memory)
    requires t.Bin? && (t.left.Leaf? || t.right.Leaf?) && At(p, t, root, m)
    requires w.Keys == m.Keys - {t.node}
    requires var c := if t.left.Leaf? then t.right else t.left;
      && Covers(m, w, {t.node} + TopNode(c) + TopStep(p)) && ChildChanged(p, root, m, Ref(c), root', w)
      && (c.Bin? ==> c.node in m && c.node in w && w[c.node] == m[c.node].(parent := PathRef(p), black := t.black))
    ensures At(p, Spliced(t), root', w)
  {
    var c := if t.left.Leaf? then t.right else t.left;
    SplicedApart(p, t);
    var x := {t.node} + TopNode(c) + TopStep(p);
    SpellsMoved(c, t.node, m, PathRef(p), t.black, w, x);
    SpellsPathChanged(p, root, t.node, m, Ref(c), root', w, x);
  }

  /** `s` takes over the links and colour of `n`, whose children are `l` and `r`, as in rb_replace_node. */
  ghost predicate Renamed(m: Memory, root: Node?, w: Memory, root': Node?, n: Node, s: Node, l: Node?, r: Node?) {
    && n in m && s !in m && w.Keys == m.Keys - {n} + {s} && w[s] == m[n]
    && Covers(m, w, {n} + Opt(l) + Opt(r) + Opt(m[n].parent))
    && (l != null ==> l in m && l in w && w[l] == m[l].(parent := s))
    && (r != null ==> r in m && r in w && w[r] == m[r].(parent := s))
    && Redirected(m, root, w, root', n, s, m[n].parent)
  }

  /** __rb_change_child finds the hole by looking for the old child. */
  lemma {:induction false} RedirectedHole(p: Path, t: Tree, root: Node?, m: Memory, new_: Node?, root': Node?,
      w: Memory)
    requires t.Bin? && At(p, t, root, m) && t.node in m && Redirected(m, root, w, root', t.node, new_, m[t.node].parent)
    ensures ChildChanged(p, root, m, new_, root', w)
  {
    assert p.Step? && p.sibling.Bin? ==> p.sibling.node in Nodes(p.sibling);
  }

  lemma {:induction false} RenamedTree(p: Path, t: Tree, s: Node, root: Node?, m: Memory, root': Node?, w: Memory)
    requires t.Bin? && At(p, t, root, m) && Renamed(m, root, w, root', t.node, s, Ref(t.left), Ref(t.right))
    ensures Spells(Bin(t.left, s, t.black, t.right), PathRef(p), w)
  {
    var x := {t.node} + TopNode(t.left) + TopNode(t.right) + TopStep(p);
    assert Spells(t.left, t.node, m) && Spells(t.right, t.node, m);
    SpellsMoved(t.left, t.node, m, s, IsBlack(t.left), w, x);
    SpellsMoved(t.right, t.node, m, s, IsBlack(t.right), w, x);
  }

  lemma {:induction false} RenamedPath(p: Path, t: Tree, s: Node, root: Node?, m: Memory, root': Node?, w: Memory)
    requires t.Bin? && At(p, t, root, m) && Renamed(m, root, w, root', t.node, s, Ref(t.left), Ref(t.right))
    ensures SpellsPath(p, root', s, w)
  {
    var x := {t.node} + TopNode(t.left) + TopNode(t.right) + TopStep(p);
    RedirectedHole(p, t, root, m, s, root', w);
    SpellsPathChanged(p, root, t.node, m, s, root', w, x);
  }

  lemma {:induction false} RenamedAt(p: Path, t: Tree, s: Node, root: Node?, m: Memory, root': Node?, w: Memory)
    requires t.Bin? && At(p, t, root, m) && Renamed(m, root, w, root', t.node, s, Ref(t.left), Ref(t.right))
    ensures At(p, Bin(t.left, s, t.black, t.right), root', w)
  {
    RenamedTree(p, t, s, root, m, root', w);
    RenamedPath(p, t, s, root, m, root', w);
  }

  // ------------------------------------------------- paths within a subtree

  lemma {:induction false} GraftAt(d: Path, base: Path, t: Tree, root: Node?, m: Memory)
    ensures At(Graft(d, base), t, root, m) <==> At(base, Plug(d, t), root, m)
  {
    GraftPlug(d, base, t);
    PlugAt(Graft(d, base), t, root, m);
    PlugAt(base, Plug(d, t), root, m);
  }

  /** Which node stands in a place does not matter to the balance. */
  lemma {:induction false} GraftBalanced(d: Path, base: Path, n: Node, h: nat)
    requires base.Step?
    ensures PathBalanced(Graft(d, base), h) <==> PathBalanced(Graft(d, base.(node := n)), h)
    ensures AcceptsRed(Graft(d, base)) <==> AcceptsRed(Graft(d, base.(node := n)))
    decreases d
  {
    if d.Step? {
      GraftBalanced(d.up, base, n, if d.black then h + 1 else h);
    }
  }

  /** Only left turns: the hole of such a path comes first in the subtree. */
  ghost predicate LeftSpine(d: Path) {
    d.Step? ==> d.inLeft && LeftSpine(d.up)
  }

  lemma {:induction false} LeftSpineFirst(d: Path)
    requires LeftSpine(d)
    ensures Before(d) == []
    decreases d
  {
    if d.Step? {
      LeftSpineFirst(d.up);
    }
  }

  // ------------------------------------------------------- two children

  /** The way to the successor of `t`'s node, with the successor `s` already in that node's place. */
  ghost function SuccessorPath(p: Path, t: Tree, d: Path, s: Node): Path
    requires t.Bin?
  {
    Graft(d, Step(false, s, t.black, t.left, p))
  }

  /**
   * What erasing `n` with successor `s` does to memory before any rebalancing: `par` loses
   * its child `s` to `c`, and `s` replaces `n`.
   */
  ghost predicate Promoted(m: Memory, root: Node?, w: Memory, root': Node?, n: Node, s: Node, par: Node, c: Node?,
      deep: bool) {
    && n in m && s in m && par in m && m[n].left != null && m[n].right != null && m[n].left in m && m[n].right in m
    && var l: Node := m[n].left; var child: Node := m[n].right;
    && Agree(m, w, {s, child, par, l} + Opt(c) + Opt(m[n].parent))
    && w[s] == Cell(l, if deep then child else c, m[n].parent, m[n].black)
    && w[l] == m[l].(parent := s)
    && (deep ==> w[par] == (if par == child then m[par].(left := c, parent := s) else m[par].(left := c)))
    && (deep && par != child ==> w[child] == m[child].(parent := s))
    && (c != null ==> c in m && w[c] == m[c].(parent := par, black := true))
    && Redirected(m, root, w, root', n, s, m[n].parent)
  }

  /** Memory after taking `s` out from below `par`, with its own child `c` in its place and colour. */
  ghost function Without(m: Memory, par: Node, left: bool, s: Node, c: Node?, black: bool): Memory
    requires par in m && (c != null ==> c in m)
  {
    var a := m[par := WithChild(m[par], left, c)];
    (if c == null then a else a[c := a[c].(parent := par, black := black)]) - {s}
  }

  lemma {:induction false} WithoutAt(q: Path, u: Tree, root: Node?, m: Memory)
    requires q.Step? && u.Bin? && u.left.Leaf? && At(q, u, root, m)
    ensures q.node in m && (u.right.Bin? ==> u.right.node in m)
    ensures At(q, Spliced(u), root, Without(m, q.node, q.inLeft, u.node, Ref(u.right), u.black))
  {
    assert Spells(u.right, u.node, m);
    assert u.right.Bin? ==> u.right.node in Nodes(u);
    SplicedAt(q, u, root, m, root, Without(m, q.node, q.inLeft, u.node, Ref(u.right), u.black));
  }

  /** Away from `n` and its neighbours, the promotion only takes `s` out: below `n` itself ... */
  lemma {:induction false} PromotedShallow(m: Memory, root: Node?, w: Memory, root': Node?, n: Node, s: Node, c: Node?)
    requires Promoted(m, root, w, root', n, s, s, c, false) && n != s && m[n].right == s && m[n].left != s &&
      m[n].left != n
    requires c != null ==> c !in {n, s, m[n].left, m[n].parent}
    requires m[n].parent !in {n, s, m[n].left}
    ensures Renamed(Without(m, n, false, s, c, true), root, w - {n}, root', n, s, m[n].left, c)
  {
  }

  /** ... or deeper. */
  lemma {:induction false} PromotedDeep(m: Memory, root: Node?, w: Memory, root': Node?, n: Node, s: Node, par: Node,
      c: Node?)
    requires Promoted(m, root, w, root', n, s, par, c, true) && n != s && m[n].left !in {s, n, par, m[n].right} &&
      par !in {n, s}
    requires m[n].right !in {n, s} && m[n].parent !in {n, s, par, m[n].left, m[n].right}
    requires c != null ==> c !in {n, s, par, m[n].left, m[n].right, m[n].parent}
    ensures Renamed(Without(m, par, true, s, c, true), root, w - {n}, root', n, s, m[n].left, m[n].right)
  {
  }

  lemma {:induction false} PlugRef(d: Path, t: Tree, u: Tree)
    requires d.Step?
    ensures Ref(Plug(d, t)) == Ref(Plug(d, u)) && Plug(d, t).Bin? && Plug(d, u).Bin? && Plug(d, t).node in PathNodes(d)
    decreases d
  {
    if d.up.Step? {
      PlugRef(d.up, Join(d.inLeft, t, d.node, d.black, d.sibling), Join(d.inLeft, u, d.node, d.black, d.sibling));
    }
  }

  lemma {:induction false} GraftNodes(d: Path, base: Path)
    ensures PathNodes(Graft(d, base)) == PathNodes(d) + PathNodes(base)
    ensures PathDistinct(Graft(d, base)) ==> PathNodes(d) !! PathNodes(base)
    decreases d
  {
    if d.Step? {
      GraftNodes(d.up, base);
    }
  }

  /** One level down on the right. */
  ghost function RightOf(p: Path, t: Tree): Path
    requires t.Bin?
  {
    Step(false, t.node, t.black, t.left, p)
  }

  lemma {:induction false} DownAt(p: Path, t: Tree, root: Node?, m: Memory)
    requires t.Bin?
    ensures At(p, t, root, m) <==> At(RightOf(p, t), t.right, root, m)
  {
  }

  /** The nodes around the erased node and its successor, and that they differ. */
  lemma {:induction false} OpenPromoted(p: Path, t: Tree, d: Path, u: Tree, root: Node?, m: Memory)
    requires t.Bin? && t.left.Bin? && u.Bin? && t.right == Plug(d, u) && At(p, t, root, m) && u.left.Leaf?
    ensures At(Graft(d, RightOf(p, t)), u, root, m)
    ensures var n := t.node; var s := u.node; var l := t.left.node;
      && n in m && s in m && l in m && Ref(t.right) != null && Ref(t.right) in m
      && m[n] == Cell(l, Ref(t.right), PathRef(p), t.black) && m[l].parent == n
      && n != s && n != l && s != l && PathRef(p) !in {n, s, l} && (PathRef(p) != null ==> PathRef(p) in m)
    ensures d.Top? ==> t.right == u && m[u.node] == Cell(null, Ref(u.right), t.node, u.black)
    ensures d.Step? ==> d.node in m && m[u.node] == Cell(null, Ref(u.right), d.node, u.black)
    ensures d.Step? ==> d.node !in {t.node, u.node, t.left.node} && d.node != PathRef(p)
    ensures d.Step? ==> Ref(t.right) !in {t.node, u.node, t.left.node} && Ref(t.right) != PathRef(p)
    ensures u.right.Bin? ==> var c := u.right.node;
      c in m && c !in {t.node, u.node, t.left.node} && c != PathRef(p) && c != Ref(t.right) && (d.Step? ==> c != d.node)
  {
    DownAt(p, t, root, m);
    GraftAt(d, RightOf(p, t), u, root, m);
    GraftNodes(d, RightOf(p, t));
    if d.Step? {
      PlugRef(d, u, u);
    }
    assert Spells(t.left, t.node, m) && Spells(u.right, u.node, m);
    assert u.node in Nodes(u) && t.left.node in Nodes(t.left);
    assert u.right.Bin? ==> u.right.node in Nodes(u);
  }

  ghost predicate Successor(p: Path, t: Tree, d: Path, u: Tree) {
    && t.Bin? && t.left.Bin? && u.Bin? && t.right == Plug(d, u) && LeftSpine(d) && u.left.Leaf? &&
      (u.right.Bin? ==> u.black)
  }

  /** Next to the memory without the successor, the final memory only renames `n` to `s`. */
  lemma {:induction false} PromotedRenames(p: Path, t: Tree, d: Path, u: Tree, root: Node?, m: Memory, root': Node?,
      w: Memory, v: Memory, x: Tree)
    requires Successor(p, t, d, u) && At(p, t, root, m) && x == Plug(d, Spliced(u))
    requires Promoted(m, root, w, root', t.node, u.node, if d.Step? then d.node else u.node, Ref(u.right), d.Step?)
    requires var q := Graft(d, RightOf(p, t));
      q.node in m && (u.right.Bin? ==> u.right.node in m) &&
        v == Without(m, q.node, q.inLeft, u.node, Ref(u.right), true)
    requires At(p, Bin(t.left, t.node, t.black, x), root, v)
    ensures At(p, Bin(t.left, u.node, t.black, x), root', w - {t.node})
  {
    var n, s, l, z := t.node, u.node, t.left.node, w - {t.node};
    OpenPromoted(p, t, d, u, root, m);
    if d.Step? {
      PlugRef(d, u, Spliced(u));
      PromotedDeep(m, root, w, root', n, s, d.node, Ref(u.right));
    } else {
      PromotedShallow(m, root, w, root', n, s, Ref(u.right));
    }
    RenamedAt(p, Bin(t.left, n, t.black, x), s, root, v, root', z);
  }

  /** Erasing a node with two children, up to the rebalancing. */
  lemma {:induction false} PromotedAt(p: Path, t: Tree, d: Path, u: Tree, root: Node?, m: Memory, root': Node?,
      w: Memory)
    requires Successor(p, t, d, u) && At(p, t, root, m)
    requires Promoted(m, root, w, root', t.node, u.node, if d.Step? then d.node else u.node, Ref(u.right), d.Step?)
    ensures At(SuccessorPath(p, t, d, u.node), Spliced(u), root', w - {t.node})
  {
    var q, x := Graft(d, RightOf(p, t)), Plug(d, Spliced(u));
    OpenPromoted(p, t, d, u, root, m);
    WithoutAt(q, u, root, m);
    var v := Without(m, q.node, q.inLeft, u.node, Ref(u.right), true);
    assert u.right.Leaf? ==> v == Without(m, q.node, q.inLeft, u.node, Ref(u.right), u.black);
    GraftAt(d, RightOf(p, t), Spliced(u), root, v);
    DownAt(p, Bin(t.left, t.node, t.black, x), root, v);
    PromotedRenames(p, t, d, u, root, m, root', w, v, x);
    DownAt(p, Bin(t.left, u.node, t.black, x), root', w - {t.node});
    GraftAt(d, RightOf(p, Bin(t.left, u.node, t.black, x)), Spliced(u), root', w - {t.node});
  }

  // -------------------------------------------------------- the pointers

  /** The part of the erasure common to both places a successor can be in. */
  ghost predicate Replaced(m: Memory, root: Node?, w: Memory, root': Node?, n: Node, s: Node, par: Node, c: Node?) {
    && n in m && s in m && m[n].left != null && m[n].left in m
    && var l: Node := m[n].left;
    && Agree(m, w, {s, l} + Opt(c) + Opt(m[n].parent))
    && w[s] == Cell(l, m[s].right, m[n].parent, m[n].black) && w[l] == m[l].(parent := s)
    && (c != null ==> c in m && w[c] == m[c].(parent := par, black := true))
    && Redirected(m, root, w, root', n, s, m[n].parent)
  }

  /** The links by which the successor takes over the left subtree and the place of `n`. */
  ghost predicate Adopted(m: Memory, root: Node?, a: Memory, root': Node?, n: Node, s: Node) {
    && n in m && s in m && m[n].left != null && m[n].left in m && Agree(m, a, {s, m[n].left} + Opt(m[n].parent))
    && a[s] == m[s].(left := m[n].left) && a[m[n].left] == m[m[n].left].(parent := s)
    && Redirected(m, root, a, root', n, s, m[n].parent)
  }

  method AdoptLinks(node: Node, successor: Node, root: Root, ghost S: set<Node>)
    requires node in S && successor in S && node.left != null && node.left in S &&
      (node.parent != null ==> node.parent in S)
    requires node.left != successor && node.left != node && node.parent != node.left && node.parent != successor &&
      node.parent != node && node != successor
    modifies root, S
    ensures Adopted(old(Snapshot(S)), old(root.node), Snapshot(S), root.node, node, successor)
  {
    var tmp: Node := node.left;
    successor.left := tmp;
    tmp.parent := successor;
    ChangeChild(node, successor, node.parent, root);
  }

  /** The parents and colours of the successor and of its own child. */
  ghost predicate Coloured(a: Memory, w: Memory, s: Node, pp: Node?, black: bool, par: Node, c: Node?) {
    && s in a && Agree(a, w, {s} + Opt(c)) && w[s] == a[s].(parent := pp, black := black)
    && (c != null ==> c in a && w[c] == a[c].(parent := par, black := true))
  }

  method TakeColour(node: Node, successor: Node, parent: Node, child2: Node?, ghost S: set<Node>)
      returns (rebalance: Node?)
    requires successor in S && (child2 != null ==> child2 in S && child2 != successor)
    modifies S
    ensures Coloured(old(Snapshot(S)), Snapshot(S), successor, old(node.parent), old(node.black), parent, child2)
    ensures rebalance == if child2 == null && old(successor.black) then parent else null
  {
    var pc, black := node.parent, node.black;
    if child2 != null {
      successor.parent, successor.black := pc, black;
      child2.parent, child2.black := parent, true;
      rebalance := null;
    } else {
      var black2 := successor.black;
      successor.parent, successor.black := pc, black;
      rebalance := if black2 then parent else null;
    }
  }

  lemma {:induction false} AdoptedAndColoured(m: Memory, root: Node?, a: Memory, root': Node?, w: Memory, n: Node,
      s: Node, par: Node, c: Node?)
    requires Adopted(m, root, a, root', n, s) && Coloured(a, w, s, m[n].parent, m[n].black, par, c)
    requires n != s && m[n].left !in {n, s} && m[n].parent !in {n, s, m[n].left}
    requires c != null ==> c !in {n, s, m[n].left, m[n].parent}
    ensures Replaced(m, root, w, root', n, s, par, c)
  {
  }

  method ReplaceBySuccessor(node: Node, successor: Node, parent: Node, child2: Node?, root: Root, ghost S: set<Node>)
      returns (rebalance: Node?)
    requires node in S && successor in S && parent in S && node != successor && parent != node
    requires node.left != null && node.left in S && (node.parent != null ==> node.parent in S) &&
      (child2 != null ==> child2 in S)
    requires node.left != successor && node.left != node && node.parent != node.left && node.parent != successor &&
      node.parent != node
    requires child2 != null ==> child2 !in {node, successor} && child2 != node.left && child2 != node.parent
    modifies root, S
    ensures Replaced(old(Snapshot(S)), old(root.node), Snapshot(S), root.node, node, successor, parent, child2)
    ensures rebalance == if child2 == null && old(successor.black) then parent else null
  {
    ghost var m, r := Snapshot(S), root.node;
    AdoptLinks(node, successor, root, S);
    ghost var a := Snapshot(S);
    assert a[node] == m[node] && a[successor].black == m[successor].black;
    rebalance := TakeColour(node, successor, parent, child2, S);
    AdoptedAndColoured(m, r, a, root.node, Snapshot(S), node, successor, parent, child2);
  }

  /** Case 3 of the erasure first takes the successor out of the right subtree. */
  ghost predicate Unlinked(m: Memory, w: Memory, n: Node, s: Node, par: Node) {
    && n in m && s in m && par in m && m[n].right != null && m[n].right in m
    && var child: Node := m[n].right;
    && Agree(m, w, {s, par, child})
    && w[s] == m[s].(right := child)
    && w[par] == (if par == child then m[par].(left := m[s].right, parent := s) else m[par].(left := m[s].right))
    && (par != child ==> w[child] == m[child].(parent := s))
  }

  method UnlinkSuccessor(node: Node, successor: Node, parent: Node, child: Node, ghost S: set<Node>)
      returns (child2: Node?)
    requires node in S && successor in S && parent in S && child in S && node.right == child
    requires successor != parent && successor != child && node !in {successor, parent, child}
    modifies S
    ensures child2 == old(successor.right)
    ensures Unlinked(old(Snapshot(S)), Snapshot(S), node, successor, parent)
  {
    child2 := successor.right;
    parent.left := child2;
    successor.right := child;
    child.parent := successor;
  }

  lemma {:induction false} ReplacedIsPromoted(m: Memory, root: Node?, w: Memory, root': Node?, n: Node, s: Node)
    requires s in m && Replaced(m, root, w, root', n, s, s, m[s].right) && n != s && m[n].right == s
    ensures Promoted(m, root, w, root', n, s, s, m[s].right, false)
  {
  }

  lemma {:induction false} UnlinkedAndReplaced(m: Memory, a: Memory, root: Node?, w: Memory, root': Node?, n: Node,
      s: Node, par: Node)
    requires Unlinked(m, a, n, s, par) && Replaced(a, root, w, root', n, s, par, m[s].right)
    requires n !in {s, par} && s != par && m[n].right !in {n, s} && m[n].left !in {n, s, par, m[n].right}
    requires m[n].parent !in {n, s, par, m[n].left, m[n].right}
    requires m[s].right != null ==> m[s].right in m && m[s].right !in {n, s, par, m[n].left, m[n].right, m[n].parent}
    ensures Promoted(m, root, w, root', n, s, par, m[s].right, true)
  {
  }

  /** Case 1 of the erasure: `c` gets the place, parent and colour of `n`. */
  method ReplaceByChild(node: Node, child: Node?, root: Root, ghost S: set<Node>) returns (rebalance: Node?)
    requires node in S && (node.parent != null ==> node.parent in S && node.parent != node)
    requires child != null ==> child in S && child != node && child != node.parent
    modifies root, S
    ensures var m := old(Snapshot(S)); var w := Snapshot(S);
      && Agree(m, w, Opt(child) + Opt(m[node].parent))
      && (child != null ==> w[child] == m[child].(parent := m[node].parent, black := m[node].black))
      && Redirected(m, old(root.node), w, root.node, node, child, m[node].parent)
    ensures rebalance == if child == null && old(node.black) then old(node.parent) else null
  {
    var parent, black := node.parent, node.black;
    ChangeChild(node, child, parent, root);
    if child != null {
      child.parent, child.black := parent, black;
      rebalance := null;
    } else {
      rebalance := if black then parent else null;
    }
  }

  // ------------------------------------------------------- the operation

  /** The order without the node at the hole. */
  ghost function OrderWithout(p: Path, t: Tree): seq<Node>
    requires t.Bin?
  {
    Before(p) + Inorder(t.left) + Inorder(t.right) + After(p)
  }

  /** After taking the node out: red-black, or short exactly below `rebalance`. */
  ghost predicate Taken(q: Path, u: Tree, k: nat, rebalance: Node?) {
    if rebalance == null then PathBalanced(q, k) && Balanced(u, k) && IsBlack(u)
    else Short(q, u, k) && u.Leaf? && q.node == rebalance
  }

  /** The node to rebalance at, if the place `q` lost the black node `u`. */
  ghost function ShortBelow(q: Path, u: Tree): Node?
    requires u.Bin?
  {
    if Spliced(u).Leaf? && u.black then PathRef(q) else null
  }

  lemma {:induction false} SplicedTaken(q: Path, u: Tree) returns (k: nat)
    requires u.Bin? && (u.left.Leaf? || u.right.Leaf?) && IsRedBlack(Plug(q, u))
    ensures Taken(q, Spliced(u), k, ShortBelow(q, u)) && (Spliced(u).Bin? ==> u.black)
  {
    var g: nat :| RedBlack(Plug(q, u), g);
    var h := UnplugRedBlack(q, u, g);
    SplicedBalanced(q, u, h);
    k := if Spliced(u).Leaf? && u.black then 0 else h;
  }

  lemma {:induction false} SuccessorTaken(p: Path, t: Tree, d: Path, u: Tree) returns (k: nat)
    requires t.Bin? && u.Bin? && t.right == Plug(d, u) && u.left.Leaf? && IsRedBlack(Plug(p, t))
    ensures u.right.Bin? ==> u.black
    ensures var q := SuccessorPath(p, t, d, u.node); Taken(q, Spliced(u), k, ShortBelow(q, u))
  {
    var base := RightOf(p, t);
    GraftPlug(d, base, u);
    k := SplicedTaken(Graft(d, base), u);
    GraftBalanced(d, base, u.node, k);
    GraftBalanced(d, base, u.node, k + 1);
  }

  lemma {:induction false} SplicedOrder(q: Path, u: Tree)
    requires u.Bin? && (u.left.Leaf? || u.right.Leaf?)
    ensures Inorder(Plug(q, Spliced(u))) == OrderWithout(q, u)
  {
    var l, r := Inorder(u.left), Inorder(u.right);
    PlugInorder(q, Spliced(u));
    if u.left.Leaf? {
      assert Inorder(Spliced(u)) == r;
      assert Before(q) + l == Before(q);
    } else {
      assert Inorder(Spliced(u)) == l;
      assert Before(q) + l + r == Before(q) + l;
    }
  }

  lemma {:induction false} Reassociate(x: seq<Node>, l: seq<Node>, s: seq<Node>, a: seq<Node>, z: seq<Node>,
      y: seq<Node>)
    ensures [] + (s + a) + z == s + a + z && x + l + (s + a + z) + y == (x + l + s) + a + (z + y)
  {
  }

  lemma {:induction false} SuccessorOrder(p: Path, t: Tree, d: Path, u: Tree)
    requires Successor(p, t, d, u)
    ensures Inorder(Plug(SuccessorPath(p, t, d, u.node), Spliced(u))) == OrderWithout(p, t)
  {
    var base := Step(false, u.node, t.black, t.left, p);
    PlugInorder(d, u);
    LeftSpineFirst(d);
    GraftBefore(d, base);
    PlugInorder(Graft(d, base), Spliced(u));
    var s, a, z := [u.node], Inorder(u.right), After(d);
    assert Inorder(u) == [] + s + a == s + a;
    Reassociate(Before(p), Inorder(t.left), s, a, z, After(p));
    assert Inorder(Spliced(u)) == a;
  }

  /** Case 1: at most one child. */
  method EraseSingle(node: Node, child: Node?, root: Root, ghost p: Path, ghost t: Tree, ghost S: set<Node>)
      returns (rebalance: Node?, ghost k: nat)
    requires At(p, t, root.node, Snapshot(S)) && t.Bin? && t.node == node && IsRedBlack(Plug(p, t))
    requires (t.left.Leaf? && child == Ref(t.right)) || (t.right.Leaf? && child == Ref(t.left))
    modifies root, S
    ensures At(p, Spliced(t), root.node, Snapshot(S - {node})) && Taken(p, Spliced(t), k, rebalance)
    ensures Inorder(Plug(p, Spliced(t))) == OrderWithout(p, t)
  {
    ghost var m, r := Snapshot(S), root.node;
    ghost var c := if t.left.Leaf? then t.right else t.left;
    assert Spells(c, node, m);
    assert c.Bin? ==> c.node in Nodes(c);
    rebalance := ReplaceByChild(node, child, root, S);
    ghost var w := Snapshot(S);
    RedirectedHole(p, t, r, m, child, root.node, w);
    assert Snapshot(S - {node}) == w - {node};
    assert child != null ==>
      child in m && child in w - {node} &&
      (w - {node})[child] == m[child].(parent := PathRef(p), black := t.black);
    assert Covers(m, w - {node}, {node} + TopNode(c) + TopStep(p));
    SplicedAt(p, t, r, m, root.node, w - {node});
    k := SplicedTaken(p, t);
    SplicedOrder(p, t);
  }

  /** Case 2: the successor is the right child. */
  method EraseShallow(node: Node, successor: Node, root: Root, ghost p: Path, ghost t: Tree, ghost S: set<Node>)
      returns (rebalance: Node?)
    requires At(p, t, root.node, Snapshot(S)) && t.Bin? && t.right.Bin? && Successor(p, t, Top, t.right)
    requires t.node == node && t.right.node == successor
    modifies root, S
    ensures At(SuccessorPath(p, t, Top, successor), Spliced(t.right), root.node, Snapshot(S - {node}))
    ensures rebalance == ShortBelow(SuccessorPath(p, t, Top, successor), t.right)
  {
    hide At;
    ghost var m, r := Snapshot(S), root.node;
    OpenPromoted(p, t, Top, t.right, r, m);
    var child2 := successor.right;
    rebalance := ReplaceBySuccessor(node, successor, successor, child2, root, S);
    ReplacedIsPromoted(m, r, Snapshot(S), root.node, node, successor);
    PromotedAt(p, t, Top, t.right, r, m, root.node, Snapshot(S));
    assert Snapshot(S - {node}) == Snapshot(S) - {node};
  }

  method PromoteDeep(node: Node, successor: Node, parent: Node, child: Node, root: Root, ghost S: set<Node>)
      returns (rebalance: Node?)
    requires node in S && successor in S && parent in S && child in S && node.right == child && node.left != null &&
      node.left in S
    requires node !in {successor, parent} && successor != parent && child !in {node, successor} &&
      node.left !in {node, successor, parent, child}
    requires node.parent !in {node, successor, parent, node.left, child} && (node.parent != null ==> node.parent in S)
    requires var c := successor.right; c != null ==>
      c in S && c !in {node, successor, parent, node.left, child, node.parent}
    modifies root, S
    ensures Promoted(old(Snapshot(S)), old(root.node), Snapshot(S), root.node, node, successor, parent,
      old(successor.right), true)
    ensures rebalance == if old(successor.right) == null && old(successor.black) then parent else null
  {
    ghost var m, r := Snapshot(S), root.node;
    var child2 := UnlinkSuccessor(node, successor, parent, child, S);
    ghost var a := Snapshot(S);
    assert a[node] == m[node] && a[successor] == m[successor].(right := child);
    rebalance := ReplaceBySuccessor(node, successor, parent, child2, root, S);
    UnlinkedAndReplaced(m, a, r, Snapshot(S), root.node, node, successor, parent);
  }

  /** Case 3: the successor is leftmost under the right child. */
  method EraseDeep(node: Node, successor: Node, parent: Node, child: Node, root: Root, ghost p: Path, ghost t: Tree,
      ghost d: Path, ghost u: Tree, ghost S: set<Node>)
      returns (rebalance: Node?)
    requires At(p, t, root.node, Snapshot(S)) && Successor(p, t, d, u) && d.Step?
    requires t.node == node && u.node == successor && d.node == parent && Ref(t.right) == child
    modifies root, S
    ensures At(SuccessorPath(p, t, d, successor), Spliced(u), root.node, Snapshot(S - {node}))
    ensures rebalance == ShortBelow(SuccessorPath(p, t, d, successor), u)
  {
    hide At;
    ghost var m, r := Snapshot(S), root.node;
    OpenPromoted(p, t, d, u, r, m);
    rebalance := PromoteDeep(node, successor, parent, child, root, S);
    PromotedAt(p, t, d, u, r, m, root.node, Snapshot(S));
    assert Snapshot(S - {node}) == Snapshot(S) - {node};
  }

  /** The leftmost node under the right child, and the way to it. */
  method FindSuccessor(child: Node, tmp0: Node, root: Root, ghost p: Path, ghost t: Tree, ghost S: set<Node>)
      returns (successor: Node, parent: Node, ghost d: Path, ghost u: Tree)
    requires At(p, t, root.node, Snapshot(S)) && t.Bin? && Ref(t.right) == child && Ref(t.right.left) == tmp0
    ensures d.Step? && LeftSpine(d) && d.node == parent && t.right == Plug(d, u)
    ensures u.Bin? && u.left.Leaf? && u.node == successor
    ensures Inorder(t.right) != [] && successor == Inorder(t.right)[0]
  {
    ghost var m, base := Snapshot(S), RightOf(p, t);
    DownAt(p, t, root.node, m);
    parent, successor := child, tmp0;
    d, u := Step(true, t.right.node, t.right.black, t.right.right, Top), t.right.left;
    GraftAt(d, base, u, root.node, m);
    var tmp := successor.left;
    while tmp != null
      invariant d.Step? && LeftSpine(d) && d.node == parent && t.right == Plug(d, u) && u.Bin? && u.node == successor
      invariant At(Graft(d, base), u, root.node, m) && tmp == Ref(u.left)
      decreases u
    {
      parent := successor;
      successor := tmp;
      d, u := Step(true, u.node, u.black, u.right, d), u.left;
      GraftAt(d, base, u, root.node, m);
      GraftAt(d.up, base, Plug(Step(true, d.node, d.black, d.sibling, Top), u), root.node, m);
      tmp := successor.left;
    }
    SpineFirst(d, u);
  }

  /** Down a left spine, a node without left child is the first of all. */
  lemma {:induction false} SpineFirst(d: Path, u: Tree)
    requires LeftSpine(d) && u.Bin? && u.left.Leaf?
    ensures Inorder(Plug(d, u)) != [] && Inorder(Plug(d, u))[0] == u.node
  {
    LeftSpineFirst(d);
    PlugInorder(d, u);
    assert Inorder(u) == [u.node] + Inorder(u.right);
  }

  /** __rb_erase_augmented, from any red-black tree. */
  method EraseAugmented(node: Node, root: Root, ghost p: Path, ghost t: Tree, ghost S: set<Node>)
      returns (rebalance: Node?, ghost q: Path, ghost u: Tree, ghost k: nat)
    requires At(p, t, root.node, Snapshot(S)) && t.Bin? && t.node == node && IsRedBlack(Plug(p, t))
    modifies root, S
    ensures At(q, u, root.node, Snapshot(S - {node})) && Taken(q, u, k, rebalance)
    ensures Inorder(Plug(q, u)) == OrderWithout(p, t)
  {
    var child, tmp := node.right, node.left;
    if tmp == null {
      rebalance, k := EraseSingle(node, child, root, p, t, S);
      q, u := p, Spliced(t);
    } else if child == null {
      rebalance, k := EraseSingle(node, tmp, root, p, t, S);
      q, u := p, Spliced(t);
    } else {
      ghost var d, v;
      assert Spells(t.right, node, Snapshot(S));
      tmp := child.left;
      if tmp == null {
        d, v := Top, t.right;
        k := SuccessorTaken(p, t, d, v);
        rebalance := EraseShallow(node, child, root, p, t, S);
      } else {
        var successor, parent;
        successor, parent, d, v := FindSuccessor(child, tmp, root, p, t, S);
        k := SuccessorTaken(p, t, d, v);
        rebalance := EraseDeep(node, successor, parent, child, root, p, t, d, v, S);
      }
      SuccessorOrder(p, t, d, v);
      q, u := SuccessorPath(p, t, d, v.node), Spliced(v);
    }
  }

  /**
   * rb_erase: from any red-black tree, leaves a red-black tree with every other node in
   * the same order, every parent link consistent.
   */
  method Erase(node: Node, root: Root, ghost p: Path, ghost t: Tree, ghost S: set<Node>) returns (ghost result: Tree)
    requires At(p, t, root.node, Snapshot(S)) && t.Bin? && t.node == node && IsRedBlack(Plug(p, t))
    modifies root, S
    ensures At(Top, result, root.node, Snapshot(S - {node}))
    ensures IsRedBlack(result)
    ensures Inorder(result) == OrderWithout(p, t)
  {
    var rebalance;
    ghost var q, u, k;
    rebalance, q, u, k := EraseAugmented(node, root, p, t, S);
    if rebalance != null {
      result := EraseColor(rebalance, root, q, u, k, S - {node});
    } else {
      Settled(q, u, k, root.node, Snapshot(S - {node}));
      result := Plug(q, u);
    }
  }
}
