/** Erase rebalancing: `____rb_erase_color`. */
module RbErase {
  import opened RbShape
  import opened RbMemory

  /** The hole's content is black, and one black node short of what the path expects. */
  ghost predicate Short(p: Path, t: Tree, h: nat) {
    p.Step? && IsBlack(t) && Balanced(t, h) && PathBalanced(p, h + 1)
  }

  /** The child of `s` on the side of the hole, and the one on the other side. */
  ghost function Near(inLeft: bool, s: Tree): Tree
    requires s.Bin?
  {
    if inLeft then s.left else s.right
  }

  ghost function Far(inLeft: bool, s: Tree): Tree
    requires s.Bin?
  {
    if inLeft then s.right else s.left
  }

  /** A short hole has a sibling, and a red sibling has black children. */
  lemma {:induction false} SiblingExists(p: Path, t: Tree, h: nat)
    requires Short(p, t, h)
    ensures p.sibling.Bin?
    ensures !p.sibling.black ==>
      p.black && p.sibling.left.Bin? && p.sibling.left.black && p.sibling.right.Bin? &&
      p.sibling.right.black
  {
    if p.sibling.Bin? && !p.sibling.black {
      assert Balanced(p.sibling.left, h + 1) && Balanced(p.sibling.right, h + 1);
    }
  }

  /** The sibling lifted over the parent; the hole is now two levels below where it was one. */
  ghost function LiftedPath(p: Path, black: bool): Path
    requires p.Step? && p.sibling.Bin?
  {
    Step(p.inLeft, p.node, black, Near(p.inLeft, p.sibling),
      Step(p.inLeft, p.sibling.node, p.black, Far(p.inLeft, p.sibling), p.up))
  }

  /** Case 3: the sibling's near child becomes the sibling. */
  ghost function InnerPath(p: Path): Path
    requires p.Step? && p.sibling.Bin? && Near(p.inLeft, p.sibling).Bin?
  {
    var s := p.sibling;
    var x := Near(p.inLeft, s);
    p.(sibling := Join(p.inLeft, Near(p.inLeft, x), x.node, true,
      Join(p.inLeft, Far(p.inLeft, x), s.node, false, Far(p.inLeft, s))))
  }

  ghost function FarBlack(p: Path): Path
    requires p.Step? && p.sibling.Bin?
  {
    var s := p.sibling;
    p.(sibling := Join(p.inLeft, Near(p.inLeft, s), s.node, s.black, Recoloured(Far(p.inLeft, s), true)))
  }

  lemma {:induction false} LiftedOrder(p: Path, t: Tree, black: bool)
    requires p.Step? && p.sibling.Bin?
    ensures Inorder(Plug(LiftedPath(p, black), t)) == Inorder(Plug(p, t))
  {
    var s, q := p.sibling, LiftedPath(p, black);
    var low := Join(p.inLeft, t, p.node, black, Near(p.inLeft, s));
    var u, v := Join(p.inLeft, t, p.node, p.black, s), Join(p.inLeft, low, s.node, p.black, Far(p.inLeft, s));
    if p.inLeft {
      Around(Inorder(t), p.node, Inorder(s.left), s.node, Inorder(s.right));
    } else {
      Around(Inorder(s.left), s.node, Inorder(s.right), p.node, Inorder(t));
    }
    PlugKeepsOrder(p.up, u, v);
    assert Plug(q, t) == Plug(p.up, v);
  }

  lemma {:induction false} SiblingKeepsOrder(p: Path, t: Tree, s: Tree)
    requires p.Step? && Inorder(s) == Inorder(p.sibling)
    ensures Inorder(Plug(p.(sibling := s), t)) == Inorder(Plug(p, t))
  {
    PlugKeepsOrder(p.up, Join(p.inLeft, t, p.node, p.black, s), Join(p.inLeft, t, p.node, p.black, p.sibling));
  }

  lemma {:induction false} InnerOrder(p: Path, t: Tree)
    requires p.Step? && p.sibling.Bin? && Near(p.inLeft, p.sibling).Bin?
    ensures Inorder(Plug(InnerPath(p), t)) == Inorder(Plug(p, t))
  {
    var s := p.sibling;
    var x := Near(p.inLeft, s);
    if p.inLeft {
      Around(Inorder(x.left), x.node, Inorder(x.right), s.node, Inorder(s.right));
    } else {
      Around(Inorder(s.left), s.node, Inorder(x.left), x.node, Inorder(x.right));
    }
    SiblingKeepsOrder(p, t, InnerPath(p).sibling);
  }

  lemma {:induction false} FarBlackOrder(p: Path, t: Tree)
    requires p.Step? && p.sibling.Bin?
    ensures Inorder(Plug(FarBlack(p), t)) == Inorder(Plug(p, t))
  {
    SiblingKeepsOrder(p, t, FarBlack(p).sibling);
  }

  /** Case 1 gives the short hole a black sibling and a red parent. */
  lemma {:induction false} Case1Balanced(p: Path, t: Tree, h: nat)
    requires Short(p, t, h) && p.sibling.Bin? && !p.sibling.black
    ensures Short(LiftedPath(p, false), t, h) && IsBlack(LiftedPath(p, false).sibling)
  {
  }

  /** Case 2: one black node fewer beside the hole as well. */
  lemma {:induction false} Case2Balanced(p: Path, t: Tree, h: nat)
    requires Short(p, t, h) && p.sibling.Bin? && p.sibling.black && IsBlack(p.sibling.left) && IsBlack(p.sibling.right)
    ensures Balanced(p.sibling.(black := false), h)
    ensures !p.black ==> PathBalanced(p.(black := true, sibling := p.sibling.(black := false)), h)
    ensures p.black && p.up.Step? ==> Short(p.up, Join(p.inLeft, t, p.node, true, p.sibling.(black := false)), h + 1)
    ensures p.black ==> Balanced(Join(p.inLeft, t, p.node, true, p.sibling.(black := false)), h + 1)
  {
  }

  /** Case 3 makes the far nephew red. */
  lemma {:induction false} Case3Balanced(p: Path, t: Tree, h: nat)
    requires Short(p, t, h) && p.sibling.Bin? && p.sibling.black
    requires !IsBlack(Near(p.inLeft, p.sibling)) && IsBlack(Far(p.inLeft, p.sibling))
    ensures Short(InnerPath(p), t, h) && InnerPath(p).sibling.black && !IsBlack(Far(p.inLeft, InnerPath(p).sibling))
    ensures IsBlack(Far(p.inLeft, Near(p.inLeft, p.sibling)))
  {
    var s := p.sibling;
    var x := Near(p.inLeft, s);
    assert Balanced(x, h) && Balanced(x.left, h) && Balanced(x.right, h) && Balanced(Far(p.inLeft, s), h);
    assert Balanced(Join(p.inLeft, Far(p.inLeft, x), s.node, false, Far(p.inLeft, s)), h);
  }

  /** Case 4 gives the hole the black node it lacked. */
  lemma {:induction false} Case4Balanced(p: Path, t: Tree, h: nat)
    requires Short(p, t, h) && p.sibling.Bin? && p.sibling.black && !IsBlack(Far(p.inLeft, p.sibling))
    ensures PathBalanced(LiftedPath(FarBlack(p), true), h)
  {
    var f, q := Far(p.inLeft, p.sibling), LiftedPath(FarBlack(p), true);
    assert Balanced(f, h) && Balanced(Recoloured(f, true), h + 1) && Balanced(Near(p.inLeft, p.sibling), h);
    assert PathBalanced(q.up, h + 1);
  }

  // ---------------------------------------------------------------- memory

  /** The links around the hole and its sibling. */
  lemma {:induction false} OpenSibling(p: Path, t: Tree, root: Node?, m: Memory)
    requires p.Step? && p.sibling.Bin? && At(p, t, root, m)
    ensures var s := p.sibling; var g := PathRef(p.up);
      && p.node in m && s.node in m && p.node != s.node
      && m[p.node] == StepCell(p, Ref(t)) && m[s.node] == Cell(Ref(s.left), Ref(s.right), p.node, s.black)
      && g != p.node && g != s.node && (g != null ==> g in m)
      && Ref(t) != s.node && Ref(t) != p.node
      && Ref(s.left) !in {p.node, s.node} && Ref(s.right) !in {p.node, s.node}
      && (s.left.Bin? ==>
        s.left.node in m &&
        m[s.left.node] == Cell(Ref(s.left.left), Ref(s.left.right), s.node, s.left.black) && s.left.node != g &&
        Ref(s.right) != s.left.node)
      && (s.right.Bin? ==>
        s.right.node in m &&
        m[s.right.node] == Cell(Ref(s.right.left), Ref(s.right.right), s.node, s.right.black) && s.right.node != g &&
        Ref(s.left) != s.right.node)
  {
    assert PathDistinct(p.up);
    assert SpellsPath(p.up, root, p.node, m);
    assert Spells(p.sibling.left, p.sibling.node, m) && Spells(p.sibling.right, p.sibling.node, m);
  }

  /** The nodes a rotation of the sibling over the parent touches. */
  ghost function LiftedNodes(p: Path): set<Node>
    requires p.Step? && p.sibling.Bin?
  {
    {p.node, p.sibling.node} + TopNode(Near(p.inLeft, p.sibling)) + TopStep(p.up)
  }

  lemma {:induction false} LiftedAbove(p: Path, t: Tree, root: Node?, m: Memory, root': Node?, w: Memory, black: bool)
    requires p.Step? && p.sibling.Bin? && At(p, t, root, m)
    requires var c := Near(p.inLeft, p.sibling);
      Lifted(m, root, w, root', p.sibling.node, p.node, Ref(c), IsBlack(c), !p.inLeft, black)
    ensures SpellsPath(LiftedPath(p, black).up, root', p.node, w)
  {
    var s, f, x := p.sibling, Far(p.inLeft, p.sibling), LiftedNodes(p);
    assert Nodes(f) !! x;
    SpellsFrame(f, s.node, m, w, x);
    SpellsPathChanged(p.up, root, p.node, m, s.node, root', w, x);
  }

  lemma {:induction false} LiftedBelow(p: Path, t: Tree, root: Node?, m: Memory, root': Node?, w: Memory, black: bool)
    requires p.Step? && p.sibling.Bin? && At(p, t, root, m)
    requires var c := Near(p.inLeft, p.sibling);
      Lifted(m, root, w, root', p.sibling.node, p.node, Ref(c), IsBlack(c), !p.inLeft, black)
    ensures Spells(t, p.node, w) && Spells(Near(p.inLeft, p.sibling), p.node, w)
  {
    var s, c, x := p.sibling, Near(p.inLeft, p.sibling), LiftedNodes(p);
    assert Nodes(t) !! x && Nodes(c) * x <= TopNode(c);
    SpellsFrame(t, p.node, m, w, x);
    SpellsMoved(c, s.node, m, p.node, IsBlack(c), w, x);
  }

  /** Rotating the sibling over the parent. */
  lemma {:induction false} LiftedAt(p: Path, t: Tree, root: Node?, m: Memory, root': Node?, w: Memory, black: bool)
    requires p.Step? && p.sibling.Bin? && At(p, t, root, m)
    requires Separate(LiftedPath(p, black), t) && m.Keys == PathNodes(LiftedPath(p, black)) + Nodes(t)
    requires var c := Near(p.inLeft, p.sibling);
      Lifted(m, root, w, root', p.sibling.node, p.node, Ref(c), IsBlack(c), !p.inLeft, black)
    ensures At(LiftedPath(p, black), t, root', w)
  {
    LiftedAbove(p, t, root, m, root', w, black);
    LiftedBelow(p, t, root, m, root', w, black);
  }

  lemma {:induction false} LiftedStep(p: Path, t: Tree, root: Node?, m: Memory, root': Node?, w: Memory, black: bool)
    requires p.Step? && p.sibling.Bin? && At(p, t, root, m)
    requires var c := Near(p.inLeft, p.sibling);
      Lifted(m, root, w, root', p.sibling.node, p.node, Ref(c), IsBlack(c), !p.inLeft, black)
    ensures At(LiftedPath(p, black), t, root', w)
  {
    LiftedOrder(p, t, black);
    SameOrder(p, t, LiftedPath(p, black), t);
    LiftedAt(p, t, root, m, root', w, black);
  }

  /** What case 3 does: `x` moves up beside `g`'s hole, `s` below it, `c` from `x` to `s`. */
  ghost predicate Shifted(m: Memory, w: Memory, g: Node, s: Node, x: Node, c: Node?, inLeft: bool) {
    && g in m && s in m && x in m && Agree(m, w, {g, s, x} + Opt(c))
    && w[s] == WithChild(m[s], inLeft, c) && w[x] == WithChild(m[x], !inLeft, s) && w[g] == WithChild(m[g], !inLeft, x)
    && (c != null ==> c in m && w[c] == m[c].(parent := s, black := true))
  }

  /** The parents and colours that case 3 leaves stale, and case 4 overwrites. */
  ghost function Unstale(m: Memory, g: Node, s: Node, x: Node): Memory
    requires s in m && x in m
  {
    m[x := m[x].(parent := g, black := true)][s := m[s].(parent := x, black := false)]
  }

  /** The shifted sibling alone, below any parent `g`. */
  lemma {:induction false} ShiftedSibling(inLeft: bool, s: Tree, g: Node, m: Memory, v: Memory, y: set<Node>)
    requires s.Bin? && Near(inLeft, s).Bin? && Distinct(s) && Spells(s, g, m) && Agree(m, v, y)
    requires var x := Near(inLeft, s); var c := Far(inLeft, x);
      && IsBlack(c) && y * Nodes(s) <= {s.node, x.node} + TopNode(c)
      && v[s.node] == WithChild(m[s.node], inLeft, Ref(c)).(parent := x.node, black := false)
      && x.node in m && v[x.node] == WithChild(m[x.node], !inLeft, s.node).(parent := g, black := true)
      && (c.Bin? ==> c.node in m && v[c.node] == m[c.node].(parent := s.node, black := true))
    ensures var x := Near(inLeft, s);
      Spells(Join(inLeft, Near(inLeft, x), x.node, true, Join(inLeft, Far(inLeft, x), s.node, false, Far(inLeft, s))),
        g, v)
  {
    var x := Near(inLeft, s);
    var c, f := Far(inLeft, x), Far(inLeft, s);
    assert Distinct(x) && Spells(x, s.node, m);
    assert Nodes(x) == Nodes(x.left) + {x.node} + Nodes(x.right);
    assert Nodes(f) !! y;
    assert Nodes(Near(inLeft, x)) !! y && Nodes(c) * y <= TopNode(c);
    SpellsMoved(c, x.node, m, s.node, true, v, y);
    SpellsFrame(f, s.node, m, v, y);
    SpellsFrame(Near(inLeft, x), x.node, m, v, y);
    assert Spells(Join(inLeft, c, s.node, false, f), x.node, v);
  }

  lemma {:induction false} InnerAt(p: Path, t: Tree, root: Node?, m: Memory, w: Memory)
    requires p.Step? && p.sibling.Bin? && Near(p.inLeft, p.sibling).Bin? && At(p, t, root, m)
    requires Separate(InnerPath(p), t) && m.Keys == PathNodes(InnerPath(p)) + Nodes(t)
    requires var x := Near(p.inLeft, p.sibling);
      IsBlack(Far(p.inLeft, x)) && Shifted(m, w, p.node, p.sibling.node, x.node, Ref(Far(p.inLeft, x)), p.inLeft)
    ensures p.sibling.node in w && Near(p.inLeft, p.sibling).node in w
    ensures At(InnerPath(p), t, root, Unstale(w, p.node, p.sibling.node, Near(p.inLeft, p.sibling).node))
  {
    var s, x := p.sibling, Near(p.inLeft, p.sibling);
    var c := Far(p.inLeft, x);
    var v, y := Unstale(w, p.node, s.node, x.node), {p.node, s.node, x.node} + TopNode(c);
    assert y - {p.node} <= Nodes(s) by { assert Nodes(c) <= Nodes(x) <= Nodes(s); }
    OpenSibling(p, t, root, m);
    SpellsFrame(t, p.node, m, v, y);
    ShiftedSibling(p.inLeft, s, p.node, m, v, y);
    SpellsPathFrame(p.up, root, p.node, m, v, y);
  }

  lemma {:induction false} InnerStep(p: Path, t: Tree, root: Node?, m: Memory, w: Memory)
    requires p.Step? && p.sibling.Bin? && Near(p.inLeft, p.sibling).Bin? && At(p, t, root, m)
    requires var x := Near(p.inLeft, p.sibling);
      IsBlack(Far(p.inLeft, x)) && Shifted(m, w, p.node, p.sibling.node, x.node, Ref(Far(p.inLeft, x)), p.inLeft)
    ensures p.sibling.node in w && Near(p.inLeft, p.sibling).node in w
    ensures At(InnerPath(p), t, root, Unstale(w, p.node, p.sibling.node, Near(p.inLeft, p.sibling).node))
  {
    InnerOrder(p, t);
    SameOrder(p, t, InnerPath(p), t);
    InnerAt(p, t, root, m, w);
  }

  /** Changing one colour changes one cell. */
  lemma {:induction false} FarBlackAt(p: Path, t: Tree, root: Node?, m: Memory)
    requires p.Step? && p.sibling.Bin? && At(p, t, root, m) && Far(p.inLeft, p.sibling).Bin?
    ensures var f := Far(p.inLeft, p.sibling).node;
      f in m && At(FarBlack(p), t, root, m[f := m[f].(parent := p.sibling.node, black := true)])
  {
    var s, f := p.sibling, Far(p.inLeft, p.sibling);
    assert Spells(f, s.node, m);
    var w := m[f.node := m[f.node].(parent := s.node, black := true)];
    FarBlackOrder(p, t);
    SameOrder(p, t, FarBlack(p), t);
    assert f.node in Nodes(s);
    SpellsFrame(t, p.node, m, w, {f.node});
    SpellsMoved(f, s.node, m, s.node, true, w, {f.node});
    SpellsFrame(Near(p.inLeft, s), s.node, m, w, {f.node});
    SpellsPathFrame(p.up, root, p.node, m, w, {f.node});
    assert Spells(FarBlack(p).sibling, p.node, w);
  }

  /** Equal up to the parent and colour of two nodes. */
  ghost predicate SameLinks(m: Memory, v: Memory, n: Node, f: Node) {
    && n in m && f in m && Agree(m, v, {n, f})
    && v[n] == m[n].(parent := v[n].parent, black := v[n].black) &&
      v[f] == m[f].(parent := v[f].parent, black := v[f].black)
  }

  lemma {:induction false} UnstaleSameLinks(m: Memory, g: Node, s: Node, x: Node)
    requires s in m && x in m && s != x
    ensures SameLinks(m, Unstale(m, g, s, x), x, s)
  {
  }

  /** What case 4 does to memory. */
  ghost predicate LiftedFar(m: Memory, root: Node?, w: Memory, root': Node?, n: Node, g: Node, s: Node?, sBlack: bool,
      f: Node, left: bool) {
    f in m && Lifted(m[f := m[f].(parent := n, black := true)], root, w, root', n, g, s, sBlack, left, true)
  }

  /** Case 4 overwrites every parent and colour that case 3 left stale. */
  lemma {:induction false} LiftedFarUnstale(m: Memory, v: Memory, root: Node?, w: Memory, root': Node?, n: Node,
      g: Node, s: Node?, sBlack: bool, f: Node, left: bool)
    requires SameLinks(m, v, n, f) && LiftedFar(m, root, w, root', n, g, s, sBlack, f, left)
    requires n != g && f != n && f != g && s != n && s != f && m[g].parent != n && m[g].parent != f
    ensures LiftedFar(v, root, w, root', n, g, s, sBlack, f, left)
  {
    var a, b := m[f := m[f].(parent := n, black := true)], v[f := v[f].(parent := n, black := true)];
    assert a.Keys == b.Keys;
    assert Agree(a, b, {n});
  }

  lemma {:induction false} LiftedFarStep(p: Path, t: Tree, root: Node?, m: Memory, v: Memory, root': Node?, w: Memory)
    requires p.Step? && p.sibling.Bin? && At(p, t, root, v) && Far(p.inLeft, p.sibling).Bin?
    requires var c := Near(p.inLeft, p.sibling); var s := p.sibling.node; var f := Far(p.inLeft, p.sibling).node;
      SameLinks(m, v, s, f) && LiftedFar(m, root, w, root', s, p.node, Ref(c), IsBlack(c), f, !p.inLeft)
    ensures At(LiftedPath(FarBlack(p), true), t, root', w)
  {
    var c, s, f := Near(p.inLeft, p.sibling), p.sibling.node, Far(p.inLeft, p.sibling).node;
    OpenSibling(p, t, root, v);
    LiftedFarUnstale(m, v, root, w, root', s, p.node, Ref(c), IsBlack(c), f, !p.inLeft);
    FarBlackAt(p, t, root, v);
    LiftedStep(FarBlack(p), t, root, v[f := v[f].(parent := s, black := true)], root', w, true);
  }

  /** Case 2 in memory: the sibling turns red, the parent gets colour `b`. */
  lemma {:induction false} RedSiblingStep(p: Path, t: Tree, root: Node?, m: Memory, w: Memory, b: bool)
    requires p.Step? && p.sibling.Bin? && At(p, t, root, m)
    requires var s := p.sibling.node;
      && s in m && p.node in m && Agree(m, w, {p.node, s})
      && w[s] == m[s].(parent := p.node, black := false) && w[p.node] == m[p.node].(black := b)
    ensures At(p.(black := b, sibling := p.sibling.(black := false)), t, root, w)
    ensures Inorder(Plug(p.(black := b, sibling := p.sibling.(black := false)), t)) == Inorder(Plug(p, t))
  {
    var s, x := p.sibling, {p.node, p.sibling.node};
    var q := p.(black := b, sibling := s.(black := false));
    PlugKeepsOrder(p.up, Join(p.inLeft, t, p.node, b, q.sibling), Join(p.inLeft, t, p.node, p.black, s));
    SameOrder(p, t, q, t);
    SpellsFrame(t, p.node, m, w, x);
    SpellsMoved(s, p.node, m, p.node, false, w, x);
    SpellsPathFrame(p.up, root, p.node, m, w, x);
  }

  /** The same tree seen from one level up. */
  lemma {:induction false} UpAt(p: Path, t: Tree, root: Node?, m: Memory)
    requires p.Step? && At(p, t, root, m)
    ensures At(p.up, Join(p.inLeft, t, p.node, p.black, p.sibling), root, m)
  {
  }

  /** Case 2: sibling color flip; a red parent turns black. */
  method FlipSibling(sibling: Node, parent: Node, ghost S: set<Node>)
    requires sibling in S && parent in S && sibling != parent
    modifies S
    ensures var m := old(Snapshot(S)); var w := Snapshot(S);
      && Agree(m, w, {parent, sibling}) && w[sibling] == m[sibling].(parent := parent, black := false)
      && w[parent] == m[parent].(black := true)
  {
    sibling.parent, sibling.black := parent, false;
    if !parent.black {
      parent.black := true;
    }
  }

  /** Every node is where the tree says, and no node is black one time too few: rebalancing is over. */
  ghost predicate Done(p: Path, t: Tree, h: nat, root: Node?, m: Memory) {
    At(p, t, root, m) && PathBalanced(p, h) && Balanced(t, h) && IsBlack(t)
  }

  /** Case 2, whole: done below a red parent or at the root, one level up otherwise. */
  lemma {:induction false} Case2Step(p: Path, t: Tree, h: nat, root: Node?, m: Memory, w: Memory)
      returns (q: Path, u: Tree)
    requires Short(p, t, h) && p.sibling.Bin? && p.sibling.black && IsBlack(p.sibling.left) && IsBlack(p.sibling.right)
    requires At(p, t, root, m)
    requires var s := p.sibling.node;
      && s in m && p.node in m && Agree(m, w, {p.node, s})
      && w[s] == m[s].(parent := p.node, black := false) && w[p.node] == m[p.node].(black := true)
    ensures !p.black ==> Done(q, u, h, root, w)
    ensures p.black ==> q == p.up && u.Bin? && u.node == p.node && At(q, u, root, w)
    ensures p.black && p.up.Step? ==> Short(q, u, h + 1)
    ensures p.black && p.up.Top? ==> Done(q, u, h + 1, root, w)
    ensures Inorder(Plug(q, u)) == Inorder(Plug(p, t))
  {
    Case2Balanced(p, t, h);
    RedSiblingStep(p, t, root, m, w, true);
    q, u := p.(black := true, sibling := p.sibling.(black := false)), t;
    if p.black {
      UpAt(q, u, root, w);
      q, u := p.up, Join(p.inLeft, t, p.node, true, q.sibling);
    }
  }

  /** Case 4, whole, possibly with the parents and colours case 3 left stale. */
  lemma {:induction false} Case4Step(p: Path, t: Tree, h: nat, root: Node?, m: Memory, v: Memory, root': Node?,
      w: Memory)
    requires Short(p, t, h) && p.sibling.Bin? && p.sibling.black && !IsBlack(Far(p.inLeft, p.sibling)) &&
      At(p, t, root, v)
    requires var c := Near(p.inLeft, p.sibling); var s := p.sibling.node; var f := Far(p.inLeft, p.sibling).node;
      SameLinks(m, v, s, f) && LiftedFar(m, root, w, root', s, p.node, Ref(c), IsBlack(c), f, !p.inLeft)
    ensures Done(LiftedPath(FarBlack(p), true), t, h, root', w)
    ensures Inorder(Plug(LiftedPath(FarBlack(p), true), t)) == Inorder(Plug(p, t))
  {
    LiftedFarStep(p, t, root, m, v, root', w);
    Case4Balanced(p, t, h);
    FarBlackOrder(p, t);
    LiftedOrder(FarBlack(p), t, true);
  }

  /** The near nephew and the subtree it gives away are nodes apart from parent and sibling. */
  lemma {:induction false} ShiftReady(p: Path, t: Tree, root: Node?, m: Memory)
    requires p.Step? && p.sibling.Bin? && Near(p.inLeft, p.sibling).Bin? && At(p, t, root, m)
    ensures var x := Near(p.inLeft, p.sibling); var c := Far(p.inLeft, x);
      Ref(c) !in {p.node, p.sibling.node, x.node} && (c.Bin? ==> c.node in m)
  {
    assert Distinct(Near(p.inLeft, p.sibling)) && Spells(Near(p.inLeft, p.sibling), p.sibling.node, m);
  }

  // ------------------------------------------------- the hole on the left

  /** Case 1: left rotate at parent. */
  method LiftRedLeft(parent: Node, sibling: Node, root: Root, ghost S: set<Node>) returns (tmp1: Node?)
    requires parent in S && sibling in S && parent != sibling && (parent.parent != null ==> parent.parent in S)
    requires parent.parent != parent && parent.parent != sibling
    requires var c := sibling.left; c != null && c in S && c != parent && c != sibling && c != parent.parent
    modifies root, S
    ensures tmp1 == old(sibling.left)
    ensures Lifted(old(Snapshot(S)), old(root.node), Snapshot(S), root.node, sibling, parent, old(sibling.left), true,
      false, false)
  {
    ghost var m, r := Snapshot(S), root.node;
    tmp1 := sibling.left;
    parent.right := tmp1;
    sibling.left := parent;
    tmp1.parent, tmp1.black := parent, true;
    ghost var a := Snapshot(S);
    RotateSetParents(parent, sibling, root, false, S);
    TurnedAndReparented(m, a, r, Snapshot(S), root.node, sibling, parent, tmp1, true, false, false);
  }

  /** Case 3: right rotate at sibling. */
  method ShiftLeft(parent: Node, sibling: Node, tmp2: Node, ghost S: set<Node>)
    requires parent in S && sibling in S && tmp2 in S && parent != sibling && tmp2 != parent && tmp2 != sibling
    requires var c := tmp2.right; c != null ==> c in S && c != parent && c != sibling && c != tmp2
    modifies S
    ensures Shifted(old(Snapshot(S)), Snapshot(S), parent, sibling, tmp2, old(tmp2.right), true)
  {
    var tmp1 := tmp2.right;
    sibling.left := tmp1;
    tmp2.right := sibling;
    parent.right := tmp2;
    if tmp1 != null {
      tmp1.parent, tmp1.black := sibling, true;
    }
  }

  /** Case 4, up to the parents of parent and sibling. */
  method TurnBlackLeft(parent: Node, sibling: Node, tmp1: Node, ghost S: set<Node>) returns (tmp2: Node?)
    requires parent in S && sibling in S && tmp1 in S && parent != sibling && tmp1 != parent && tmp1 != sibling
    requires var c := sibling.left; c != null ==> c in S && c != parent && c != sibling && c != tmp1
    modifies S
    ensures tmp2 == old(sibling.left)
    ensures var m := old(Snapshot(S));
      Turned(m[tmp1 := m[tmp1].(parent := sibling, black := true)], Snapshot(S), sibling, parent, tmp2,
        tmp2 == null || m[tmp2].black, false)
  {
    tmp2 := sibling.left;
    parent.right := tmp2;
    sibling.left := parent;
    tmp1.parent, tmp1.black := sibling, true;
    if tmp2 != null {
      tmp2.parent := parent;
    }
  }

  /** Case 4: left rotate at parent and color flips. */
  method LiftBlackLeft(parent: Node, sibling: Node, tmp1: Node, root: Root, ghost S: set<Node>)
    requires parent in S && sibling in S && parent != sibling && (parent.parent != null ==> parent.parent in S)
    requires parent.parent != parent && parent.parent != sibling
    requires tmp1 in S && tmp1 != parent && tmp1 != sibling && tmp1 != parent.parent
    requires var c := sibling.left; c != null ==>
      c in S && c != parent && c != sibling && c != tmp1 && c != parent.parent
    modifies root, S
    ensures LiftedFar(old(Snapshot(S)), old(root.node), Snapshot(S), root.node, sibling, parent, old(sibling.left),
      old(sibling.left == null || sibling.left.black), tmp1, false)
  {
    ghost var m, r := Snapshot(S), root.node;
    var tmp2 := TurnBlackLeft(parent, sibling, tmp1, S);
    ghost var a := Snapshot(S);
    RotateSetParents(parent, sibling, root, true, S);
    TurnedAndReparented(m[tmp1 := m[tmp1].(parent := sibling, black := true)], a, r, Snapshot(S), root.node,
      sibling, parent, tmp2, tmp2 == null || m[tmp2].black, false, true);
  }

  // ------------------------------------------------- the hole on the right

  /** Case 1: right rotate at parent. */
  method LiftRedRight(parent: Node, sibling: Node, root: Root, ghost S: set<Node>) returns (tmp1: Node?)
    requires parent in S && sibling in S && parent != sibling && (parent.parent != null ==> parent.parent in S)
    requires parent.parent != parent && parent.parent != sibling
    requires var c := sibling.right; c != null && c in S && c != parent && c != sibling && c != parent.parent
    modifies root, S
    ensures tmp1 == old(sibling.right)
    ensures Lifted(old(Snapshot(S)), old(root.node), Snapshot(S), root.node, sibling, parent, old(sibling.right), true,
      true, false)
  {
    ghost var m, r := Snapshot(S), root.node;
    tmp1 := sibling.right;
    parent.left := tmp1;
    sibling.right := parent;
    tmp1.parent, tmp1.black := parent, true;
    ghost var a := Snapshot(S);
    RotateSetParents(parent, sibling, root, false, S);
    TurnedAndReparented(m, a, r, Snapshot(S), root.node, sibling, parent, tmp1, true, true, false);
  }

  /** Case 3: left rotate at sibling. */
  method ShiftRight(parent: Node, sibling: Node, tmp2: Node, ghost S: set<Node>)
    requires parent in S && sibling in S && tmp2 in S && parent != sibling && tmp2 != parent && tmp2 != sibling
    requires var c := tmp2.left; c != null ==> c in S && c != parent && c != sibling && c != tmp2
    modifies S
    ensures Shifted(old(Snapshot(S)), Snapshot(S), parent, sibling, tmp2, old(tmp2.left), false)
  {
    var tmp1 := tmp2.left;
    sibling.right := tmp1;
    tmp2.left := sibling;
    parent.left := tmp2;
    if tmp1 != null {
      tmp1.parent, tmp1.black := sibling, true;
    }
  }

  /** Case 4, up to the parents of parent and sibling. */
  method TurnBlackRight(parent: Node, sibling: Node, tmp1: Node, ghost S: set<Node>) returns (tmp2: Node?)
    requires parent in S && sibling in S && tmp1 in S && parent != sibling && tmp1 != parent && tmp1 != sibling
    requires var c := sibling.right; c != null ==> c in S && c != parent && c != sibling && c != tmp1
    modifies S
    ensures tmp2 == old(sibling.right)
    ensures var m := old(Snapshot(S));
      Turned(m[tmp1 := m[tmp1].(parent := sibling, black := true)], Snapshot(S), sibling, parent, tmp2,
        tmp2 == null || m[tmp2].black, true)
  {
    tmp2 := sibling.right;
    parent.left := tmp2;
    sibling.right := parent;
    tmp1.parent, tmp1.black := sibling, true;
    if tmp2 != null {
      tmp2.parent := parent;
    }
  }

  /** Case 4: right rotate at parent and color flips. */
  method LiftBlackRight(parent: Node, sibling: Node, tmp1: Node, root: Root, ghost S: set<Node>)
    requires parent in S && sibling in S && parent != sibling && (parent.parent != null ==> parent.parent in S)
    requires parent.parent != parent && parent.parent != sibling
    requires tmp1 in S && tmp1 != parent && tmp1 != sibling && tmp1 != parent.parent
    requires var c := sibling.right; c != null ==>
      c in S && c != parent && c != sibling && c != tmp1 && c != parent.parent
    modifies root, S
    ensures LiftedFar(old(Snapshot(S)), old(root.node), Snapshot(S), root.node, sibling, parent, old(sibling.right),
      old(sibling.right == null || sibling.right.black), tmp1, true)
  {
    ghost var m, r := Snapshot(S), root.node;
    var tmp2 := TurnBlackRight(parent, sibling, tmp1, S);
    ghost var a := Snapshot(S);
    RotateSetParents(parent, sibling, root, true, S);
    TurnedAndReparented(m[tmp1 := m[tmp1].(parent := sibling, black := true)], a, r, Snapshot(S), root.node,
      sibling, parent, tmp2, tmp2 == null || m[tmp2].black, true, true);
  }

  /** Case 3 for a hole on the left, up to the links it leaves stale. */
  method InnerLeft(parent: Node, sibling: Node, tmp2: Node, ghost r: Node?, ghost p: Path, ghost t: Tree,
      ghost S: set<Node>)
    requires p.Step? && p.inLeft && At(p, t, r, Snapshot(S)) && p.sibling.Bin? && p.sibling.left.Bin?
    requires p.node == parent && p.sibling.node == sibling && p.sibling.left.node == tmp2 &&
      IsBlack(p.sibling.left.right)
    modifies S
    ensures sibling in S && tmp2 in S && At(InnerPath(p), t, r, Unstale(Snapshot(S), parent, sibling, tmp2))
  {
    ghost var m := Snapshot(S);
    OpenSibling(p, t, r, m);
    ShiftReady(p, t, r, m);
    ShiftLeft(parent, sibling, tmp2, S);
    InnerStep(p, t, r, m, Snapshot(S));
  }

  /** Case 4 for a hole on the left; `v` is memory without the links that case 3 left stale. */
  method OuterLeft(parent: Node, sibling: Node, tmp1: Node, root: Root, ghost p: Path, ghost t: Tree, ghost h: nat,
      ghost v: Memory, ghost S: set<Node>)
    requires Short(p, t, h) && p.inLeft && At(p, t, root.node, v) && SameLinks(Snapshot(S), v, sibling, tmp1)
    requires p.node == parent && p.sibling.Bin? && p.sibling.node == sibling && p.sibling.black
    requires p.sibling.right.Bin? && p.sibling.right.node == tmp1 && !p.sibling.right.black
    modifies root, S
    ensures Done(LiftedPath(FarBlack(p), true), t, h, root.node, Snapshot(S))
    ensures Inorder(Plug(LiftedPath(FarBlack(p), true), t)) == Inorder(Plug(p, t))
  {
    ghost var m, r := Snapshot(S), root.node;
    OpenSibling(p, t, r, v);
    LiftBlackLeft(parent, sibling, tmp1, root, S);
    Case4Step(p, t, h, r, m, v, root.node, Snapshot(S));
  }

  /** Cases 3 and 4. */
  method RepairLeft(parent: Node, sibling: Node, root: Root, ghost p: Path, ghost t: Tree, ghost h: nat,
      ghost S: set<Node>)
      returns (ghost q: Path)
    requires Short(p, t, h) && p.inLeft && At(p, t, root.node, Snapshot(S))
    requires p.node == parent && p.sibling.Bin? && p.sibling.node == sibling && p.sibling.black
    requires !IsBlack(p.sibling.left) || !IsBlack(p.sibling.right)
    modifies root, S
    ensures Done(q, t, h, root.node, Snapshot(S))
    ensures Inorder(Plug(q, t)) == Inorder(Plug(p, t))
  {
    ghost var m, r := Snapshot(S), root.node;
    OpenSibling(p, t, r, m);
    var tmp1 := sibling.right;
    if tmp1 == null || tmp1.black {
      var tmp2: Node := sibling.left;
      q := InnerPath(p);
      Case3Balanced(p, t, h);
      InnerOrder(p, t);
      InnerLeft(parent, sibling, tmp2, r, p, t, S);
      UnstaleSameLinks(Snapshot(S), parent, sibling, tmp2);
      OuterLeft(parent, tmp2, sibling, root, q, t, h, Unstale(Snapshot(S), parent, sibling, tmp2), S);
      q := LiftedPath(FarBlack(q), true);
    } else {
      OuterLeft(parent, sibling, tmp1, root, p, t, h, m, S);
      q := LiftedPath(FarBlack(p), true);
    }
  }

  /** Case 3 for a hole on the right, up to the links it leaves stale. */
  method InnerRight(parent: Node, sibling: Node, tmp2: Node, ghost r: Node?, ghost p: Path, ghost t: Tree,
      ghost S: set<Node>)
    requires p.Step? && !p.inLeft && At(p, t, r, Snapshot(S)) && p.sibling.Bin? && p.sibling.right.Bin?
    requires p.node == parent && p.sibling.node == sibling && p.sibling.right.node == tmp2 &&
      IsBlack(p.sibling.right.left)
    modifies S
    ensures sibling in S && tmp2 in S && At(InnerPath(p), t, r, Unstale(Snapshot(S), parent, sibling, tmp2))
  {
    ghost var m := Snapshot(S);
    OpenSibling(p, t, r, m);
    ShiftReady(p, t, r, m);
    ShiftRight(parent, sibling, tmp2, S);
    InnerStep(p, t, r, m, Snapshot(S));
  }

  /** Case 4 for a hole on the right; `v` is memory without the links that case 3 left stale. */
  method OuterRight(parent: Node, sibling: Node, tmp1: Node, root: Root, ghost p: Path, ghost t: Tree, ghost h: nat,
      ghost v: Memory, ghost S: set<Node>)
    requires Short(p, t, h) && !p.inLeft && At(p, t, root.node, v) && SameLinks(Snapshot(S), v, sibling, tmp1)
    requires p.node == parent && p.sibling.Bin? && p.sibling.node == sibling && p.sibling.black
    requires p.sibling.left.Bin? && p.sibling.left.node == tmp1 && !p.sibling.left.black
    modifies root, S
    ensures Done(LiftedPath(FarBlack(p), true), t, h, root.node, Snapshot(S))
    ensures Inorder(Plug(LiftedPath(FarBlack(p), true), t)) == Inorder(Plug(p, t))
  {
    ghost var m, r := Snapshot(S), root.node;
    OpenSibling(p, t, r, v);
    LiftBlackRight(parent, sibling, tmp1, root, S);
    Case4Step(p, t, h, r, m, v, root.node, Snapshot(S));
  }

  /** Cases 3 and 4. */
  method RepairRight(parent: Node, sibling: Node, root: Root, ghost p: Path, ghost t: Tree, ghost h: nat,
      ghost S: set<Node>)
      returns (ghost q: Path)
    requires Short(p, t, h) && !p.inLeft && At(p, t, root.node, Snapshot(S))
    requires p.node == parent && p.sibling.Bin? && p.sibling.node == sibling && p.sibling.black
    requires !IsBlack(p.sibling.left) || !IsBlack(p.sibling.right)
    modifies root, S
    ensures Done(q, t, h, root.node, Snapshot(S))
    ensures Inorder(Plug(q, t)) == Inorder(Plug(p, t))
  {
    ghost var m, r := Snapshot(S), root.node;
    OpenSibling(p, t, r, m);
    var tmp1 := sibling.left;
    if tmp1 == null || tmp1.black {
      var tmp2: Node := sibling.right;
      q := InnerPath(p);
      Case3Balanced(p, t, h);
      InnerOrder(p, t);
      InnerRight(parent, sibling, tmp2, r, p, t, S);
      UnstaleSameLinks(Snapshot(S), parent, sibling, tmp2);
      OuterRight(parent, tmp2, sibling, root, q, t, h, Unstale(Snapshot(S), parent, sibling, tmp2), S);
      q := LiftedPath(FarBlack(q), true);
    } else {
      OuterRight(parent, sibling, tmp1, root, p, t, h, m, S);
      q := LiftedPath(FarBlack(p), true);
    }
  }

  /** Case 2, which ends the loop below a red parent or at the root. */
  method FlipRound(parent: Node, sibling: Node, ghost r: Node?, ghost p: Path, ghost t: Tree, ghost h: nat,
      ghost S: set<Node>)
      returns (again: bool, ghost q: Path, ghost u: Tree, ghost k: nat)
    requires Short(p, t, h) && At(p, t, r, Snapshot(S))
    requires p.node == parent && p.sibling.Bin? && p.sibling.node == sibling
    requires p.sibling.black && IsBlack(p.sibling.left) && IsBlack(p.sibling.right)
    modifies S
    ensures again ==> p.black && q == p.up && Short(q, u, k) && At(q, u, r, Snapshot(S)) && u.Bin? && u.node == parent
    ensures !again ==> Done(q, u, k, r, Snapshot(S))
    ensures Inorder(Plug(q, u)) == Inorder(Plug(p, t))
  {
    ghost var m := Snapshot(S);
    OpenSibling(p, t, r, m);
    var red := !parent.black;
    FlipSibling(sibling, parent, S);
    q, u := Case2Step(p, t, h, r, m, Snapshot(S));
    again := !red && parent.parent != null;
    k := if p.black then h + 1 else h;
  }

  /** Case 1 for a hole on the left: a red sibling is lifted over the parent. */
  method RedSiblingLeft(parent: Node, sibling: Node, root: Root, ghost p: Path, ghost t: Tree, ghost h: nat,
      ghost S: set<Node>)
      returns (tmp1: Node)
    requires Short(p, t, h) && p.inLeft && At(p, t, root.node, Snapshot(S))
    requires p.node == parent && p.sibling.Bin? && p.sibling.node == sibling && !p.sibling.black
    modifies root, S
    ensures Short(LiftedPath(p, false), t, h) && At(LiftedPath(p, false), t, root.node, Snapshot(S))
    ensures var s := LiftedPath(p, false).sibling; s.Bin? && s.black && s.node == tmp1
    ensures Inorder(Plug(LiftedPath(p, false), t)) == Inorder(Plug(p, t))
  {
    ghost var m, r := Snapshot(S), root.node;
    SiblingExists(p, t, h);
    OpenSibling(p, t, r, m);
    tmp1 := LiftRedLeft(parent, sibling, root, S);
    LiftedStep(p, t, r, m, root.node, Snapshot(S), false);
    LiftedOrder(p, t, false);
    Case1Balanced(p, t, h);
  }

  /** One round for a hole on the left: cases 1 to 4. */
  method RoundLeft(parent: Node, sibling0: Node, root: Root, ghost p0: Path, ghost t: Tree, ghost h: nat,
      ghost S: set<Node>)
      returns (again: bool, ghost q: Path, ghost u: Tree, ghost k: nat)
    requires Short(p0, t, h) && p0.inLeft && At(p0, t, root.node, Snapshot(S))
    requires p0.node == parent && p0.sibling.Bin? && p0.sibling.node == sibling0
    modifies root, S
    ensures again ==> q == p0.up && Short(q, u, k) && At(q, u, root.node, Snapshot(S)) && u.Bin? && u.node == parent
    ensures !again ==> Done(q, u, k, root.node, Snapshot(S))
    ensures Inorder(Plug(q, u)) == Inorder(Plug(p0, t))
  {
    var sibling := sibling0;
    ghost var p := p0;
    OpenSibling(p, t, root.node, Snapshot(S));
    if !sibling.black {
      sibling := RedSiblingLeft(parent, sibling, root, p, t, h, S);
      p := LiftedPath(p, false);
      OpenSibling(p, t, root.node, Snapshot(S));
    }
    var tmp1 := sibling.right;
    if tmp1 == null || tmp1.black {
      var tmp2 := sibling.left;
      if tmp2 == null || tmp2.black {
        again, q, u, k := FlipRound(parent, sibling, root.node, p, t, h, S);
        return;
      }
    }
    q := RepairLeft(parent, sibling, root, p, t, h, S);
    again, u, k := false, t, h;
  }

  /** Case 1 for a hole on the right: a red sibling is lifted over the parent. */
  method RedSiblingRight(parent: Node, sibling: Node, root: Root, ghost p: Path, ghost t: Tree, ghost h: nat,
      ghost S: set<Node>)
      returns (tmp1: Node)
    requires Short(p, t, h) && !p.inLeft && At(p, t, root.node, Snapshot(S))
    requires p.node == parent && p.sibling.Bin? && p.sibling.node == sibling && !p.sibling.black
    modifies root, S
    ensures Short(LiftedPath(p, false), t, h) && At(LiftedPath(p, false), t, root.node, Snapshot(S))
    ensures var s := LiftedPath(p, false).sibling; s.Bin? && s.black && s.node == tmp1
    ensures Inorder(Plug(LiftedPath(p, false), t)) == Inorder(Plug(p, t))
  {
    ghost var m, r := Snapshot(S), root.node;
    SiblingExists(p, t, h);
    OpenSibling(p, t, r, m);
    tmp1 := LiftRedRight(parent, sibling, root, S);
    LiftedStep(p, t, r, m, root.node, Snapshot(S), false);
    LiftedOrder(p, t, false);
    Case1Balanced(p, t, h);
  }

  /** One round for a hole on the right: cases 1 to 4. */
  method RoundRight(parent: Node, sibling0: Node, root: Root, ghost p0: Path, ghost t: Tree, ghost h: nat,
      ghost S: set<Node>)
      returns (again: bool, ghost q: Path, ghost u: Tree, ghost k: nat)
    requires Short(p0, t, h) && !p0.inLeft && At(p0, t, root.node, Snapshot(S))
    requires p0.node == parent && p0.sibling.Bin? && p0.sibling.node == sibling0
    modifies root, S
    ensures again ==> q == p0.up && Short(q, u, k) && At(q, u, root.node, Snapshot(S)) && u.Bin? && u.node == parent
    ensures !again ==> Done(q, u, k, root.node, Snapshot(S))
    ensures Inorder(Plug(q, u)) == Inorder(Plug(p0, t))
  {
    var sibling := sibling0;
    ghost var p := p0;
    OpenSibling(p, t, root.node, Snapshot(S));
    if !sibling.black {
      sibling := RedSiblingRight(parent, sibling, root, p, t, h, S);
      p := LiftedPath(p, false);
      OpenSibling(p, t, root.node, Snapshot(S));
    }
    var tmp1 := sibling.left;
    if tmp1 == null || tmp1.black {
      var tmp2 := sibling.right;
      if tmp2 == null || tmp2.black {
        again, q, u, k := FlipRound(parent, sibling, root.node, p, t, h, S);
        return;
      }
    }
    q := RepairRight(parent, sibling, root, p, t, h, S);
    again, u, k := false, t, h;
  }

  /**
   * ____rb_erase_color, from any tree that is red-black except that the ways through one
   * child of `parent0` are one black node short: ends with a red-black tree of the same
   * nodes in the same order.
   */
  method EraseColor(parent0: Node, root: Root, ghost p0: Path, ghost t0: Tree, ghost h0: nat, ghost S: set<Node>)
      returns (ghost result: Tree)
    requires Short(p0, t0, h0) && At(p0, t0, root.node, Snapshot(S)) && p0.node == parent0 && t0.Leaf?
    modifies root, S
    ensures At(Top, result, root.node, Snapshot(S))
    ensures IsRedBlack(result)
    ensures Inorder(result) == Inorder(Plug(p0, t0))
  {
    var node: Node? := null;
    var parent := parent0;
    ghost var p, t, h, order := p0, t0, h0, Inorder(Plug(p0, t0));
    while true
      invariant Short(p, t, h) && At(p, t, root.node, Snapshot(S)) && p.node == parent && Ref(t) == node
      invariant Inorder(Plug(p, t)) == order
      decreases p
    {
      SiblingExists(p, t, h);
      OpenSibling(p, t, root.node, Snapshot(S));
      var sibling: Node? := parent.right;
      var again;
      if node != sibling {
        again, p, t, h := RoundLeft(parent, sibling, root, p, t, h, S);
      } else {
        sibling := parent.left;
        again, p, t, h := RoundRight(parent, sibling, root, p, t, h, S);
      }
      if !again {
        Settled(p, t, h, root.node, Snapshot(S));
        return Plug(p, t);
      }
      node := parent;
      parent := node.parent;
    }
  }
}
