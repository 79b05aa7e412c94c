/**
 * When linked nodes in memory spell a tree.  `Snapshot` copies the fields of
 * a set of nodes into a map, so that the reasoning about stale and repaired
 * links is about two maps and not about the heap.
 */
module RbMemory {
  import opened RbShape

  /** struct rb_root */
  class Root {
    var node: Node?

    constructor ()
      ensures node == null
    {
      node := null;
    }
  }

  datatype Cell = Cell(left: Node?, right: Node?, parent: Node?, black: bool)
  type Memory = map<Node, Cell>

  ghost function Snapshot(s: set<Node>): Memory
    reads s
  {
    map n | n in s :: Cell(n.left, n.right, n.parent, n.black)
  }

  /** The links and colours in `m` spell `t`, hanging below `p`. */
  ghost predicate Spells(t: Tree, p: Node?, m: Memory) {
    t.Bin? ==>
      && t.node in m && m[t.node] == Cell(Ref(t.left), Ref(t.right), p, t.black)
      && Spells(t.left, t.node, m) && Spells(t.right, t.node, m)
  }

  /** What the node above the hole holds. */
  ghost function StepCell(p: Path, child: Node?): Cell
    requires p.Step?
  {
    if p.inLeft then Cell(child, Ref(p.sibling), PathRef(p.up), p.black)
    else Cell(Ref(p.sibling), child, PathRef(p.up), p.black)
  }

  /** The links and colours in `m` spell the path `p` from `root`, with `child` in its hole. */
  ghost predicate SpellsPath(p: Path, root: Node?, child: Node?, m: Memory) {
    if p.Top? then root == child
    else
      && p.node in m && m[p.node] == StepCell(p, child)
      && Spells(p.sibling, p.node, m) && SpellsPath(p.up, root, p.node, m)
  }

  /** Memory `m` with root pointer `root` is exactly `t` seen from the hole of `p`. */
  ghost predicate At(p: Path, t: Tree, root: Node?, m: Memory) {
    && Separate(p, t) && m.Keys == PathNodes(p) + Nodes(t)
    && Spells(t, PathRef(p), m) && SpellsPath(p, root, Ref(t), m)
  }

  lemma {:induction false} PlugSpells(p: Path, t: Tree, root: Node?, m: Memory)
    ensures Spells(Plug(p, t), null, m) && root == Ref(Plug(p, t))
       <==> Spells(t, PathRef(p), m) && SpellsPath(p, root, Ref(t), m)
    decreases p
  {
    if p.Step? {
      PlugSpells(p.up, Join(p.inLeft, t, p.node, p.black, p.sibling), root, m);
    }
  }

  /** Seen from anywhere, it is the same tree. */
  lemma {:induction false} PlugAt(p: Path, t: Tree, root: Node?, m: Memory)
    ensures At(p, t, root, m) <==> At(Top, Plug(p, t), root, m)
  {
    PlugNodes(p, t);
    PlugSpells(p, t, root, m);
  }

  /** A place that holds no red node below a red one, nor a red root, leaves the whole tree red-black. */
  lemma {:induction false} Settled(p: Path, t: Tree, h: nat, root: Node?, m: Memory)
    requires PathBalanced(p, h) && Balanced(t, h) && (IsBlack(t) || AcceptsRed(p)) && At(p, t, root, m)
    ensures At(Top, Plug(p, t), root, m) && IsRedBlack(Plug(p, t))
  {
    PlugAt(p, t, root, m);
    PlugRedBlack(p, t, h);
  }

  /** The cells at a place and right above it. */
  lemma {:induction false} OpenPlace(p: Path, t: Tree, root: Node?, m: Memory)
    requires t.Bin? && At(p, t, root, m)
    ensures t.node in m && m[t.node] == Cell(Ref(t.left), Ref(t.right), PathRef(p), t.black)
    ensures p.Step? ==> p.node in m && m[p.node] == StepCell(p, t.node)
  {
  }

  // ------------------------------------------------------------- framing

  /** `w` has every cell of `m` that is not in `changed`. */
  ghost predicate Covers(m: Memory, w: Memory, changed: set<Node>) {
    forall n | n in m && n !in changed :: n in w && w[n] == m[n]
  }

  /** `w` differs from `m` at most in the cells of `changed`. */
  ghost predicate Agree(m: Memory, w: Memory, changed: set<Node>) {
    m.Keys == w.Keys && Covers(m, w, changed)
  }

  lemma {:induction false} SpellsFrame(t: Tree, p: Node?, m: Memory, w: Memory, changed: set<Node>)
    requires Spells(t, p, m) && Covers(m, w, changed) && Nodes(t) !! changed
    ensures Spells(t, p, w)
    decreases t
  {
    if t.Bin? {
      SpellsFrame(t.left, t.node, m, w, changed);
      SpellsFrame(t.right, t.node, m, w, changed);
    }
  }

  /** The node on top of a tree, as a set. */
  ghost function TopNode(t: Tree): set<Node> {
    if t.Leaf? then {} else {t.node}
  }

  ghost function Recoloured(t: Tree, b: bool): Tree {
    if t.Leaf? then t else t.(black := b)
  }

  /** rb_set_parent_color on the top of a subtree that is otherwise left alone. */
  lemma {:induction false} SpellsMoved(t: Tree, p: Node?, m: Memory, q: Node?, b: bool, w: Memory, changed: set<Node>)
    requires Distinct(t) && Spells(t, p, m) && Covers(m, w, changed) && Nodes(t) * changed <= TopNode(t)
    requires t.Bin? ==> t.node in w && w[t.node] == m[t.node].(parent := q, black := b)
    ensures Spells(Recoloured(t, b), q, w)
  {
    if t.Bin? {
      assert Nodes(t.left) !! changed && Nodes(t.right) !! changed;
      SpellsFrame(t.left, t.node, m, w, changed);
      SpellsFrame(t.right, t.node, m, w, changed);
    }
  }

  lemma {:induction false} SpellsPathFrame(p: Path, root: Node?, child: Node?, m: Memory, w: Memory, changed: set<Node>)
    requires SpellsPath(p, root, child, m) && Covers(m, w, changed) && PathNodes(p) !! changed
    ensures SpellsPath(p, root, child, w)
    decreases p
  {
    if p.Step? {
      SpellsFrame(p.sibling, p.node, m, w, changed);
      SpellsPathFrame(p.up, root, p.node, m, w, changed);
    }
  }

  /** What __rb_change_child leaves: `child` in the hole of `p`. */
  ghost predicate ChildChanged(p: Path, root: Node?, m: Memory, child: Node?, root': Node?, w: Memory) {
    if p.Top? then root' == child
    else
      && root' == root && p.node in m && p.node in w
      && w[p.node] == if p.inLeft then m[p.node].(left := child) else m[p.node].(right := child)
  }

  ghost function TopStep(p: Path): set<Node> {
    if p.Top? then {} else {p.node}
  }

  lemma {:induction false} SpellsPathChanged(p: Path, root: Node?, old_: Node?, m: Memory, child: Node?, root': Node?,
      w: Memory, changed: set<Node>)
    requires PathDistinct(p) && SpellsPath(p, root, old_, m) && ChildChanged(p, root, m, child, root', w)
    requires Covers(m, w, changed) && PathNodes(p) * changed <= TopStep(p)
    ensures SpellsPath(p, root', child, w)
  {
    if p.Step? {
      assert PathNodes(p.up) !! changed && Nodes(p.sibling) !! changed;
      SpellsFrame(p.sibling, p.node, m, w, changed);
      SpellsPathFrame(p.up, root, p.node, m, w, changed);
    }
  }

  // ------------------------------------------------------ pointer helpers

  ghost function Opt(n: Node?): set<Node> {
    if n == null then {} else {n}
  }

  ghost function WithChild(c: Cell, left: bool, child: Node?): Cell {
    if left then c.(left := child) else c.(right := child)
  }

  /** What __rb_change_child(old_, new_, parent, root) does to memory. */
  ghost predicate Redirected(m: Memory, root: Node?, w: Memory, root': Node?, old_: Node, new_: Node?, parent: Node?) {
    if parent == null then root' == new_
    else root' == root && parent in m && parent in w && w[parent] == WithChild(m[parent], m[parent].left == old_, new_)
  }

  /**
   * What a rotation at `g` that lifts `n` does: `n` gets the place and colour of `g`, which
   * becomes its child in colour `black`; `s` moves from `n` to `g` and gets colour `sBlack`.
   */
  ghost predicate Lifted(m: Memory, root: Node?, w: Memory, root': Node?, n: Node, g: Node, s: Node?, sBlack: bool,
      left: bool, black: bool) {
    && n in m && g in m && Agree(m, w, {n, g} + Opt(s) + Opt(m[g].parent))
    && w[n] == WithChild(m[n], !left, g).(parent := m[g].parent, black := m[g].black)
    && w[g] == WithChild(m[g], left, s).(parent := n, black := black)
    && (s != null ==> s in m && w[s] == m[s].(parent := g, black := sBlack))
    && Redirected(m, root, w, root', g, n, m[g].parent)
  }

  /** __rb_change_child */
  method ChangeChild(old_: Node, new_: Node?, parent: Node?, root: Root)
    modifies root`node, Opt(parent)`left, Opt(parent)`right
    ensures parent == null ==> root.node == new_
    ensures parent != null ==> root.node == old(root.node)
    ensures parent != null && old(parent.left) == old_ ==> parent.left == new_ && parent.right == old(parent.right)
    ensures parent != null && old(parent.left) != old_ ==> parent.left == old(parent.left) && parent.right == new_
  {
    if parent != null {
      if parent.left == old_ {
        parent.left := new_;
      } else {
        parent.right := new_;
      }
    } else {
      root.node := new_;
    }
  }

  /** What __rb_rotate_set_parents(old_, new_, root, black) does to memory. */
  ghost predicate Reparented(m: Memory, root: Node?, w: Memory, root': Node?, old_: Node, new_: Node, black: bool) {
    && old_ in m && new_ in m && Agree(m, w, {old_, new_} + Opt(m[old_].parent))
    && w[new_] == m[new_].(parent := m[old_].parent, black := m[old_].black)
    && w[old_] == m[old_].(parent := new_, black := black)
    && Redirected(m, root, w, root', old_, new_, m[old_].parent)
  }

  /** __rb_rotate_set_parents: `new_` gets the parent and colour of `old_`, which becomes its child. */
  method RotateSetParents(old_: Node, new_: Node, root: Root, black: bool, ghost S: set<Node>)
    requires old_ in S && new_ in S && (old_.parent != null ==> old_.parent in S)
    requires old_ != new_ && old_.parent != old_ && old_.parent != new_
    modifies root, S
    ensures Reparented(old(Snapshot(S)), old(root.node), Snapshot(S), root.node, old_, new_, black)
  {
    var parent := old_.parent;
    new_.parent, new_.black := old_.parent, old_.black;
    old_.parent, old_.black := new_, black;
    ChangeChild(old_, new_, parent, root);
  }

  /** The child links of a rotation at `g` that lifts `n`, and the subtree that changes sides. */
  ghost predicate Turned(m: Memory, w: Memory, n: Node, g: Node, s: Node?, sBlack: bool, left: bool) {
    && n in m && g in m && Agree(m, w, {n, g} + Opt(s))
    && w[n] == WithChild(m[n], !left, g) && w[g] == WithChild(m[g], left, s)
    && (s != null ==> s in m && w[s] == m[s].(parent := g, black := sBlack))
  }

  /** Turning the links and then setting the parents is a rotation. */
  lemma {:induction false} TurnedAndReparented(m: Memory, a: Memory, root: Node?, w: Memory, root': Node?, n: Node,
      g: Node, s: Node?, sBlack: bool, left: bool, black: bool)
    requires Turned(m, a, n, g, s, sBlack, left) && Reparented(a, root, w, root', g, n, black)
    requires n != g && s != n && s != g && m[g].parent != n && m[g].parent != g && (s != null ==> m[g].parent != s)
    ensures Lifted(m, root, w, root', n, g, s, sBlack, left, black)
  {
  }

  /** The repair that the rotation of `n` over `g` makes superfluous. */
  ghost function Repaired(m: Memory, n: Node, g: Node, left: bool): Memory
    requires n in m && g in m
  {
    m[n := m[n].(parent := g)][g := WithChild(m[g], left, n)]
  }

  /** A rotation does not notice whether the link it turns round was stale. */
  lemma {:induction false} LiftedRepaired(m: Memory, root: Node?, w: Memory, root': Node?, n: Node, g: Node, s: Node?,
      sBlack: bool, left: bool, black: bool)
    requires Lifted(m, root, w, root', n, g, s, sBlack, left, black)
    requires n != g && s != n && s != g && m[g].parent != n && m[g].parent != g
    ensures Lifted(Repaired(m, n, g, left), root, w, root', n, g, s, sBlack, left, black)
  {
  }
}
