/**
 * The mathematical side of the red-black tree: trees over node references,
 * paths from a node up to the root, and the five red-black properties stated
 * on both.  Nothing here reads the heap; `RbMemory` says when linked nodes in
 * memory spell a tree.
 */
module RbShape {
  /** struct rb_node; the packed parent/colour word is split into two fields. */
  class Node {
    var left: Node?
    var right: Node?
    var parent: Node?
    var black: bool
    const key: int

    constructor (key: int)
      ensures this.key == key && left == null && right == null && parent == null && !black
    {
      this.key := key;
      left, right, parent, black := null, null, null, false;
    }
  }

  datatype Tree = Leaf | Bin(left: Tree, node: Node, black: bool, right: Tree)

  /**
   * A tree with a hole, as the way from the hole up to the root: the hole is the
   * left (or right) child of `node`, whose other child is `sibling`.
   */
  datatype Path = Top | Step(inLeft: bool, node: Node, black: bool, sibling: Tree, up: Path)

  // ---------------------------------------------------------------- shape

  ghost function Ref(t: Tree): Node? {
    if t.Leaf? then null else t.node
  }

  ghost function PathRef(p: Path): Node? {
    if p.Top? then null else p.node
  }

  /** A node over a tree and its sibling. */
  ghost function Join(inLeft: bool, t: Tree, n: Node, b: bool, sibling: Tree): Tree {
    if inLeft then Bin(t, n, b, sibling) else Bin(sibling, n, b, t)
  }

  ghost function Plug(p: Path, t: Tree): Tree {
    if p.Top? then t else Plug(p.up, Join(p.inLeft, t, p.node, p.black, p.sibling))
  }

  ghost function Nodes(t: Tree): set<Node> {
    if t.Leaf? then {} else Nodes(t.left) + {t.node} + Nodes(t.right)
  }

  ghost function PathNodes(p: Path): set<Node> {
    if p.Top? then {} else {p.node} + Nodes(p.sibling) + PathNodes(p.up)
  }

  ghost predicate Distinct(t: Tree) {
    t.Bin? ==>
      && Distinct(t.left) && Distinct(t.right)
      && t.node !in Nodes(t.left) && t.node !in Nodes(t.right) && Nodes(t.left) !! Nodes(t.right)
  }

  ghost predicate PathDistinct(p: Path) {
    p.Step? ==>
      && PathDistinct(p.up) && Distinct(p.sibling)
      && p.node !in Nodes(p.sibling) && p.node !in PathNodes(p.up) && Nodes(p.sibling) !! PathNodes(p.up)
  }

  /** Tree and path share no node, and neither repeats one. */
  ghost predicate Separate(p: Path, t: Tree) {
    PathDistinct(p) && Distinct(t) && PathNodes(p) !! Nodes(t)
  }

  ghost function Inorder(t: Tree): seq<Node> {
    if t.Leaf? then [] else Inorder(t.left) + [t.node] + Inorder(t.right)
  }

  /** The nodes of a path that come before its hole, in order. */
  ghost function Before(p: Path): seq<Node> {
    if p.Top? then []
    else if p.inLeft then Before(p.up)
    else Before(p.up) + Inorder(p.sibling) + [p.node]
  }

  /** The nodes of a path that come after its hole, in order. */
  ghost function After(p: Path): seq<Node> {
    if p.Top? then []
    else if p.inLeft then [p.node] + Inorder(p.sibling) + After(p.up)
    else After(p.up)
  }

  lemma {:induction false} PlugInorder(p: Path, t: Tree)
    ensures Inorder(Plug(p, t)) == Before(p) + Inorder(t) + After(p)
    decreases p
  {
    if p.Step? {
      PlugInorder(p.up, Join(p.inLeft, t, p.node, p.black, p.sibling));
      if p.inLeft {
        Regroup(Before(p.up), Inorder(t), p.node, Inorder(p.sibling), After(p.up));
      } else {
        Regroup(Before(p.up), Inorder(p.sibling), p.node, Inorder(t), After(p.up));
      }
    }
  }

  lemma {:induction false} Regroup(a: seq<Node>, b: seq<Node>, n: Node, c: seq<Node>, d: seq<Node>)
    ensures a + (b + [n] + c) + d == a + b + ([n] + c + d)
    ensures a + (b + [n] + c) + d == (a + b + [n]) + c + d
  {
  }

  lemma {:induction false} Around(a: seq<Node>, x: Node, b: seq<Node>, y: Node, c: seq<Node>)
    ensures a + [x] + (b + [y] + c) == (a + [x] + b) + [y] + c
  {
  }

  /** Replacing the content of a hole by one with the same order keeps the whole order. */
  lemma {:induction false} PlugKeepsOrder(p: Path, t: Tree, u: Tree)
    requires Inorder(t) == Inorder(u)
    ensures Inorder(Plug(p, t)) == Inorder(Plug(p, u))
  {
    PlugInorder(p, t);
    PlugInorder(p, u);
  }

  lemma {:induction false} PlugNodes(p: Path, t: Tree)
    ensures Nodes(Plug(p, t)) == PathNodes(p) + Nodes(t)
    ensures Distinct(Plug(p, t)) <==> Separate(p, t)
    decreases p
  {
    if p.Step? {
      PlugNodes(p.up, Join(p.inLeft, t, p.node, p.black, p.sibling));
    }
  }

  /** The path `d` inside the hole of `base`. */
  ghost function Graft(d: Path, base: Path): Path {
    if d.Top? then base else Step(d.inLeft, d.node, d.black, d.sibling, Graft(d.up, base))
  }

  lemma {:induction false} GraftPlug(d: Path, base: Path, t: Tree)
    ensures Plug(Graft(d, base), t) == Plug(base, Plug(d, t))
    decreases d
  {
    if d.Step? {
      GraftPlug(d.up, base, Join(d.inLeft, t, d.node, d.black, d.sibling));
    }
  }

  lemma {:induction false} GraftBefore(d: Path, base: Path)
    ensures Before(Graft(d, base)) == Before(base) + Before(d)
    ensures After(Graft(d, base)) == After(d) + After(base)
    decreases d
  {
    if d.Step? {
      GraftBefore(d.up, base);
    }
  }

  ghost function Elements(s: seq<Node>): set<Node> {
    if s == [] then {} else {s[0]} + Elements(s[1..])
  }

  lemma {:induction false} ElementsConcat(s: seq<Node>, u: seq<Node>)
    ensures Elements(s + u) == Elements(s) + Elements(u)
    decreases s
  {
    if s == [] {
      assert s + u == u;
    } else {
      assert (s + u)[1..] == s[1..] + u;
      ElementsConcat(s[1..], u);
    }
  }

  /** A tree's nodes are those of its order, and they are distinct when there are as many. */
  lemma {:induction false} NodesAreElements(t: Tree)
    ensures Nodes(t) == Elements(Inorder(t))
    ensures |Nodes(t)| <= |Inorder(t)|
    ensures Distinct(t) <==> |Nodes(t)| == |Inorder(t)|
    decreases t
  {
    if t.Bin? {
      var l, n, r := Nodes(t.left), t.node, Nodes(t.right);
      NodesAreElements(t.left);
      NodesAreElements(t.right);
      ElementsConcat(Inorder(t.left) + [n], Inorder(t.right));
      ElementsConcat(Inorder(t.left), [n]);
      assert [n][1..] == [];
      assert |l + {n}| == |l| + (if n in l then 0 else 1) by {
        assert n in l ==> l + {n} == l;
      }
      assert |l + {n} + r| + |(l + {n}) * r| == |l + {n}| + |r|;
      assert (l + {n}) * r == {} <==> n !in r && l !! r;
    }
  }

  /** Rearranging a tree without touching its order keeps its nodes, each still occurring once. */
  lemma {:induction false} SameOrder(p: Path, t: Tree, q: Path, u: Tree)
    requires Separate(p, t) && Inorder(Plug(q, u)) == Inorder(Plug(p, t))
    ensures Separate(q, u) && PathNodes(q) + Nodes(u) == PathNodes(p) + Nodes(t)
  {
    PlugNodes(p, t);
    PlugNodes(q, u);
    NodesAreElements(Plug(p, t));
    NodesAreElements(Plug(q, u));
  }

  // ------------------------------------------------- red-black properties

  ghost predicate IsBlack(t: Tree) {
    t.Leaf? || t.black          // property 3: leaves are black
  }

  /** Every way down `t` meets `h` black nodes (5) and no red node has a red child (4). */
  ghost predicate Balanced(t: Tree, h: nat) {
    if t.Leaf? then h == 0
    else if t.black then h > 0 && Balanced(t.left, h - 1) && Balanced(t.right, h - 1)
    else IsBlack(t.left) && IsBlack(t.right) && Balanced(t.left, h) && Balanced(t.right, h)
  }

  /** May the hole of `p` hold a red tree? */
  ghost predicate AcceptsRed(p: Path) {
    p.Step? && p.black
  }

  /** `p` would be red-black if its hole held a balanced tree of black height `h`. */
  ghost predicate PathBalanced(p: Path, h: nat) {
    p.Step? ==>
      && Balanced(p.sibling, h)
      && (p.black || (IsBlack(p.sibling) && AcceptsRed(p.up)))
      && PathBalanced(p.up, if p.black then h + 1 else h)
  }

  /** The five properties of the whole tree; `h` black nodes on every way down. */
  ghost predicate RedBlack(t: Tree, h: nat) {
    IsBlack(t) && Balanced(t, h)
  }

  ghost predicate IsRedBlack(t: Tree) {
    exists h: nat :: RedBlack(t, h)
  }

  /** A balanced tree in a balanced hole of the same height is a red-black tree. */
  lemma {:induction false} PlugRedBlack(p: Path, t: Tree, h: nat)
    requires PathBalanced(p, h) && Balanced(t, h) && (IsBlack(t) || AcceptsRed(p))
    ensures IsRedBlack(Plug(p, t))
    decreases p
  {
    if p.Top? {
      assert RedBlack(t, h);
    } else {
      PlugRedBlack(p.up, Join(p.inLeft, t, p.node, p.black, p.sibling), if p.black then h + 1 else h);
    }
  }

  /** The converse: any place in a red-black tree splits it into a balanced pair. */
  lemma {:induction false} UnplugRedBlack(p: Path, t: Tree, g: nat) returns (h: nat)
    requires RedBlack(Plug(p, t), g)
    ensures PathBalanced(p, h) && Balanced(t, h) && (IsBlack(t) || AcceptsRed(p))
    decreases p
  {
    if p.Top? {
      h := g;
    } else {
      h := UnplugRedBlack(p.up, Join(p.inLeft, t, p.node, p.black, p.sibling), g);
      h := if p.black then h - 1 else h;
    }
  }

  // ------------------------------------------------------ the depth bound

  ghost function Height(t: Tree): nat {
    if t.Leaf? then 0
    else 1 + if Height(t.left) > Height(t.right) then Height(t.left) else Height(t.right)
  }

  ghost function Pow2(n: nat): nat {
    if n == 0 then 1 else 2 * Pow2(n - 1)
  }

  /** "The longest possible path due to 4 is 2B", one more below a red top. */
  lemma {:induction false} HeightBound(t: Tree, h: nat)
    requires Balanced(t, h)
    ensures Height(t) <= 2 * h + if IsBlack(t) then 0 else 1
    ensures Pow2(h) <= |Inorder(t)| + 1
    decreases t
  {
    if t.Bin? {
      HeightBound(t.left, if t.black then h - 1 else h);
      HeightBound(t.right, if t.black then h - 1 else h);
    }
  }

  /** The O(log n) guarantee: 2^(height/2) never exceeds the node count plus one. */
  lemma {:induction false} LogarithmicHeight(t: Tree)
    requires IsRedBlack(t)
    ensures exists h: nat :: RedBlack(t, h) && Height(t) <= 2 * h && Pow2(h) <= |Inorder(t)| + 1
  {
    var h: nat :| RedBlack(t, h);
    HeightBound(t, h);
  }
}
