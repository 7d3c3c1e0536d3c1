// The pointer tree of FF/ffrbtree.c and FF/rbtree.h.  Every method works on the
// links of the nodes, as the source does, and is proved to turn links that
// represent one value of TreeShape into links that represent another.
module RedBlackTree {
  import opened TreeShape

  // ----- What it means for links to represent a tree

  /** The tree fields, or the sibling fields, of one node, and those of a set of nodes. */
  datatype Links =
    | Links(left: Node?, right: Node?, parent: Node?, color: Color, key: int)
    | Sib(next: Node?, prev: Node?)
  type Heap = map<Node, Links>

  ghost function Snapshot(s: set<Node>): Heap
    reads s`left, s`right, s`parent, s`color, s`key
  {
    map n | n in s :: if n in s then Links(n.left, n.right, n.parent, n.color, n.key) else Sib(null, null)
  }

  function Nodes(t: Tree): set<Node>
  {
    if t.Leaf? then {} else Nodes(t.left) + {t.node} + Nodes(t.right)
  }

  function CtxNodes(c: Context): set<Node>
  {
    if c.Top? then {} else CtxNodes(c.up) + {c.node} + Nodes(Sibling(c))
  }

  /** No node occurs twice. */
  predicate Distinct(t: Tree)
  {
    t.Leaf? ||
    (&& Distinct(t.left) && Distinct(t.right)
     && t.node !in Nodes(t.left) && t.node !in Nodes(t.right)
     && Nodes(t.left) !! Nodes(t.right))
  }

  predicate DistinctCtx(c: Context)
  {
    c.Top? ||
    (&& DistinctCtx(c.up) && Distinct(Sibling(c))
     && c.node !in CtxNodes(c.up) && c.node !in Nodes(Sibling(c))
     && CtxNodes(c.up) !! Nodes(Sibling(c)))
  }

  function Ref(t: Tree, sentl: Node): Node
  {
    if t.Leaf? then sentl else t.node
  }

  function Parent(c: Context, sentl: Node): Node
  {
    if c.Top? then sentl else c.node
  }

  predicate Has(m: Heap, n: Node, links: Links)
  {
    n in m && m[n] == links
  }

  function NodeLinks(t: Tree, parent: Node, sentl: Node): Links
    requires t.Fork?
  {
    Links(Ref(t.left, sentl), Ref(t.right, sentl), parent, t.color, t.key)
  }

  function CtxLinks(c: Context, hole: Node, sentl: Node): Links
    requires !c.Top?
  {
    if c.InLeft? then Links(hole, Ref(c.right, sentl), Parent(c.up, sentl), c.color, c.key)
    else Links(Ref(c.left, sentl), hole, Parent(c.up, sentl), c.color, c.key)
  }

  /** The links below 'parent' form 't'. */
  predicate Linked(m: Heap, t: Tree, parent: Node, sentl: Node)
  {
    t.Leaf? ||
    (&& Has(m, t.node, NodeLinks(t, parent, sentl))
     && Linked(m, t.left, t.node, sentl) && Linked(m, t.right, t.node, sentl))
  }

  /** The links from 'root' down to 'hole' form 'c'. */
  predicate LinkedCtx(m: Heap, c: Context, hole: Node, root: Node, sentl: Node)
  {
    if c.Top? then root == hole else
    && Has(m, c.node, CtxLinks(c, hole, sentl))
    && Linked(m, Sibling(c), c.node, sentl)
    && LinkedCtx(m, c.up, c.node, root, sentl)
  }

  predicate Apart(c: Context, t: Tree, sentl: Node)
  {
    && Distinct(t) && DistinctCtx(c) && Nodes(t) !! CtxNodes(c)
    && sentl !in Nodes(t) && sentl !in CtxNodes(c)
  }

  /** The links represent 't' in the hole of 'c'. */
  predicate Represents(m: Heap, c: Context, t: Tree, root: Node, sentl: Node)
  {
    && Apart(c, t, sentl)
    && Linked(m, t, Parent(c, sentl), sentl)
    && LinkedCtx(m, c, Ref(t, sentl), root, sentl)
  }

  lemma {:induction false} PlugNodes(c: Context, t: Tree)
    ensures Nodes(Plug(c, t)) == Nodes(t) + CtxNodes(c)
    decreases c
  {
    if !c.Top? { PlugNodes(c.up, Fill(c, t)); }
  }

  // Moving the hole: the same links, seen from the parent, a child or the sibling.

  lemma FromParent(m: Heap, c: Context, t: Tree, root: Node, sentl: Node)
    requires !c.Top? && Represents(m, c, t, root, sentl)
    ensures Represents(m, c.up, Fill(c, t), root, sentl)
  {
  }

  lemma FromChild(m: Heap, c: Context, t: Tree, root: Node, sentl: Node)
    requires !c.Top? && Represents(m, c.up, Fill(c, t), root, sentl)
    ensures Represents(m, c, t, root, sentl)
  {
  }

  /** The context of the sibling of the hole of 'c', when 't' is in the hole. */
  function Beside(c: Context, t: Tree): Context
    requires !c.Top?
  {
    if c.InLeft? then InRight(c.up, t, c.node, c.color, c.key) else InLeft(c.up, c.node, c.color, c.key, t)
  }

  lemma FromSibling(m: Heap, c: Context, t: Tree, root: Node, sentl: Node)
    requires !c.Top? && Represents(m, c, t, root, sentl)
    ensures Represents(m, Beside(c, t), Sibling(c), root, sentl)
    ensures Nodes(Sibling(c)) + CtxNodes(Beside(c, t)) == Nodes(t) + CtxNodes(c)
  {
    FromParent(m, c, t, root, sentl);
    FromChild(m, Beside(c, t), Sibling(c), root, sentl);
  }

  lemma {:induction false} PlugRepresents(m: Heap, c: Context, t: Tree, root: Node, sentl: Node)
    requires Represents(m, c, t, root, sentl)
    ensures Represents(m, Top, Plug(c, t), root, sentl)
    decreases c
  {
    if !c.Top? { PlugRepresents(m, c.up, Fill(c, t), root, sentl); }
  }

  lemma {:induction false} UnplugRepresents(m: Heap, c: Context, t: Tree, root: Node, sentl: Node)
    requires Represents(m, Top, Plug(c, t), root, sentl)
    ensures Represents(m, c, t, root, sentl)
    decreases c
  {
    if !c.Top? { UnplugRepresents(m, c.up, Fill(c, t), root, sentl); }
  }

  /** 'm'' has the links of 'm' on 's'. */
  predicate Same(m: Heap, m': Heap, s: set<Node>)
  {
    forall n :: n in s && n in m ==> n in m' && m'[n] == m[n]
  }

  lemma {:induction false} KeptUnder(m: Heap, m': Heap, t: Tree, p: Node, p': Node, sentl: Node)
    requires Linked(m, t, p, sentl) && Distinct(t)
    requires Same(m, m', Nodes(t) - {Ref(t, sentl)})
    requires t.Fork? ==> Has(m', t.node, NodeLinks(t, p', sentl))
    ensures Linked(m', t, p', sentl)
  {
    if t.Fork? {
      KeptUnder(m, m', t.left, t.node, t.node, sentl);
      KeptUnder(m, m', t.right, t.node, t.node, sentl);
    }
  }

  lemma {:induction false} KeptAbove(m: Heap, m': Heap, c: Context, h: Node, h': Node, root: Node, root': Node, sentl: Node)
    requires LinkedCtx(m, c, h, root, sentl) && DistinctCtx(c)
    requires Same(m, m', CtxNodes(c) - {Parent(c, sentl)})
    requires if c.Top? then root' == h' else
      root' == root && Has(m', c.node, CtxLinks(c, h', sentl))
    ensures LinkedCtx(m', c, h', root', sentl)
    decreases c
  {
    if !c.Top? {
      KeptUnder(m, m', Sibling(c), c.node, c.node, sentl);
      KeptAbove(m, m', c.up, c.node, c.node, root, root, sentl);
    }
  }

  // ----- Rotations

  function RotateLeft(t: Tree): Tree
    requires t.Fork? && t.right.Fork?
  {
    t.right.(left := t.(right := t.right.left))
  }

  function RotateRight(t: Tree): Tree
    requires t.Fork? && t.left.Fork?
  {
    t.left.(right := t.(left := t.left.right))
  }

  lemma RotateApart(c: Context, t: Tree, sentl: Node)
    requires t.Fork? && t.right.Fork?
    ensures Nodes(RotateLeft(t)) == Nodes(t)
    ensures Apart(c, RotateLeft(t), sentl) <==> Apart(c, t, sentl)
  {
    var (A, B, C) := (t.left, t.right.left, t.right.right);
    assert Nodes(t) == Nodes(A) + {t.node} + Nodes(B) + {t.right.node} + Nodes(C);
    assert Nodes(RotateLeft(t)) == Nodes(A) + {t.node} + Nodes(B) + {t.right.node} + Nodes(C);
    assert Distinct(t) <==> Distinct(RotateLeft(t));
  }

  /** The links that a left rotation writes represent the rotated tree. */
  lemma RotatedLeft(m: Heap, m': Heap, c: Context, t: Tree, root: Node, root': Node, sentl: Node)
    requires Represents(m, c, t, root, sentl)
    requires t.Fork? && t.right.Fork?
    requires var (t', B) := (RotateLeft(t), t.right.left);
      && Has(m', t'.node, NodeLinks(t', Parent(c, sentl), sentl))
      && Has(m', t'.left.node, NodeLinks(t'.left, t'.node, sentl))
      && (B.Fork? ==> Has(m', B.node, NodeLinks(B, t'.left.node, sentl)))
      && Same(m, m', m.Keys - {t'.node, t'.left.node, Ref(B, sentl), Parent(c, sentl)})
      && if c.Top? then root' == t'.node else root' == root && Has(m', c.node, CtxLinks(c, t'.node, sentl))
    ensures Represents(m', c, RotateLeft(t), root', sentl)
  {
    RotateApart(c, t, sentl);
    var (A, B, C) := (t.left, t.right.left, t.right.right);
    assert Linked(m, t.right, t.node, sentl) && Distinct(t.right);
    assert Nodes(t.right) == Nodes(B) + {t.right.node} + Nodes(C);
    KeptUnder(m, m', A, t.node, t.node, sentl);
    KeptUnder(m, m', B, t.right.node, t.node, sentl);
    KeptUnder(m, m', C, t.right.node, t.right.node, sentl);
    KeptAbove(m, m', c, t.node, t.right.node, root, root', sentl);
    assert Linked(m', RotateLeft(t).left, t.right.node, sentl);
  }

  lemma RotatedRight(m: Heap, m': Heap, c: Context, t: Tree, root: Node, root': Node, sentl: Node)
    requires Represents(m, c, t, root, sentl)
    requires t.Fork? && t.left.Fork?
    requires var (t', B) := (RotateRight(t), t.left.right);
      && Has(m', t'.node, NodeLinks(t', Parent(c, sentl), sentl))
      && Has(m', t'.right.node, NodeLinks(t'.right, t'.node, sentl))
      && (B.Fork? ==> Has(m', B.node, NodeLinks(B, t'.right.node, sentl)))
      && Same(m, m', m.Keys - {t'.node, t'.right.node, Ref(B, sentl), Parent(c, sentl)})
      && if c.Top? then root' == t'.node else root' == root && Has(m', c.node, CtxLinks(c, t'.node, sentl))
    ensures Represents(m', c, RotateRight(t), root', sentl)
  {
    RotateApart(c, RotateRight(t), sentl);
    assert RotateLeft(RotateRight(t)) == t;
    var (A, B, C) := (t.left.left, t.left.right, t.right);
    assert Linked(m, t.left, t.node, sentl) && Distinct(t.left);
    assert Nodes(t.left) == Nodes(A) + {t.left.node} + Nodes(B);
    KeptUnder(m, m', A, t.left.node, t.left.node, sentl);
    KeptUnder(m, m', B, t.left.node, t.node, sentl);
    KeptUnder(m, m', C, t.node, t.node, sentl);
    KeptAbove(m, m', c, t.node, t.left.node, root, root', sentl);
    assert Linked(m', RotateRight(t).right, t.left.node, sentl);
  }

  /** Writing the colour of the node at the root of 't'. */
  lemma Recolored(m: Heap, m': Heap, c: Context, t: Tree, color: Color, root: Node, sentl: Node)
    requires Represents(m, c, t, root, sentl) && t.Fork?
    requires Has(m', t.node, NodeLinks(t.(color := color), Parent(c, sentl), sentl))
    requires Same(m, m', m.Keys - {t.node})
    ensures Represents(m', c, t.(color := color), root, sentl)
  {
    KeptUnder(m, m', t.left, t.node, t.node, sentl);
    KeptUnder(m, m', t.right, t.node, t.node, sentl);
    KeptAbove(m, m', c, t.node, t.node, root, root, sentl);
  }

  /** The node above the hole of 'c', where there is one. */
  function Above(c: Context): set<Node>
  {
    if c.Top? then {} else {c.node}
  }

  /** Make 'nnew' take the place of 'nold' below the parent of 'nold'. */
  method RelinkParent(nold: Node, nnew: Node, root: Node, sentl: Node, ghost c: Context) returns (root': Node)
    requires nold.parent == Parent(c, sentl)
    requires !c.Top? ==> c.node != sentl && (c.node.left == nold <==> c.InLeft?)
    modifies Above(c)`left, Above(c)`right, nnew`parent
    ensures nnew.parent == Parent(c, sentl)
    ensures root' == if c.Top? then nnew else root
    ensures !c.Top? ==> c.node.left == if c.InLeft? then nnew else old(c.node.left)
    ensures !c.Top? ==> c.node.right == if c.InLeft? then old(c.node.right) else nnew
  {
    var p := nold.parent;
    root' := root;
    if p == sentl {
      root' := nnew;
    } else if nold == p.left {
      p.left := nnew;
    } else {
      p.right := nnew;
    }
    nnew.parent := p;
  }

  /** The links of a node, of its children and of its parent, which are all different nodes. */
  lemma Around(m: Heap, s: set<Node>, c: Context, t: Tree, root: Node, sentl: Node)
    requires Nodes(t) + CtxNodes(c) <= s && sentl !in s
    requires Represents(m, c, t, root, sentl) && t.Fork?
    ensures t.node in s && Has(m, t.node, NodeLinks(t, Parent(c, sentl), sentl))
    ensures t.left.Fork? ==>
      t.left.node in s && t.left.node != t.node && Has(m, t.left.node, NodeLinks(t.left, t.node, sentl))
    ensures t.right.Fork? ==>
      t.right.node in s && t.right.node != t.node && Has(m, t.right.node, NodeLinks(t.right, t.node, sentl))
    ensures t.left.Fork? && t.right.Fork? ==> t.left.node != t.right.node
    ensures !c.Top? ==>
      && c.node in s && c.node != t.node && Has(m, c.node, CtxLinks(c, t.node, sentl))
      && (t.left.Fork? ==> c.node != t.left.node) && (t.right.Fork? ==> c.node != t.right.node)
    ensures !c.Top? ==> Ref(Sibling(c), sentl) != t.node
  {
    assert Linked(m, t.left, t.node, sentl) && Linked(m, t.right, t.node, sentl);
    assert t.left.Fork? ==> t.left.node in Nodes(t.left);
    assert t.right.Fork? ==> t.right.node in Nodes(t.right);
    if !c.Top? { assert Sibling(c).Fork? ==> Sibling(c).node in CtxNodes(c); }
  }

  /** The same, and for the inner subtree that a rotation moves. */
  lemma AroundRight(m: Heap, s: set<Node>, c: Context, t: Tree, root: Node, sentl: Node)
    requires Nodes(t) + CtxNodes(c) <= s && sentl !in s
    requires Represents(m, c, t, root, sentl) && t.Fork? && t.right.Fork?
    ensures var B := t.right.left;
      B.Fork? ==>
        && B.node in s && B.node != t.node && B.node != t.right.node && (!c.Top? ==> B.node != c.node)
        && Has(m, B.node, NodeLinks(B, t.right.node, sentl))
  {
    var B := t.right.left;
    assert Linked(m, t.right, t.node, sentl) && Distinct(t.right) && Linked(m, B, t.right.node, sentl);
    assert B.Fork? ==> B.node in Nodes(B);
  }

  lemma AroundLeft(m: Heap, s: set<Node>, c: Context, t: Tree, root: Node, sentl: Node)
    requires Nodes(t) + CtxNodes(c) <= s && sentl !in s
    requires Represents(m, c, t, root, sentl) && t.Fork? && t.left.Fork?
    ensures var B := t.left.right;
      B.Fork? ==>
        && B.node in s && B.node != t.node && B.node != t.left.node && (!c.Top? ==> B.node != c.node)
        && Has(m, B.node, NodeLinks(B, t.left.node, sentl))
  {
    var B := t.left.right;
    assert Linked(m, t.left, t.node, sentl) && Distinct(t.left) && Linked(m, B, t.left.node, sentl);
    assert B.Fork? ==> B.node in Nodes(B);
  }

  lemma RootIn(t: Tree, c: Context)
    ensures t.Fork? ==> t.node in Nodes(t)
    ensures t.Fork? && t.left.Fork? ==> t.left.node in Nodes(t)
    ensures t.Fork? && t.right.Fork? ==> t.right.node in Nodes(t)
    ensures !c.Top? ==> c.node in CtxNodes(c)
  {
  }

  method LeftRotate(nod: Node, root: Node, sentl: Node, ghost c: Context, ghost t: Tree, ghost s: set<Node>)
    returns (root': Node)
    requires Nodes(t) <= s && CtxNodes(c) <= s && sentl !in s
    requires Represents(Snapshot(s), c, t, root, sentl)
    requires t.Fork? && t.right.Fork? && t.node == nod
    modifies s`left, s`right, s`parent
    ensures Represents(Snapshot(s), c, RotateLeft(t), root', sentl)
  {
    hide Represents, Linked, LinkedCtx, Nodes, CtxNodes, Distinct, DistinctCtx, Apart;
    ghost var m := Snapshot(s);
    Around(m, s, c, t, root, sentl);
    AroundRight(m, s, c, t, root, sentl);
    var r := nod.right;
    nod.right := r.left;
    if r.left != sentl {
      r.left.parent := nod;
    }
    root' := RelinkParent(nod, r, root, sentl, c);
    r.left := nod;
    nod.parent := r;
    RotatedLeft(m, Snapshot(s), c, t, root, root', sentl);
  }

  method RightRotate(nod: Node, root: Node, sentl: Node, ghost c: Context, ghost t: Tree, ghost s: set<Node>)
    returns (root': Node)
    requires Nodes(t) <= s && CtxNodes(c) <= s && sentl !in s
    requires Represents(Snapshot(s), c, t, root, sentl)
    requires t.Fork? && t.left.Fork? && t.node == nod
    modifies s`left, s`right, s`parent
    ensures Represents(Snapshot(s), c, RotateRight(t), root', sentl)
  {
    hide Represents, Linked, LinkedCtx, Nodes, CtxNodes, Distinct, DistinctCtx, Apart;
    ghost var m := Snapshot(s);
    Around(m, s, c, t, root, sentl);
    AroundLeft(m, s, c, t, root, sentl);
    var l := nod.left;
    nod.left := l.right;
    if l.right != sentl {
      l.right.parent := nod;
    }
    root' := RelinkParent(nod, l, root, sentl, c);
    l.right := nod;
    nod.parent := l;
    RotatedRight(m, Snapshot(s), c, t, root, root', sentl);
  }

  method SetColor(nod: Node, color: Color, ghost root: Node, ghost sentl: Node, ghost c: Context, ghost t: Tree, ghost s: set<Node>)
    requires Nodes(t) <= s && CtxNodes(c) <= s
    requires Represents(Snapshot(s), c, t, root, sentl)
    requires t.Fork? && t.node == nod
    modifies nod`color
    ensures Represents(Snapshot(s), c, t.(color := color), root, sentl)
  {
    ghost var m := Snapshot(s);
    nod.color := color;
    Recolored(m, Snapshot(s), c, t, color, root, sentl);
  }

  // ----- Insertion

  function Single(n: Node, color: Color, key: int): Tree
  {
    Fork(Leaf, n, color, key, Leaf)
  }

  /** A new node put into an empty hole. */
  lemma Attached(m: Heap, m': Heap, c: Context, n: Node, color: Color, key: int, root: Node, root': Node, sentl: Node)
    requires Represents(m, c, Leaf, root, sentl)
    requires n !in CtxNodes(c) && n != sentl
    requires Has(m', n, NodeLinks(Single(n, color, key), Parent(c, sentl), sentl))
    requires Same(m, m', CtxNodes(c) - {Parent(c, sentl)})
    requires if c.Top? then root' == n else root' == root && Has(m', c.node, CtxLinks(c, n, sentl))
    ensures Represents(m', c, Single(n, color, key), root', sentl)
  {
    KeptAbove(m, m', c, sentl, n, root, root', sentl);
  }

  /** The search loop of fftree_insert: the node to attach to, and on which side. */
  method FindPlace(start: Node, key: int, sentl: Node, ghost root: Node, ghost c: Context, ghost t: Tree, ghost s: set<Node>)
    returns (parent: Node, toLeft: bool, ghost d: Context)
    requires Nodes(t) + CtxNodes(c) <= s && sentl !in s
    requires Represents(Snapshot(s), c, t, root, sentl) && t.Fork? && start == t.node
    ensures d == Descend(c, t, key) && !d.Top? && d.node == parent && d.InLeft? == toLeft
    ensures Represents(Snapshot(s), d, Leaf, root, sentl)
    ensures CtxNodes(d) == Nodes(t) + CtxNodes(c)
  {
    parent := start;
    d := c;
    ghost var u := t;
    while true
      invariant Represents(Snapshot(s), d, u, root, sentl) && u.Fork? && u.node == parent
      invariant Nodes(u) + CtxNodes(d) == Nodes(t) + CtxNodes(c)
      invariant Descend(d, u, key) == Descend(c, t, key)
      decreases u
    {
      toLeft := key < parent.key;
      var child := if toLeft then parent.left else parent.right;
      if toLeft {
        d, u := InLeft(d, parent, u.color, u.key, u.right), u.left;
      } else {
        d, u := InRight(d, u.left, parent, u.color, u.key), u.right;
      }
      if child == sentl {
        break;
      }
      parent := child;
    }
  }

  /** fftree_insert: 'start' is the node where the search begins. */
  method TreeInsert(nod: Node, start: Node, sentl: Node, ghost root: Node, ghost c: Context, ghost t: Tree, ghost s: set<Node>)
    returns (start': Node)
    requires nod in s && nod !in Nodes(t) + CtxNodes(c) && Nodes(t) + CtxNodes(c) <= s && sentl !in s
    requires Represents(Snapshot(s), c, t, root, sentl)
    requires start == Ref(t, sentl) && (t.Leaf? ==> c.Top?)
    modifies s`left, s`right, nod`parent
    ensures start' == if t.Leaf? then nod else start
    ensures Represents(Snapshot(s), Descend(c, t, nod.key), Single(nod, nod.color, nod.key), if t.Leaf? then nod else root, sentl)
  {
    start' := start;
    if start == sentl {
      ghost var m := Snapshot(s);
      start' := nod;
      nod.parent := sentl;
      nod.left, nod.right := sentl, sentl;
      Attached(m, Snapshot(s), c, nod, nod.color, nod.key, root, nod, sentl);
    } else {
      var parent, toLeft;
      ghost var d;
      parent, toLeft, d := FindPlace(start, nod.key, sentl, root, c, t, s);
      ghost var m := Snapshot(s);
      if toLeft {
        parent.left := nod;
      } else {
        parent.right := nod;
      }
      nod.parent := parent;
      nod.left, nod.right := sentl, sentl;
      Attached(m, Snapshot(s), d, nod, nod.color, nod.key, root, root, sentl);
    }
  }

  /** The first half of ffrbt_insert: attach 'nod' as a red leaf. */
  method AttachRed(nod: Node, start: Node, sentl: Node, ghost root: Node, ghost c: Context, ghost t: Tree, ghost s: set<Node>)
    returns (start': Node)
    requires nod in s && nod !in Nodes(t) + CtxNodes(c) && Nodes(t) + CtxNodes(c) <= s && sentl !in s
    requires Represents(Snapshot(s), c, t, root, sentl)
    requires start == Ref(t, sentl) && (t.Leaf? ==> c.Top?)
    modifies s`left, s`right, nod`parent, nod`color
    ensures start' == if t.Leaf? then nod else start
    ensures Represents(Snapshot(s), Descend(c, t, nod.key), Single(nod, Red, nod.key), if t.Leaf? then nod else root, sentl)
  {
    start' := TreeInsert(nod, start, sentl, root, c, t, s);
    DescendPlug(c, t, nod.key);
    PlugNodes(c, t);
    PlugNodes(Descend(c, t, nod.key), Leaf);
    SetColor(nod, Red, if t.Leaf? then nod else root, sentl, Descend(c, t, nod.key), Single(nod, nod.color, nod.key), s);
  }

  /** A red node below a red left child, with a black uncle. */
  method RepairLeft(node: Node, gp: Node, root: Node, sentl: Node, ghost c: Context, ghost t: Tree, ghost s: set<Node>)
    returns (root': Node)
    requires Nodes(t) <= s && CtxNodes(c) <= s && sentl !in s
    requires Represents(Snapshot(s), c, t, root, sentl)
    requires IsRed(t) && RedPair(c) && t.node == node
    requires c.up.InLeft? && c.up.node == gp && !IsRed(c.up.right)
    modifies s`left, s`right, s`parent, s`color
    ensures Represents(Snapshot(s), c.up.up, InsertStep(c, t), root', sentl)
  {
    var nod := node;
    var p := nod.parent;
    root' := root;
    ghost var u := Fill(c, t);
    FromParent(Snapshot(s), c, t, root, sentl);
    if nod == p.right {
      root' := LeftRotate(p, root', sentl, c.up, u, s);
      u := RotateLeft(u);
      nod := p;
      assert Linked(Snapshot(s), u.left, u.node, sentl);
    }
    SetColor(nod.parent, Black, root', sentl, c.up, u, s);
    u := u.(color := Black);
    ghost var g := Fill(c.up, u);
    FromParent(Snapshot(s), c.up, u, root', sentl);
    SetColor(gp, Red, root', sentl, c.up.up, g, s);
    root' := RightRotate(gp, root', sentl, c.up.up, g.(color := Red), s);
  }

  /** A red node below a red right child, with a black uncle. */
  method RepairRight(node: Node, gp: Node, root: Node, sentl: Node, ghost c: Context, ghost t: Tree, ghost s: set<Node>)
    returns (root': Node)
    requires Nodes(t) <= s && CtxNodes(c) <= s && sentl !in s
    requires Represents(Snapshot(s), c, t, root, sentl)
    requires IsRed(t) && RedPair(c) && t.node == node
    requires c.up.InRight? && c.up.node == gp && !IsRed(c.up.left)
    modifies s`left, s`right, s`parent, s`color
    ensures Represents(Snapshot(s), c.up.up, InsertStep(c, t), root', sentl)
  {
    var nod := node;
    var p := nod.parent;
    root' := root;
    ghost var u := Fill(c, t);
    FromParent(Snapshot(s), c, t, root, sentl);
    if nod == p.left {
      root' := RightRotate(p, root', sentl, c.up, u, s);
      u := RotateRight(u);
      nod := p;
      assert Linked(Snapshot(s), u.right, u.node, sentl);
    }
    SetColor(nod.parent, Black, root', sentl, c.up, u, s);
    u := u.(color := Black);
    ghost var g := Fill(c.up, u);
    FromParent(Snapshot(s), c.up, u, root', sentl);
    SetColor(gp, Red, root', sentl, c.up.up, g, s);
    root' := LeftRotate(gp, root', sentl, c.up.up, g.(color := Red), s);
  }

  /** The red uncle case: colours only. */
  method PushRedUp(p: Node, uncle: Node, gp: Node, ghost root: Node, ghost sentl: Node, ghost c: Context, ghost t: Tree, ghost s: set<Node>)
    requires Nodes(t) <= s && CtxNodes(c) <= s && sentl !in s
    requires Represents(Snapshot(s), c, t, root, sentl)
    requires IsRed(t) && RedPair(c)
    requires c.node == p && c.up.node == gp && IsRed(Sibling(c.up)) && Sibling(c.up).node == uncle
    modifies s`color
    ensures Represents(Snapshot(s), c.up.up, InsertStep(c, t), root, sentl)
  {
    ghost var u := Fill(c, t);
    SetColor(p, Black, root, sentl, c.up, u, s);
    u := u.(color := Black);
    ghost var d := if c.up.InLeft? then InRight(c.up.up, u, gp, c.up.color, c.up.key)
                   else InLeft(c.up.up, gp, c.up.color, c.up.key, u);
    SetColor(uncle, Black, root, sentl, d, Sibling(c.up), s);
    ghost var g := Fill(d, Blacken(Sibling(c.up)));
    SetColor(gp, Red, root, sentl, c.up.up, g, s);
  }

  /** What the links say around the node at the hole of a context. */
  lemma Surroundings(m: Heap, c: Context, t: Tree, root: Node, sentl: Node)
    requires Represents(m, c, t, root, sentl) && t.Fork?
    ensures Has(m, t.node, NodeLinks(t, Parent(c, sentl), sentl))
    ensures !c.Top? ==>
      && Has(m, c.node, CtxLinks(c, t.node, sentl)) && c.node != sentl && c.node in CtxNodes(c)
      && (Sibling(c).Fork? ==> Has(m, Sibling(c).node, NodeLinks(Sibling(c), c.node, sentl)))
      && t.node != Ref(Sibling(c), sentl)
  {
    if !c.Top? { assert Sibling(c).Fork? ==> Sibling(c).node in CtxNodes(c); }
  }

  lemma FieldsAround(s: set<Node>, c: Context, t: Tree, root: Node, sentl: Node)
    requires Nodes(t) + CtxNodes(c) <= s
    requires Represents(Snapshot(s), c, t, root, sentl) && t.Fork?
    ensures t.node.parent == Parent(c, sentl)
    ensures !c.Top? ==> c.node.color == c.color && c.node.parent == Parent(c.up, sentl)
  {
    Surroundings(Snapshot(s), c, t, root, sentl);
  }

  method BlackenRoot(root: Node, ghost sentl: Node, ghost c: Context, ghost t: Tree, ghost s: set<Node>)
    requires Nodes(t) <= s && CtxNodes(c) <= s
    requires Represents(Snapshot(s), c, t, root, sentl) && t.Fork?
    modifies s`color
    ensures Represents(Snapshot(s), Top, Blacken(Plug(c, t)), root, sentl)
  {
    PlugRepresents(Snapshot(s), c, t, root, sentl);
    PlugNodes(c, t);
    SetColor(root, Black, root, sentl, Top, Plug(c, t), s);
  }

  lemma InsertStepNodes(c: Context, t: Tree)
    requires IsRed(t) && RedPair(c)
    ensures Nodes(InsertStep(c, t)) + CtxNodes(c.up.up) == Nodes(t) + CtxNodes(c)
  {
    assert CtxNodes(c) == CtxNodes(c.up.up) + {c.up.node} + Nodes(Sibling(c.up)) + {c.node} + Nodes(Sibling(c));
    assert Nodes(Blacken(Sibling(c.up))) == Nodes(Sibling(c.up));
    var u := InsertStep(c, t);
    assert Nodes(u) == Nodes(u.left) + {u.node} + Nodes(u.right);
    assert Nodes(t) == Nodes(t.left) + {t.node} + Nodes(t.right);
  }

  lemma {:induction false} InsertFixupNodes(c: Context, t: Tree)
    requires IsRed(t)
    ensures Nodes(InsertFixup(c, t)) == Nodes(t) + CtxNodes(c)
    decreases c
  {
    PlugNodes(c, t);
    if RedPair(c) {
      var u := InsertStep(c, t);
      InsertStepNodes(c, t);
      if IsRed(u) { InsertFixupNodes(c.up.up, u); } else { PlugNodes(c.up.up, u); }
    }
  }

  /** One round of the loop below; 'done' if the tree needs no further round. */
  method InsertRound(nod: Node, p: Node, gp: Node, root: Node, sentl: Node, ghost c: Context, ghost t: Tree, ghost s: set<Node>)
    returns (root': Node, done: bool)
    requires Nodes(t) <= s && CtxNodes(c) <= s && sentl !in s && sentl.color == Black
    requires Represents(Snapshot(s), c, t, root, sentl)
    requires IsRed(t) && RedPair(c) && t.node == nod && c.node == p && c.up.node == gp
    modifies s`left, s`right, s`parent, s`color
    ensures Represents(Snapshot(s), c.up.up, InsertStep(c, t), root', sentl)
    ensures done <==> !IsRed(InsertStep(c, t))
  {
    Surroundings(Snapshot(s), c.up, Fill(c, t), root, sentl);
    if p == gp.left {
      var uncle := gp.right;
      if uncle.color == Black {
        root' := RepairLeft(nod, gp, root, sentl, c, t, s);
        return root', true;
      }
      PushRedUp(p, uncle, gp, root, sentl, c, t, s);
    } else {
      var uncle := gp.left;
      if uncle.color == Black {
        root' := RepairRight(nod, gp, root, sentl, c, t, s);
        return root', true;
      }
      PushRedUp(p, uncle, gp, root, sentl, c, t, s);
    }
    return root, false;
  }

  method FixupInsert(node: Node, treeRoot: Node, sentl: Node, ghost ctx: Context, ghost tree: Tree, ghost s: set<Node>)
    returns (root: Node)
    requires Nodes(tree) <= s && CtxNodes(ctx) <= s && sentl !in s && sentl.color == Black
    requires Represents(Snapshot(s), ctx, tree, treeRoot, sentl)
    requires RedAtHole(ctx, tree) && tree.node == node
    modifies s`left, s`right, s`parent, s`color
    ensures Represents(Snapshot(s), Top, InsertFixup(ctx, tree), root, sentl)
  {
    var nod := node;
    root := treeRoot;
    ghost var c, t := ctx, tree;
    FieldsAround(s, c, t, root, sentl);
    while nod.parent.color == Red
      invariant Nodes(t) + CtxNodes(c) <= s && sentl.color == Black
      invariant Represents(Snapshot(s), c, t, root, sentl)
      invariant t.Fork? && t.node == nod && nod.parent == Parent(c, sentl)
      invariant !c.Top? ==> c.node.parent == Parent(c.up, sentl)
      invariant !c.Top? ==> c.node.color == c.color
      invariant RedAtHole(c, t)
      invariant InsertFixup(c, t) == InsertFixup(ctx, tree)
      decreases c
    {
      assert RedPair(c);
      InsertStepRedBlack(c, t);
      InsertStepNodes(c, t);
      var gp, done := nod.parent.parent, false;
      root, done := InsertRound(nod, nod.parent, gp, root, sentl, c, t, s);
      ghost var u := InsertStep(c, t);
      if done {
        c, t := c.up.up, u;
        break;
      }
      nod := gp;
      c, t := c.up.up, u;
      FieldsAround(s, c, t, root, sentl);
    }
    BlackenRoot(root, sentl, c, t, s);
  }

  // ----- Removal

  /** A node that is in no tree, as a removal leaves it. */
  ghost predicate Detached(n: Node)
    reads n`left, n`right, n`parent
  {
    n.left == null && n.right == null && n.parent == null
  }

  /** fftree_min */
  method Min(start: Node, sentl: Node, ghost root: Node, ghost c: Context, ghost t: Tree, ghost s: set<Node>) returns (nod: Node)
    requires Nodes(t) + CtxNodes(c) <= s && sentl !in s
    requires Represents(Snapshot(s), c, t, root, sentl) && t.Fork? && start == t.node
    ensures nod == MinTree(t).node
    ensures Represents(Snapshot(s), MinContext(c, t), MinTree(t), root, sentl)
    ensures Nodes(MinTree(t)) + CtxNodes(MinContext(c, t)) == Nodes(t) + CtxNodes(c)
  {
    nod := start;
    ghost var d, u := c, t;
    while nod.left != sentl
      invariant Represents(Snapshot(s), d, u, root, sentl) && u.Fork? && u.node == nod
      invariant Nodes(u) + CtxNodes(d) == Nodes(t) + CtxNodes(c)
      invariant MinTree(u) == MinTree(t) && MinContext(d, u) == MinContext(c, t)
      decreases u
    {
      nod := nod.left;
      d, u := InLeft(d, u.node, u.color, u.key, u.right), u.left;
    }
  }

  /** A node with at most one child is replaced by this child. */
  lemma CutOut(m: Heap, m': Heap, c: Context, t: Tree, x: Tree, root: Node, root': Node, sentl: Node)
    requires Represents(m, c, t, root, sentl) && t.Fork?
    requires (t.left.Leaf? && x == t.right) || (t.right.Leaf? && x == t.left)
    requires x.Fork? ==> Has(m', x.node, NodeLinks(x, Parent(c, sentl), sentl))
    requires Same(m, m', m.Keys - {t.node, Ref(x, sentl), Parent(c, sentl)})
    requires if c.Top? then root' == Ref(x, sentl) else root' == root && Has(m', c.node, CtxLinks(c, Ref(x, sentl), sentl))
    ensures Represents(m', c, x, root', sentl)
    ensures t.node !in Nodes(x) + CtxNodes(c)
  {
    KeptUnder(m, m', x, t.node, Parent(c, sentl), sentl);
    KeptAbove(m, m', c, t.node, Ref(x, sentl), root, root', sentl);
  }

  /** A node is replaced by one that is not in the tree. */
  lemma Replaced(m: Heap, m': Heap, c: Context, t: Tree, t': Tree, root: Node, root': Node, sentl: Node)
    requires Represents(m, c, t, root, sentl) && t.Fork?
    requires t'.Fork? && t'.left == t.left && t'.right == t.right
    requires t'.node !in Nodes(t) + CtxNodes(c) && t'.node != sentl
    requires Has(m', t'.node, NodeLinks(t', Parent(c, sentl), sentl))
    requires t.left.Fork? ==> Has(m', t.left.node, NodeLinks(t.left, t'.node, sentl))
    requires t.right.Fork? ==> Has(m', t.right.node, NodeLinks(t.right, t'.node, sentl))
    requires Same(m, m', m.Keys - {t.node, t'.node, Ref(t.left, sentl), Ref(t.right, sentl), Parent(c, sentl)})
    requires if c.Top? then root' == t'.node else root' == root && Has(m', c.node, CtxLinks(c, t'.node, sentl))
    ensures Represents(m', c, t', root', sentl)
  {
    KeptUnder(m, m', t.left, t.node, t'.node, sentl);
    KeptUnder(m, m', t.right, t.node, t'.node, sentl);
    KeptAbove(m, m', c, t.node, t'.node, root, root', sentl);
  }

  lemma {:induction false} WithoutMinNodes(t: Tree)
    requires t.Fork? && Distinct(t)
    ensures Nodes(t) == Nodes(WithoutMin(t)) + {MinTree(t).node} && MinTree(t).node !in Nodes(WithoutMin(t))
    ensures Distinct(WithoutMin(t))
  {
    if t.left.Fork? { WithoutMinNodes(t.left); }
  }

  lemma SplicedNodes(t: Tree)
    requires t.Fork? && Distinct(t)
    ensures Nodes(t) == Nodes(Spliced(t)) + {t.node} && t.node !in Nodes(Spliced(t))
  {
    if TwoChildren(t) { WithoutMinNodes(t.right); }
  }

  /** The successor is the right child: it keeps its right subtree. */
  lemma LiftedChild(m: Heap, m': Heap, c: Context, t: Tree, root: Node, root': Node, sentl: Node)
    requires Represents(m, c, t, root, sentl) && TwoChildren(t) && t.right.left.Leaf?
    requires var (n', t') := (t.right.node, Spliced(t));
      && Has(m', n', NodeLinks(t', Parent(c, sentl), sentl))
      && Has(m', t.left.node, NodeLinks(t.left, n', sentl))
      && Same(m, m', m.Keys - {t.node, n', t.left.node, Parent(c, sentl)})
      && if c.Top? then root' == n' else root' == root && Has(m', c.node, CtxLinks(c, n', sentl))
    ensures Represents(m', c, Spliced(t), root', sentl)
  {
    var n' := t.right.node;
    assert Linked(m, t.right, t.node, sentl) && Distinct(t.right);
    assert Nodes(t.right) == {n'} + Nodes(t.right.right);
    KeptUnder(m, m', t.left, t.node, n', sentl);
    assert t.right.right.Fork? ==> t.right.right.node in Nodes(t.right.right);
    KeptUnder(m, m', t.right.right, n', n', sentl);
    KeptAbove(m, m', c, t.node, n', root, root', sentl);
  }

  /** The link updates when the successor is the right child. */
  method LiftRightChild(nod: Node, next: Node, root: Node, sentl: Node, ghost c: Context)
    returns (x: Node, root': Node)
    requires nod.left != null && next.right != null && nod.parent == Parent(c, sentl)
    requires nod != next && nod.left != nod && nod.left != next && next.right != nod && next.right != next && next.right != nod.left
    requires !c.Top? ==>
      && c.node != sentl && (c.node.left == nod <==> c.InLeft?)
      && c.node != nod && c.node != next && c.node != nod.left && c.node != next.right
    modifies Above(c)`left, Above(c)`right, next`left, next`parent, nod.left`parent, next.right`parent
    ensures x == old(next.right) && x.parent == next
    ensures next.left == old(nod.left) && next.parent == Parent(c, sentl)
    ensures old(nod.left).parent == next
    ensures root' == if c.Top? then next else root
    ensures !c.Top? ==> c.node.left == if c.InLeft? then next else old(c.node.left)
    ensures !c.Top? ==> c.node.right == if c.InLeft? then old(c.node.right) else next
  {
    x := next.right;
    x.parent := next;
    next.left := nod.left;
    nod.left.parent := next;
    root' := RelinkParent(nod, next, root, sentl, c);
  }

  /** The successor is the right child. */
  method RmAboveSuccessor(nod: Node, next: Node, root: Node, sentl: Node, ghost c: Context, ghost t: Tree, ghost s: set<Node>)
    returns (x: Node, root': Node)
    requires Nodes(t) + CtxNodes(c) <= s && sentl !in s
    requires Represents(Snapshot(s), c, t, root, sentl)
    requires TwoChildren(t) && t.right.left.Leaf? && t.node == nod && next == t.right.node
    modifies s`left, s`right, s`parent, sentl`parent
    ensures Represents(Snapshot(s), c, Spliced(t), root', sentl)
    ensures x == Ref(Unlink(c, t).tree, sentl)
    ensures x == sentl ==> x.parent == Parent(Unlink(c, t).ctx, sentl)
  {
    ghost var m := Snapshot(s);
    ghost var X := t.right.right;
    assert Linked(m, t.right, nod, sentl) && Linked(m, X, next, sentl) && Linked(m, t.left, nod, sentl);
    assert X.Fork? ==> X.node in Nodes(X);
    x, root' := LiftRightChild(nod, next, root, sentl, c);
    LiftedChild(m, Snapshot(s), c, t, root, root', sentl);
  }

  /** Cut the successor, which is not the right child, out of the right subtree. */
  method DetachSuccessor(nod: Node, next: Node, root: Node, sentl: Node, ghost c: Context, ghost t: Tree, ghost s: set<Node>)
    returns (x: Node)
    requires Nodes(t) + CtxNodes(c) <= s && sentl !in s
    requires Represents(Snapshot(s), c, t, root, sentl)
    requires TwoChildren(t) && t.right.left.Fork? && t.node == nod && next == MinTree(t.right).node
    modifies s`left, s`parent, sentl`parent
    ensures Represents(Snapshot(s), c, t.(right := WithoutMin(t.right)), root, sentl)
    ensures x == Ref(Unlink(c, t).tree, sentl)
    ensures x == sentl ==> x.parent == Parent(Unlink(c, t).ctx, sentl)
  {
    hide Represents, Linked, LinkedCtx, Distinct, DistinctCtx, Apart;
    ghost var m := Snapshot(s);
    ghost var d := InRight(c, t.left, nod, t.color, t.key);
    ghost var e, u := MinContext(d, t.right), MinTree(t.right);
    MinPlug(d, t.right);
    PlugNodes(e, u);
    PlugNodes(d, t.right);
    FromChild(m, d, t.right, root, sentl);
    PlugRepresents(m, d, t.right, root, sentl);
    UnplugRepresents(m, e, u, root, sentl);
    MinContextLeft(d, InRight(c, t.left, u.node, t.color, u.key), t.right);
    x := DetachLeft(next, root, sentl, e, u, s);
    PlugRepresents(Snapshot(s), e, u.right, root, sentl);
    UnplugRepresents(Snapshot(s), d, WithoutMin(t.right), root, sentl);
    FromParent(Snapshot(s), d, WithoutMin(t.right), root, sentl);
  }

  lemma {:induction false} MinContextLeft(c: Context, d: Context, t: Tree)
    requires t.Fork? && t.left.Fork?
    ensures MinContext(c, t).InLeft? && MinContext(d, t).InLeft?
    ensures MinContext(c, t).node == MinContext(d, t).node
    decreases t
  {
    if t.left.left.Fork? {
      MinContextLeft(InLeft(c, t.node, t.color, t.key, t.right), InLeft(d, t.node, t.color, t.key, t.right), t.left);
    }
  }

  method DetachLeft(next: Node, root: Node, sentl: Node, ghost c: Context, ghost t: Tree, ghost s: set<Node>)
    returns (x: Node)
    requires Nodes(t) + CtxNodes(c) <= s && sentl !in s
    requires Represents(Snapshot(s), c, t, root, sentl)
    requires t.Fork? && t.left.Leaf? && c.InLeft? && t.node == next
    modifies s`left, s`parent, sentl`parent
    ensures Represents(Snapshot(s), c, t.right, root, sentl)
    ensures x == Ref(t.right, sentl) && x.parent == c.node
  {
    ghost var m := Snapshot(s);
    assert Linked(m, t.right, next, sentl);
    assert t.right.Fork? ==> t.right.node in Nodes(t.right);
    x := next.right;
    var q := next.parent;
    q.left := x;
    x.parent := q;
    CutOut(m, Snapshot(s), c, t, t.right, root, root, sentl);
  }

  /** Put 'next', which is in no tree, in the place of 'nod'. */
  method Substitute(nod: Node, next: Node, root: Node, sentl: Node, ghost c: Context, ghost t: Tree, ghost s: set<Node>)
    returns (root': Node)
    requires Nodes(t) + CtxNodes(c) + {next} <= s && sentl !in s
    requires Represents(Snapshot(s), c, t, root, sentl)
    requires TwoChildren(t) && t.node == nod && next !in Nodes(t) + CtxNodes(c)
    modifies s`left, s`right, s`parent
    ensures Represents(Snapshot(s), c, Fork(t.left, next, next.color, next.key, t.right), root', sentl)
  {
    hide Represents, Linked, LinkedCtx, Nodes, CtxNodes, Distinct, DistinctCtx, Apart;
    ghost var m := Snapshot(s);
    Around(m, s, c, t, root, sentl);
    RootIn(t, c);
    next.right := nod.right;
    nod.right.parent := next;
    next.left := nod.left;
    nod.left.parent := next;
    root' := RelinkParent(nod, next, root, sentl, c);
    Replaced(m, Snapshot(s), c, t, Fork(t.left, next, next.color, next.key, t.right), root, root', sentl);
  }

  /** Replace a node that has at most one child by this child. */
  method RmOneChild(nod: Node, x: Node, root: Node, sentl: Node, ghost c: Context, ghost t: Tree, ghost s: set<Node>)
    returns (root': Node)
    requires Nodes(t) + CtxNodes(c) <= s && sentl !in s
    requires Represents(Snapshot(s), c, t, root, sentl)
    requires t.Fork? && !TwoChildren(t) && t.node == nod && x == Ref(Spliced(t), sentl)
    modifies s`left, s`right, s`parent, sentl`parent
    ensures Represents(Snapshot(s), c, Spliced(t), root', sentl)
    ensures x.parent == Parent(c, sentl)
  {
    ghost var m, u := Snapshot(s), Spliced(t);
    assert Linked(m, u, nod, sentl);
    assert u.Fork? ==> u.node in Nodes(u);
    root' := RelinkParent(nod, x, root, sentl, c);
    CutOut(m, Snapshot(s), c, t, u, root, root', sentl);
  }

  /** Replace a node that has two children by its successor. */
  method RmTwoChildren(nod: Node, root: Node, sentl: Node, ghost c: Context, ghost t: Tree, ghost s: set<Node>)
    returns (x: Node, next: Node, root': Node)
    requires Nodes(t) + CtxNodes(c) <= s && sentl !in s
    requires Represents(Snapshot(s), c, t, root, sentl) && TwoChildren(t) && t.node == nod
    modifies s`left, s`right, s`parent, sentl`parent
    ensures Represents(Snapshot(s), c, Spliced(t), root', sentl)
    ensures next == MinTree(t.right).node
    ensures x == Ref(Unlink(c, t).tree, sentl)
    ensures x == sentl ==> x.parent == Parent(Unlink(c, t).ctx, sentl)
  {
    next := Min(nod.right, sentl, root, InRight(c, t.left, nod, t.color, t.key), t.right, s);
    WithoutMinNodes(t.right);
    if next == nod.right {
      x, root' := RmAboveSuccessor(nod, next, root, sentl, c, t, s);
    } else {
      x := DetachSuccessor(nod, next, root, sentl, c, t, s);
      root' := Substitute(nod, next, root, sentl, c, t.(right := WithoutMin(t.right)), s);
    }
  }

  /** tree_rm: unlink 'nod'; the paths through 'x' may now lack a black node. */
  method TreeRm(nod: Node, root: Node, sentl: Node, ghost c: Context, ghost t: Tree, ghost s: set<Node>)
    returns (x: Node, next: Node?, root': Node)
    requires Nodes(t) + CtxNodes(c) <= s && sentl !in s
    requires Represents(Snapshot(s), c, t, root, sentl) && t.Fork? && t.node == nod
    modifies s`left, s`right, s`parent, nod`key, sentl`parent
    ensures Represents(Snapshot(s), c, Spliced(t), root', sentl)
    ensures x == Ref(Unlink(c, t).tree, sentl)
    ensures x == sentl ==> x.parent == Parent(Unlink(c, t).ctx, sentl)
    ensures next == if TwoChildren(t) then MinTree(t.right).node else null
    ensures Detached(nod) && nod.key == 0
  {
    next := null;
    if nod.left == sentl {
      x := nod.right;
      root' := RmOneChild(nod, x, root, sentl, c, t, s);
    } else if nod.right == sentl {
      x := nod.left;
      root' := RmOneChild(nod, x, root, sentl, c, t, s);
    } else {
      x, next, root' := RmTwoChildren(nod, root, sentl, c, t, s);
    }
    SplicedNodes(t);
    Forget(nod, root', sentl, c, Spliced(t), s);
  }

  method Forget(nod: Node, ghost root: Node, ghost sentl: Node, ghost c: Context, ghost t: Tree, ghost s: set<Node>)
    requires Represents(Snapshot(s), c, t, root, sentl)
    requires nod !in Nodes(t) + CtxNodes(c)
    modifies nod`left, nod`right, nod`parent, nod`key
    ensures Represents(Snapshot(s), c, t, root, sentl)
    ensures Detached(nod) && nod.key == 0
  {
    ghost var m := Snapshot(s);
    nod.left, nod.right, nod.parent, nod.key := null, null, null, 0;
    Untouched(m, Snapshot(s), c, t, root, sentl);
  }

  lemma Untouched(m: Heap, m': Heap, c: Context, t: Tree, root: Node, sentl: Node)
    requires Represents(m, c, t, root, sentl)
    requires Same(m, m', Nodes(t) + CtxNodes(c))
    ensures Represents(m', c, t, root, sentl)
  {
    KeptUnder(m, m', t, Parent(c, sentl), Parent(c, sentl), sentl);
    KeptAbove(m, m', c, Ref(t, sentl), Ref(t, sentl), root, root, sentl);
  }

  lemma LowerRedSiblingNodes(c: Context)
    requires !c.Top? && IsRed(Sibling(c))
    ensures CtxNodes(LowerRedSibling(c)) == CtxNodes(c)
  {
    var s := Sibling(c);
    assert Nodes(s) == Nodes(s.left) + {s.node} + Nodes(s.right);
    var d := LowerRedSibling(c);
    assert CtxNodes(d) == CtxNodes(d.up) + {d.node} + Nodes(Sibling(d));
    assert CtxNodes(d.up) == CtxNodes(c.up) + {d.up.node} + Nodes(Sibling(d.up));
  }

  lemma BlackSiblingStepNodes(c: Context, x: Tree)
    requires !c.Top? && LacksBlack(c, x) && !IsRed(x) && !IsRed(Sibling(c))
    ensures Nodes(BlackSiblingStep(c, x).tree) == Nodes(x) + {c.node} + Nodes(Sibling(c))
  {
    var s, u := Sibling(c), BlackSiblingStep(c, x).tree;
    assert Nodes(s) == Nodes(s.left) + {s.node} + Nodes(s.right);
    assert s.left.Fork? ==> Nodes(s.left) == Nodes(s.left.left) + {s.left.node} + Nodes(s.left.right);
    assert s.right.Fork? ==> Nodes(s.right) == Nodes(s.right.left) + {s.right.node} + Nodes(s.right.right);
    assert Nodes(u) == Nodes(u.left) + {u.node} + Nodes(u.right);
  }

  lemma RemoveStepNodes(c: Context, x: Tree)
    requires !c.Top? && LacksBlack(c, x) && !IsRed(x)
    ensures var r := RemoveStep(c, x); Nodes(r.tree) + CtxNodes(r.ctx) == Nodes(x) + CtxNodes(c)
  {
    if IsRed(Sibling(c)) {
      var d := LowerRedSibling(c);
      LowerRedSiblingNodes(c);
      BlackSiblingStepNodes(d, x);
      assert CtxNodes(d) == CtxNodes(d.up) + {d.node} + Nodes(Sibling(d));
    } else {
      BlackSiblingStepNodes(c, x);
    }
  }

  /** A rotation gives the left child of 'p' a black sibling. */
  method LowerRight(p: Node, sib: Node, root: Node, sentl: Node, ghost c: Context, ghost t: Tree, ghost s: set<Node>)
    returns (root': Node)
    requires Nodes(t) + CtxNodes(c) <= s && sentl !in s
    requires Represents(Snapshot(s), c, t, root, sentl)
    requires c.InLeft? && IsRed(c.right) && p == c.node && sib == c.right.node
    modifies s`left, s`right, s`parent, s`color
    ensures Represents(Snapshot(s), LowerRedSibling(c), t, root', sentl)
  {
    FromSibling(Snapshot(s), c, t, root, sentl);
    SetColor(sib, Black, root, sentl, Beside(c, t), c.right, s);
    ghost var u := Fill(Beside(c, t), Blacken(c.right));
    SetColor(p, Red, root, sentl, c.up, u, s);
    u := u.(color := Red);
    root' := LeftRotate(p, root, sentl, c.up, u, s);
    FromChild(Snapshot(s), LowerRedSibling(c).up, RotateLeft(u).left, root', sentl);
    FromChild(Snapshot(s), LowerRedSibling(c), t, root', sentl);
  }

  method LowerLeft(p: Node, sib: Node, root: Node, sentl: Node, ghost c: Context, ghost t: Tree, ghost s: set<Node>)
    returns (root': Node)
    requires Nodes(t) + CtxNodes(c) <= s && sentl !in s
    requires Represents(Snapshot(s), c, t, root, sentl)
    requires c.InRight? && IsRed(c.left) && p == c.node && sib == c.left.node
    modifies s`left, s`right, s`parent, s`color
    ensures Represents(Snapshot(s), LowerRedSibling(c), t, root', sentl)
  {
    FromSibling(Snapshot(s), c, t, root, sentl);
    SetColor(sib, Black, root, sentl, Beside(c, t), c.left, s);
    ghost var u := Fill(Beside(c, t), Blacken(c.left));
    SetColor(p, Red, root, sentl, c.up, u, s);
    u := u.(color := Red);
    root' := RightRotate(p, root, sentl, c.up, u, s);
    FromChild(Snapshot(s), LowerRedSibling(c).up, RotateRight(u).right, root', sentl);
    FromChild(Snapshot(s), LowerRedSibling(c), t, root', sentl);
  }

  /** Turn a red inner child of the black sibling outwards. */
  method TurnOutRight(sib: Node, root: Node, sentl: Node, ghost d: Context, ghost u: Tree, ghost s: set<Node>)
    returns (root': Node)
    requires Nodes(u) + CtxNodes(d) <= s && sentl !in s
    requires Represents(Snapshot(s), d, u, root, sentl)
    requires u.Fork? && IsRed(u.left) && u.node == sib
    modifies s`left, s`right, s`parent, s`color
    ensures Represents(Snapshot(s), d, RotateRight(Fork(Blacken(u.left), sib, Red, u.key, u.right)), root', sentl)
  {
    ghost var e := InLeft(d, sib, u.color, u.key, u.right);
    FromChild(Snapshot(s), e, u.left, root, sentl);
    SetColor(sib.left, Black, root, sentl, e, u.left, s);
    ghost var v := Fill(e, Blacken(u.left));
    SetColor(sib, Red, root, sentl, d, v, s);
    root' := RightRotate(sib, root, sentl, d, v.(color := Red), s);
  }

  method TurnOutLeft(sib: Node, root: Node, sentl: Node, ghost d: Context, ghost u: Tree, ghost s: set<Node>)
    returns (root': Node)
    requires Nodes(u) + CtxNodes(d) <= s && sentl !in s
    requires Represents(Snapshot(s), d, u, root, sentl)
    requires u.Fork? && IsRed(u.right) && u.node == sib
    modifies s`left, s`right, s`parent, s`color
    ensures Represents(Snapshot(s), d, RotateLeft(Fork(u.left, sib, Red, u.key, Blacken(u.right))), root', sentl)
  {
    ghost var e := InRight(d, u.left, sib, u.color, u.key);
    FromChild(Snapshot(s), e, u.right, root, sentl);
    SetColor(sib.right, Black, root, sentl, e, u.right, s);
    ghost var v := Fill(e, Blacken(u.right));
    SetColor(sib, Red, root, sentl, d, v, s);
    root' := LeftRotate(sib, root, sentl, d, v.(color := Red), s);
  }

  /** The black sibling's outer child is red: a rotation makes up for the missing black node. */
  method BorrowRight(p: Node, sib: Node, root: Node, sentl: Node, ghost d: Context, ghost u: Tree, ghost s: set<Node>)
    returns (root': Node)
    requires Nodes(u) + CtxNodes(d) <= s && sentl !in s
    requires Represents(Snapshot(s), d, u, root, sentl)
    requires d.InRight? && d.node == p && u.Fork? && IsRed(u.right) && u.node == sib
    modifies s`left, s`right, s`parent, s`color
    ensures Represents(Snapshot(s), d.up,
      Fork(Fork(d.left, p, Black, d.key, u.left), sib, d.color, u.key, Blacken(u.right)), root', sentl)
  {
    Surroundings(Snapshot(s), d, u, root, sentl);
    SetColor(sib, p.color, root, sentl, d, u, s);
    ghost var v := u.(color := d.color);
    FromParent(Snapshot(s), d, v, root, sentl);
    SetColor(p, Black, root, sentl, d.up, Fill(d, v), s);
    ghost var e := InRight(d.up, d.left, p, Black, d.key);
    FromChild(Snapshot(s), e, v, root, sentl);
    ghost var f := InRight(e, v.left, sib, v.color, v.key);
    FromChild(Snapshot(s), f, v.right, root, sentl);
    SetColor(sib.right, Black, root, sentl, f, v.right, s);
    v := v.(right := Blacken(v.right));
    FromParent(Snapshot(s), f, v.right, root, sentl);
    FromParent(Snapshot(s), e, v, root, sentl);
    root' := LeftRotate(p, root, sentl, d.up, Fill(e, v), s);
  }

  method BorrowLeft(p: Node, sib: Node, root: Node, sentl: Node, ghost d: Context, ghost u: Tree, ghost s: set<Node>)
    returns (root': Node)
    requires Nodes(u) + CtxNodes(d) <= s && sentl !in s
    requires Represents(Snapshot(s), d, u, root, sentl)
    requires d.InLeft? && d.node == p && u.Fork? && IsRed(u.left) && u.node == sib
    modifies s`left, s`right, s`parent, s`color
    ensures Represents(Snapshot(s), d.up,
      Fork(Blacken(u.left), sib, d.color, u.key, Fork(u.right, p, Black, d.key, d.right)), root', sentl)
  {
    Surroundings(Snapshot(s), d, u, root, sentl);
    SetColor(sib, p.color, root, sentl, d, u, s);
    ghost var v := u.(color := d.color);
    FromParent(Snapshot(s), d, v, root, sentl);
    SetColor(p, Black, root, sentl, d.up, Fill(d, v), s);
    ghost var e := InLeft(d.up, p, Black, d.key, d.right);
    FromChild(Snapshot(s), e, v, root, sentl);
    ghost var f := InLeft(e, sib, v.color, v.key, v.right);
    FromChild(Snapshot(s), f, v.left, root, sentl);
    SetColor(sib.left, Black, root, sentl, f, v.left, s);
    v := v.(left := Blacken(v.left));
    FromParent(Snapshot(s), f, v.left, root, sentl);
    FromParent(Snapshot(s), e, v, root, sentl);
    root' := RightRotate(p, root, sentl, d.up, Fill(e, v), s);
  }

  /** One round for the left child of 'p', which has a black sibling. */
  method BlackSiblingRight(p: Node, sibling: Node, root: Node, sentl: Node, ghost c: Context, ghost t: Tree, ghost s: set<Node>)
    returns (root': Node, done: bool)
    requires Nodes(t) + CtxNodes(c) <= s && sentl !in s && sentl.color == Black
    requires Represents(Snapshot(s), c, t, root, sentl)
    requires LacksBlack(c, t) && !IsRed(t)
    requires c.InLeft? && !IsRed(c.right) && p == c.node && sibling == Ref(c.right, sentl)
    modifies s`left, s`right, s`parent, s`color
    ensures var r := BlackSiblingStep(c, t);
      Represents(Snapshot(s), c.up, r.tree, root', sentl) && done == r.Done?
  {
    var sib := sibling;
    ghost var d, u := InRight(c.up, t, p, c.color, c.key), c.right;
    FromSibling(Snapshot(s), c, t, root, sentl);
    ColorsBelow(s, d, u, root, sentl);
    root' := root;
    if sib.left.color == Red || sib.right.color == Red {
      if sib.right.color == Black {
        root' := TurnOutRight(sib, root', sentl, d, u, s);
        u := RotateRight(Fork(Blacken(u.left), sib, Red, u.key, u.right));
        Surroundings(Snapshot(s), d, u, root', sentl);
        sib := p.right;
      }
      root' := BorrowRight(p, sib, root', sentl, d, u, s);
      return root', true;
    }
    SetColor(sib, Red, root', sentl, d, u, s);
    FromParent(Snapshot(s), d, u.(color := Red), root', sentl);
    return root', false;
  }

  method BlackSiblingLeft(p: Node, sibling: Node, root: Node, sentl: Node, ghost c: Context, ghost t: Tree, ghost s: set<Node>)
    returns (root': Node, done: bool)
    requires Nodes(t) + CtxNodes(c) <= s && sentl !in s && sentl.color == Black
    requires Represents(Snapshot(s), c, t, root, sentl)
    requires LacksBlack(c, t) && !IsRed(t)
    requires c.InRight? && !IsRed(c.left) && p == c.node && sibling == Ref(c.left, sentl)
    modifies s`left, s`right, s`parent, s`color
    ensures var r := BlackSiblingStep(c, t);
      Represents(Snapshot(s), c.up, r.tree, root', sentl) && done == r.Done?
  {
    var sib := sibling;
    ghost var d, u := InLeft(c.up, p, c.color, c.key, t), c.left;
    FromSibling(Snapshot(s), c, t, root, sentl);
    ColorsBelow(s, d, u, root, sentl);
    root' := root;
    if sib.left.color == Red || sib.right.color == Red {
      if sib.left.color == Black {
        root' := TurnOutLeft(sib, root', sentl, d, u, s);
        u := RotateLeft(Fork(u.left, sib, Red, u.key, Blacken(u.right)));
        Surroundings(Snapshot(s), d, u, root', sentl);
        sib := p.left;
      }
      root' := BorrowLeft(p, sib, root', sentl, d, u, s);
      return root', true;
    }
    SetColor(sib, Red, root', sentl, d, u, s);
    FromParent(Snapshot(s), d, u.(color := Red), root', sentl);
    return root', false;
  }

  lemma ColorsBelow(s: set<Node>, c: Context, t: Tree, root: Node, sentl: Node)
    requires Nodes(t) + CtxNodes(c) <= s && sentl.color == Black
    requires Represents(Snapshot(s), c, t, root, sentl) && t.Fork?
    ensures t.node.color == t.color
    ensures t.node.left == Ref(t.left, sentl) && t.node.right == Ref(t.right, sentl)
    ensures t.node.left.color == Red <==> IsRed(t.left)
    ensures t.node.right.color == Red <==> IsRed(t.right)
  {
    assert Linked(Snapshot(s), t.left, t.node, sentl) && Linked(Snapshot(s), t.right, t.node, sentl);
    assert t.left.Fork? ==> t.left.node in Nodes(t.left);
    assert t.right.Fork? ==> t.right.node in Nodes(t.right);
  }

  /** One round of the removal's fix-up loop. */
  method RemoveRound(x: Node, p: Node, root: Node, sentl: Node, ghost c: Context, ghost t: Tree, ghost s: set<Node>)
    returns (root': Node, done: bool)
    requires Nodes(t) + CtxNodes(c) <= s && sentl !in s && sentl.color == Black
    requires Represents(Snapshot(s), c, t, root, sentl) && x == Ref(t, sentl)
    requires LacksBlack(c, t) && !IsRed(t)
    requires !c.Top? && p == c.node
    modifies s`left, s`right, s`parent, s`color
    ensures var r := RemoveStep(c, t);
      && Represents(Snapshot(s), r.ctx, r.tree, root', sentl) && done == r.Done?
      && r.tree.Fork? && (r.Missing? ==> r.tree.node == p)
  {
    ghost var d := c;
    root' := root;
    ParentLinks(s, c, t, root, sentl);
    RemoveStepNodes(c, t);
    if x == p.left {
      var sib := p.right;
      if sib.color == Red {
        LowerRedSiblingNodes(c);
        root' := LowerRight(p, sib, root', sentl, c, t, s);
        d := LowerRedSibling(c);
        ParentLinks(s, d, t, root', sentl);
        sib := p.right;
      }
      root', done := BlackSiblingRight(p, sib, root', sentl, d, t, s);
    } else {
      var sib := p.left;
      if sib.color == Red {
        LowerRedSiblingNodes(c);
        root' := LowerLeft(p, sib, root', sentl, c, t, s);
        d := LowerRedSibling(c);
        ParentLinks(s, d, t, root', sentl);
        sib := p.left;
      }
      root', done := BlackSiblingLeft(p, sib, root', sentl, d, t, s);
    }
  }

  lemma ParentLinks(s: set<Node>, c: Context, t: Tree, root: Node, sentl: Node)
    requires Nodes(t) + CtxNodes(c) <= s && sentl.color == Black && !c.Top?
    requires Represents(Snapshot(s), c, t, root, sentl)
    requires Sibling(c).Fork?
    ensures c.node.left == if c.InLeft? then Ref(t, sentl) else c.left.node
    ensures c.node.right == if c.InRight? then Ref(t, sentl) else c.right.node
    ensures Sibling(c).node.color == Sibling(c).color
    ensures c.node.left != c.node.right
  {
    assert Sibling(c).node in CtxNodes(c);
    assert t.Fork? ==> t.node in Nodes(t);
  }

  lemma {:induction false} RootAbove(m: Heap, c: Context, hole: Node, root: Node, sentl: Node)
    requires LinkedCtx(m, c, hole, root, sentl) && !c.Top?
    ensures root in CtxNodes(c)
    decreases c
  {
    if !c.up.Top? { RootAbove(m, c.up, c.node, root, sentl); }
  }

  /** What the loop test and the parent link of 'x' mean. */
  lemma AtHole(s: set<Node>, c: Context, t: Tree, x: Node, root: Node, sentl: Node)
    requires Nodes(t) + CtxNodes(c) <= s && sentl !in s && sentl.color == Black
    requires Represents(Snapshot(s), c, t, root, sentl) && x == Ref(t, sentl)
    ensures x == root <==> c.Top?
    ensures x.color == Red <==> IsRed(t)
    ensures t.Fork? ==> x.parent == Parent(c, sentl)
  {
    if !c.Top? { RootAbove(Snapshot(s), c, x, root, sentl); }
    assert t.Fork? ==> t.node in Nodes(t);
  }

  /** The last step of a removal: blacken 'x', which may be the sentinel. */
  method BlackenHole(x: Node, ghost root: Node, ghost sentl: Node, ghost c: Context, ghost t: Tree, ghost s: set<Node>)
    requires Nodes(t) + CtxNodes(c) <= s && sentl !in s && sentl.color == Black
    requires Represents(Snapshot(s), c, t, root, sentl) && x == Ref(t, sentl)
    modifies x`color
    ensures sentl.color == Black
    ensures Represents(Snapshot(s), Top, Plug(c, Blacken(t)), root, sentl)
  {
    ghost var m := Snapshot(s);
    x.color := Black;
    if t.Fork? {
      Recolored(m, Snapshot(s), c, t, Black, root, sentl);
    } else {
      Untouched(m, Snapshot(s), c, t, root, sentl);
    }
    PlugRepresents(Snapshot(s), c, Blacken(t), root, sentl);
  }

  /** The fix-up loop of ffrbt_rm, after a black node was unlinked above 'x0'. */
  method FixupRemove(x0: Node, root0: Node, sentl: Node, ghost ctx: Context, ghost tree: Tree, ghost s: set<Node>)
    returns (root: Node)
    requires Nodes(tree) + CtxNodes(ctx) <= s && sentl !in s && sentl.color == Black
    requires Represents(Snapshot(s), ctx, tree, root0, sentl) && x0 == Ref(tree, sentl)
    requires x0 == sentl ==> sentl.parent == Parent(ctx, sentl)
    requires LacksBlack(ctx, tree)
    modifies s`left, s`right, s`parent, s`color, sentl`color
    ensures sentl.color == Black
    ensures Represents(Snapshot(s), Top, RemoveFixup(ctx, tree), root, sentl)
  {
    var x := x0;
    root := root0;
    ghost var c, t := ctx, tree;
    AtHole(s, c, t, x, root, sentl);
    while x != root && x.color == Black
      invariant Nodes(t) + CtxNodes(c) <= s && sentl.color == Black
      invariant Represents(Snapshot(s), c, t, root, sentl) && x == Ref(t, sentl)
      invariant x == root <==> c.Top?
      invariant x.color == Red <==> IsRed(t)
      invariant x.parent == Parent(c, sentl)
      invariant LacksBlack(c, t)
      invariant RemoveFixup(c, t) == RemoveFixup(ctx, tree)
      decreases if IsRed(t) then 0 else 1 + Depth(c)
    {
      var p: Node := x.parent;
      ghost var r := RemoveStep(c, t);
      RemoveStepNodes(c, t);
      RemoveFixupStep(c, t);
      var done;
      root, done := RemoveRound(x, p, root, sentl, c, t, s);
      c, t := r.ctx, r.tree;
      if done {
        x := root;
        PlugRepresents(Snapshot(s), c, t, root, sentl);
        PlugNodes(c, t);
        c, t := Top, Plug(c, t);
        break;
      }
      x := p;
      AtHole(s, c, t, x, root, sentl);
    }
    BlackenHole(x, root, sentl, c, t, s);
  }

  lemma UnlinkNodes(c: Context, t: Tree)
    requires t.Fork? && Distinct(t) && Nodes(t) !! CtxNodes(c)
    ensures var u := Unlink(c, t); Nodes(u.tree) + CtxNodes(u.ctx) == Nodes(t) + CtxNodes(c) - {t.node}
  {
    var u, v := Unlink(c, t), Spliced(t);
    SplicedNodes(t);
    UnlinkPlug(c, t);
    PlugNodes(c, v);
    if TwoChildren(t) { PlugNodes(c, v.(color := t.color)); }
    PlugNodes(u.ctx, u.tree);
  }

  /** The first half of ffrbt_rm: unlink 'nod' and exchange colours with its successor. */
  method UnlinkNode(nod: Node, root: Node, sentl: Node, ghost c: Context, ghost t: Tree, ghost s: set<Node>)
    returns (x: Node, lost: Color, root': Node)
    requires Nodes(t) + CtxNodes(c) <= s && sentl !in s
    requires Represents(Snapshot(s), c, t, root, sentl) && t.Fork? && t.node == nod
    modifies s`left, s`right, s`parent, s`color, nod`key, sentl`parent
    ensures var u := Unlink(c, t);
      && Represents(Snapshot(s - {nod}), u.ctx, u.tree, root', sentl)
      && x == Ref(u.tree, sentl) && lost == u.lost
      && (x == sentl ==> x.parent == Parent(u.ctx, sentl))
    ensures Detached(nod) && nod.key == 0
  {
    Surroundings(Snapshot(s), c, t, root, sentl);
    SplicedNodes(t);
    var next;
    x, next, root' := TreeRm(nod, root, sentl, c, t, s);
    lost := nod.color;
    ghost var v := Spliced(t);
    if next != null {
      Surroundings(Snapshot(s), c, v, root', sentl);
      lost := next.color;
      SetColor(next, nod.color, root', sentl, c, v, s);
      v := Fork(v.left, v.node, t.color, v.key, v.right);
    }
    ghost var u := Unlink(c, t);
    UnlinkPlug(c, t);
    UnlinkNodes(c, t);
    PlugRepresents(Snapshot(s), c, v, root', sentl);
    UnplugRepresents(Snapshot(s), u.ctx, u.tree, root', sentl);
    Untouched(Snapshot(s), Snapshot(s - {nod}), u.ctx, u.tree, root', sentl);
  }

  /** The second half of ffrbt_rm. */
  method MendLinks(x: Node, lost: Color, root: Node, sentl: Node, ghost u: Cut, ghost s: set<Node>) returns (root': Node)
    requires Nodes(u.tree) + CtxNodes(u.ctx) <= s && sentl !in s && sentl.color == Black
    requires Represents(Snapshot(s), u.ctx, u.tree, root, sentl) && x == Ref(u.tree, sentl) && lost == u.lost
    requires x == sentl ==> sentl.parent == Parent(u.ctx, sentl)
    requires lost == Black ==> LacksBlack(u.ctx, u.tree)
    modifies s`left, s`right, s`parent, s`color, sentl`color
    ensures sentl.color == Black
    ensures Represents(Snapshot(s), Top, Mend(u), root', sentl)
  {
    root' := root;
    if lost == Red {
      BlackenHole(x, root, sentl, u.ctx, u.tree, s);
    } else {
      root' := FixupRemove(x, root, sentl, u.ctx, u.tree, s);
    }
  }

  lemma {:induction false} RemoveFixupNodes(c: Context, x: Tree)
    requires LacksBlack(c, x)
    ensures Nodes(RemoveFixup(c, x)) == Nodes(x) + CtxNodes(c)
    decreases if IsRed(x) then 0 else 1 + Depth(c)
  {
    PlugNodes(c, Blacken(x));
    if !IsRed(x) && !c.Top? {
      var r := RemoveStep(c, x);
      RemoveStepNodes(c, x);
      RemoveFixupStep(c, x);
      if r.Missing? { RemoveFixupNodes(r.ctx, r.tree); } else { PlugNodes(r.ctx, r.tree); }
    }
  }

  // ----- Promotion of a sibling

  /** The children of a node, as objects whose parent link may be written. */
  ghost function Children(k: Node, sentl: Node): set<Node?>
    reads k`left, k`right
  {
    {k.left, k.right} - {sentl}
  }

  /** The link updates of ffrbtl_rm that put 'next' in the place of 'k'. */
  method PromoteLinks(k: Node, next: Node, root: Node, sentl: Node, ghost c: Context) returns (root': Node)
    requires k != next && next != sentl && k.left != null && k.right != null && k.left != next && k.right != next
    requires k.left != k && k.right != k
    requires k.parent == Parent(c, sentl)
    requires !c.Top? ==>
      && c.node != sentl && (c.node.left == k <==> c.InLeft?)
      && c.node != k && c.node != next && c.node != k.left && c.node != k.right
    modifies Above(c)`left, Above(c)`right, Children(k, sentl)`parent
    modifies next`left, next`right, next`parent, next`color, next`key
    ensures next.left == k.left && next.right == k.right && next.parent == Parent(c, sentl)
    ensures next.key == k.key && next.color == k.color
    ensures k.left != sentl ==> k.left.parent == next
    ensures k.right != sentl ==> k.right.parent == next
    ensures root' == if c.Top? then next else root
    ensures !c.Top? ==> c.node.left == if c.InLeft? then next else old(c.node.left)
    ensures !c.Top? ==> c.node.right == if c.InLeft? then old(c.node.right) else next
  {
    next.key := k.key;
    next.color := k.color;
    root' := RelinkParent(k, next, root, sentl, c);
    next.left := sentl;
    if k.left != sentl {
      next.left := k.left;
      k.left.parent := next;
    }
    next.right := sentl;
    if k.right != sentl {
      next.right := k.right;
      k.right.parent := next;
    }
  }

  /** The part of ffrbtl_rm that puts 'next', which is in no tree, in the place of 'k'. */
  method PromoteNode(k: Node, next: Node, root: Node, sentl: Node, ghost c: Context, ghost t: Tree, ghost s: set<Node>)
    returns (root': Node)
    requires Nodes(t) + CtxNodes(c) + {next} <= s && sentl !in s
    requires Represents(Snapshot(s), c, t, root, sentl) && t.Fork? && t.node == k
    requires next !in Nodes(t) + CtxNodes(c)
    modifies s`left, s`right, s`parent, next`color, next`key
    ensures Represents(Snapshot(s), c, Fork(t.left, next, t.color, t.key, t.right), root', sentl)
  {
    hide Represents, Linked, LinkedCtx, Nodes, CtxNodes, Distinct, DistinctCtx, Apart;
    ghost var m, v := Snapshot(s), Fork(t.left, next, t.color, t.key, t.right);
    Around(m, s, c, t, root, sentl);
    RootIn(t, c);
    root' := PromoteLinks(k, next, root, sentl, c);
    Replaced(m, Snapshot(s), c, t, v, root, root', sentl);
  }

  // ----- A key that is written while its node is in a tree

  lemma {:induction false} RekeyNodes(t: Tree, n: Node, key: int)
    ensures Nodes(Rekey(t, n, key)) == Nodes(t)
    ensures Distinct(Rekey(t, n, key)) == Distinct(t)
  {
    if t.Fork? {
      RekeyNodes(t.left, n, key);
      RekeyNodes(t.right, n, key);
    }
  }

  /** 'm'' has the links of 'm', except for the key of 'n'. */
  predicate KeyWritten(m: Heap, m': Heap, n: Node, key: int)
  {
    forall x :: x in m ==>
      m[x].Links? && x in m' && m'[x] == if x == n then Links(m[x].left, m[x].right, m[x].parent, m[x].color, key) else m[x]
  }

  lemma {:induction false} RekeyLinked(m: Heap, m': Heap, t: Tree, parent: Node, sentl: Node, n: Node, key: int)
    requires Linked(m, t, parent, sentl) && KeyWritten(m, m', n, key)
    ensures Linked(m', Rekey(t, n, key), parent, sentl)
  {
    if t.Fork? {
      RekeyLinked(m, m', t.left, t.node, sentl, n, key);
      RekeyLinked(m, m', t.right, t.node, sentl, n, key);
    }
  }

  /** After the write the links represent the tree with the new key. */
  lemma RekeyRepresents(m: Heap, m': Heap, t: Tree, root: Node, sentl: Node, n: Node, key: int)
    requires Represents(m, Top, t, root, sentl) && KeyWritten(m, m', n, key)
    ensures Represents(m', Top, Rekey(t, n, key), root, sentl)
  {
    RekeyNodes(t, n, key);
    RekeyLinked(m, m', t, sentl, sentl, n, key);
  }

  lemma {:induction false} OwnKeys(m: Heap, t: Tree, parent: Node, sentl: Node, n: Node)
    requires Linked(m, t, parent, sentl)
    ensures forall e :: e in InOrder(t) && e.node == n ==> n in m && m[n].Links? && e.key == m[n].key
  {
    if t.Fork? {
      OwnKeys(m, t.left, t.node, sentl, n);
      OwnKeys(m, t.right, t.node, sentl, n);
    }
  }
}
