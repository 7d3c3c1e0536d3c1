// The tree object of FF/rbtree.h and its operations.
module RbTree {
  import opened TreeShape
  import opened RedBlackTree

  lemma {:induction false} NodesInOrder(t: Tree, n: Node)
    ensures n in Nodes(t) <==> exists e :: e in InOrder(t) && e.node == n
    ensures n in Nodes(t) <==> Holds(t, n)
  {
    if t.Fork? {
      NodesInOrder(t.left, n);
      NodesInOrder(t.right, n);
      assert Entry(t.node, t.key) in InOrder(t);
    }
  }

  lemma {:induction false} DistinctInOrder(t: Tree)
    requires Distinct(t)
    ensures NodesDiffer(InOrder(t))
  {
    if t.Fork? {
      DistinctInOrder(t.left);
      DistinctInOrder(t.right);
      var a, e, b := InOrder(t.left), Entry(t.node, t.key), InOrder(t.right);
      forall x | x in a ensures x.node in Nodes(t.left) { NodesInOrder(t.left, x.node); }
      forall x | x in b ensures x.node in Nodes(t.right) { NodesInOrder(t.right, x.node); }
      NodesDifferJoin(a, e, b);
    }
  }

  lemma NodesDifferJoin(a: seq<Entry>, e: Entry, b: seq<Entry>)
    requires NodesDiffer(a) && NodesDiffer(b)
    requires forall x :: x in a || x in b ==> x.node != e.node
    requires forall x, y :: x in a && y in b ==> x.node != y.node
    ensures NodesDiffer(a + [e] + b)
  {
    var es := a + [e] + b;
    forall i, j | 0 <= i < j < |es| ensures es[i].node != es[j].node {
      assert i < |a| ==> es[i] == a[i];
      assert j < |a| ==> es[j] == a[j];
      assert i > |a| ==> es[i] == b[i - |a| - 1];
      assert j > |a| ==> es[j] == b[j - |a| - 1];
    }
  }

  lemma InsertNodes(t: Tree, n: Node, key: int)
    ensures Nodes(InsertAt(Descend(Top, t, key), n, key)) == Nodes(t) + {n}
    ensures CtxNodes(Descend(Top, t, key)) == Nodes(t)
    ensures Nodes(Single(n, Red, key)) == {n}
  {
    DescendPlug(Top, t, key);
    PlugNodes(Descend(Top, t, key), Leaf);
    InsertFixupNodes(Descend(Top, t, key), Single(n, Red, key));
  }

  lemma LocateApart(t: Tree, n: Node)
    requires RedBlack(t) && !IsRed(t) && Distinct(t) && Holds(t, n)
    ensures var (c, u) := (LocateContext(Top, t, n), LocateTree(t, n));
      && Plug(c, u) == t && Fits(c, u)
      && Nodes(u) + CtxNodes(c) == Nodes(t) && Distinct(u) && Nodes(u) !! CtxNodes(c)
  {
    var (c, u) := (LocateContext(Top, t, n), LocateTree(t, n));
    LocatePlug(Top, t, n);
    UnplugRedBlack(c, u);
    PlugNodes(c, u);
    UnplugDistinct(c, u);
  }

  lemma {:induction false} UnplugDistinct(c: Context, t: Tree)
    requires Distinct(Plug(c, t))
    ensures Distinct(t) && DistinctCtx(c) && Nodes(t) !! CtxNodes(c)
    decreases c
  {
    if !c.Top? { UnplugDistinct(c.up, Fill(c, t)); }
  }

  lemma RemoveNodes(t: Tree, n: Node)
    requires RedBlack(t) && !IsRed(t) && Distinct(t) && Holds(t, n)
    ensures Nodes(Remove(t, n)) == Nodes(t) - {n}
  {
    var (c, u) := (LocateContext(Top, t, n), LocateTree(t, n));
    LocateApart(t, n);
    UnlinkNodes(c, u);
    UnlinkRedBlack(c, u);
    var cut := Unlink(c, u);
    if cut.lost == Red { PlugNodes(cut.ctx, cut.tree); } else { RemoveFixupNodes(cut.ctx, cut.tree); }
  }

  lemma ReplaceNodes(t: Tree, n: Node, n2: Node)
    requires RedBlack(t) && !IsRed(t) && Distinct(t) && Holds(t, n) && n2 !in Nodes(t)
    ensures Nodes(Replace(t, n, n2)) == Nodes(t) - {n} + {n2}
  {
    var (c, u) := (LocateContext(Top, t, n), LocateTree(t, n));
    LocateApart(t, n);
    PlugNodes(c, Fork(u.left, n2, u.color, u.key, u.right));
  }

  /** The whole effect of ffrbt_insert on the value of the tree. */
  lemma InsertResult(t: Tree, n: Node, key: int)
    requires RedBlack(t) && !IsRed(t)
    ensures var d := Descend(Top, t, key); var r := InsertAt(d, n, key);
      && RedAtHole(d, Single(n, Red, key))
      && RedBlack(r) && !IsRed(r)
      && InOrder(t) == Before(d) + After(d) && InOrder(r) == Before(d) + [Entry(n, key)] + After(d)
      && (Sorted(InOrder(t)) ==> InOrder(r) == InsertSorted(InOrder(t), Entry(n, key)) && Sorted(InOrder(r)))
      && Nodes(r) == Nodes(t) + {n} && Size(r) == Size(t) + 1
  {
    var r := InsertAt(Descend(Top, t, key), n, key);
    InsertAnywhere(t, n, key);
    if Sorted(InOrder(t)) { InsertCorrect(t, n, key); }
    InsertNodes(t, n, key);
    SizeInOrder(t);
    SizeInOrder(r);
  }

  lemma RemoveSize(t: Tree, n: Node)
    requires RedBlack(t) && !IsRed(t) && Holds(t, n)
    ensures Size(Remove(t, n)) == Size(t) - 1
  {
    var c, u := LocateContext(Top, t, n), LocateTree(t, n);
    LocatePlug(Top, t, n);
    UnplugRedBlack(c, u);
    RemoveAtInOrder(c, u);
    SizeInOrder(t);
    SizeInOrder(Remove(t, n));
  }

  /** The whole effect of ffrbt_rm on the value of the tree. */
  lemma RemoveResult(t: Tree, n: Node)
    requires RedBlack(t) && !IsRed(t) && Distinct(t) && Holds(t, n)
    ensures var r := Remove(t, n);
      && RedBlack(r) && !IsRed(r)
      && InOrder(r) == Without(InOrder(t), n) && (Sorted(InOrder(t)) ==> Sorted(InOrder(r)))
      && Nodes(r) == Nodes(t) - {n} && Size(r) == Size(t) - 1
  {
    DistinctInOrder(t);
    RemoveCorrect(t, n);
    RemoveNodes(t, n);
    RemoveSize(t, n);
  }

  class RbTree {
    var len: nat
    var root: Node
    const sentl: Node
    ghost var shape: Tree
    ghost var nodes: set<Node>

    /** The links form the red-black tree 'shape'. */
    ghost predicate WellFormed()
      reads `root, `shape, `nodes, sentl`color, nodes`left, nodes`right, nodes`parent, nodes`color, nodes`key
    {
      && nodes == Nodes(shape)
      && sentl.color == Black
      && Represents(Snapshot(nodes), Top, shape, root, sentl)
      && RedBlack(shape) && !IsRed(shape)
    }

    /** The invariant of a search tree used through ffrbt_insert and ffrbt_rm. */
    ghost predicate Valid()
      reads this, sentl`color, nodes`left, nodes`right, nodes`parent, nodes`color, nodes`key
    {
      WellFormed() && Sorted(InOrder(shape)) && len == Size(shape)
    }

    /** ffrbt_init */
    constructor ()
      ensures Valid() && fresh(sentl)
      ensures shape == Leaf && len == 0
    {
      var s := new Node(0);
      len, root, sentl, shape, nodes := 0, s, s, Leaf, {};
    }

    /** ffrbt_insert up to the fix-up. */
    method Attach(nod: Node, ancestor: Node?, ghost s: set<Node>) returns (r: Node)
      requires WellFormed() && nod !in nodes && nod != sentl && s == nodes + {nod}
      requires ancestor == null || ancestor == sentl || OnPath(shape, nod.key, ancestor)
      modifies s`left, s`right, nod`parent, nod`color
      ensures Represents(Snapshot(s), Descend(Top, shape, nod.key), Single(nod, Red, nod.key), r, sentl)
    {
      Untouched(Snapshot(nodes), Snapshot(s), Top, shape, root, sentl);
      if ancestor != null && ancestor != sentl {
        ghost var c, t := PathContext(Top, shape, nod.key, ancestor), PathTree(shape, nod.key, ancestor);
        PathDescend(Top, shape, nod.key, ancestor);
        PlugNodes(c, t);
        UnplugRepresents(Snapshot(s), c, t, root, sentl);
        r := AttachRed(nod, ancestor, sentl, root, c, t, s);
        r := root;
      } else {
        r := AttachRed(nod, root, sentl, root, Top, shape, s);
      }
    }

    /** ffrbt_insert on the links. */
    method InsertLinks(nod: Node, ancestor: Node?, ghost d: Context, ghost s: set<Node>) returns (r: Node)
      requires WellFormed() && nod !in nodes && nod != sentl && s == nodes + {nod}
      requires ancestor == null || ancestor == sentl || OnPath(shape, nod.key, ancestor)
      requires d == Descend(Top, shape, nod.key) && RedAtHole(d, Single(nod, Red, nod.key))
      modifies s`left, s`right, s`parent, s`color
      ensures Represents(Snapshot(s), Top, InsertFixup(d, Single(nod, Red, nod.key)), r, sentl)
    {
      InsertNodes(shape, nod, nod.key);
      r := Attach(nod, ancestor, s);
      r := FixupInsert(nod, r, sentl, d, Single(nod, Red, nod.key), s);
    }

    lemma Settled(m: Heap)
      requires nodes == Nodes(shape) && sentl.color == Black && m == Snapshot(nodes)
      requires Represents(m, Top, shape, root, sentl) && RedBlack(shape) && !IsRed(shape)
      ensures WellFormed()
    {
    }

    lemma InsertPlan(nod: Node)
      requires WellFormed()
      ensures var d := Descend(Top, shape, nod.key); var r := InsertFixup(d, Single(nod, Red, nod.key));
        && r == InsertAt(d, nod, nod.key) && RedAtHole(d, Single(nod, Red, nod.key))
        && RedBlack(r) && !IsRed(r)
        && InOrder(shape) == Before(d) + After(d) && InOrder(r) == Before(d) + [Entry(nod, nod.key)] + After(d)
        && (Sorted(InOrder(shape)) ==>
              InOrder(r) == InsertSorted(InOrder(shape), Entry(nod, nod.key)) && Sorted(InOrder(r)))
        && Nodes(r) == nodes + {nod} && Size(r) == Size(shape) + 1
      ensures sentl.color == Black && sentl !in nodes
    {
      InsertResult(shape, nod, nod.key);
    }

    lemma RemovePlan(nod: Node)
      requires WellFormed() && nod in nodes
      ensures RedBlack(shape) && !IsRed(shape) && Holds(shape, nod)
      ensures var r := Remove(shape, nod);
        && RedBlack(r) && !IsRed(r)
        && InOrder(r) == Without(InOrder(shape), nod) && (Sorted(InOrder(shape)) ==> Sorted(InOrder(r)))
        && Nodes(r) == nodes - {nod} && Size(r) == Size(shape) - 1
    {
      NodesInOrder(shape, nod);
      RemoveResult(shape, nod);
    }

    /** ffrbt_insert: 'ancestor' may be a node that the search from the root passes. */
    method Insert(nod: Node, ancestor: Node?)
      requires WellFormed() && nod !in nodes && nod != sentl
      requires ancestor == null || ancestor == sentl || OnPath(shape, nod.key, ancestor)
      modifies this`len, this`root, this`shape, this`nodes
      modifies (nodes + {nod})`left, (nodes + {nod})`right, (nodes + {nod})`parent, (nodes + {nod})`color
      ensures WellFormed() && len == old(len) + 1
      ensures shape == InsertAt(Descend(Top, old(shape), nod.key), nod, nod.key)
      ensures var d := old(Descend(Top, shape, nod.key));
        && old(InOrder(shape)) == Before(d) + After(d)
        && InOrder(shape) == Before(d) + [Entry(nod, nod.key)] + After(d)
      ensures old(Sorted(InOrder(shape))) ==>
        InOrder(shape) == InsertSorted(old(InOrder(shape)), Entry(nod, nod.key)) && Sorted(InOrder(shape))
      ensures nodes == old(nodes) + {nod} && Size(shape) == old(Size(shape)) + 1
    {
      hide *;
      ghost var s, d, u := nodes + {nod}, Descend(Top, shape, nod.key), Single(nod, Red, nod.key);
      InsertPlan(nod);
      var r := InsertLinks(nod, ancestor, d, s);
      ghost var m := Snapshot(s);
      len, root, shape, nodes := len + 1, r, InsertFixup(d, u), s;
      Settled(m);
    }

    /** ffrbt_rm on the links. */
    method RmLinks(nod: Node, ghost s: set<Node>) returns (r: Node)
      requires WellFormed() && Holds(shape, nod) && s == nodes
      modifies s`left, s`right, s`parent, s`color, nod`key, sentl`parent, sentl`color
      ensures Represents(Snapshot(s - {nod}), Top, Remove(shape, nod), r, sentl)
      ensures sentl.color == Black
      ensures Detached(nod) && nod.key == 0
    {
      ghost var c, t := LocateContext(Top, shape, nod), LocateTree(shape, nod);
      LocateApart(shape, nod);
      UnplugRepresents(Snapshot(s), c, t, root, sentl);
      ghost var u := Unlink(c, t);
      UnlinkNodes(c, t);
      UnlinkRedBlack(c, t);
      var x, lost;
      x, lost, r := UnlinkNode(nod, root, sentl, c, t, s);
      r := MendLinks(x, lost, r, sentl, u, s - {nod});
    }

    /** ffrbt_rm */
    method Rm(nod: Node)
      requires WellFormed() && nod in nodes && len != 0
      modifies this`len, this`root, this`shape, this`nodes, sentl`parent, sentl`color
      modifies nodes`left, nodes`right, nodes`parent, nodes`color, nod`key
      ensures WellFormed() && len == old(len) - 1
      ensures InOrder(shape) == Without(old(InOrder(shape)), nod)
      ensures old(Sorted(InOrder(shape))) ==> Sorted(InOrder(shape))
      ensures nodes == old(nodes) - {nod} && Size(shape) == old(Size(shape)) - 1
      ensures Detached(nod) && nod.key == 0
    {
      hide *;
      ghost var t, s := shape, nodes;
      RemovePlan(nod);
      var r := RmLinks(nod, s);
      ghost var m, u := Snapshot(s - {nod}), Remove(t, nod);
      len, root, shape, nodes := len - 1, r, u, s - {nod};
      Settled(m);
    }

    /** The state of the search below: 't' is what is left to search, 'leaf' the node visited last. */
    ghost predicate Searching(key: int, c: Context, t: Tree, leaf: Node, steps: nat)
      reads `root, `shape, `nodes, sentl`color, nodes`left, nodes`right, nodes`parent, nodes`color, nodes`key
    {
      && Nodes(t) + CtxNodes(c) <= nodes
      && Represents(Snapshot(nodes), c, t, root, sentl)
      && Search(t, key) == Search(shape, key) && Descend(c, t, key) == Descend(Top, shape, key)
      && (if c.Top? then t == shape && leaf == root else leaf == c.node && OnPath(shape, key, leaf))
      && (forall n :: n in nodes && OnPath(t, key, n) ==> OnPath(shape, key, n))
      && steps + Height(t) <= Height(shape)
    }

    lemma SearchFrom(key: int)
      requires WellFormed()
      ensures Searching(key, Top, shape, root, 0)
    {
    }

    /** The node at the root of 't' and the step to the left or right of it. */
    lemma SearchStep(key: int, c: Context, t: Tree, leaf: Node, steps: nat)
      requires Searching(key, c, t, leaf, steps)
      ensures Ref(t, sentl) == sentl <==> t.Leaf?
      ensures t.Fork? ==>
        && t.node in nodes && t.node.key == t.key && OnPath(shape, key, t.node) && steps < Height(shape)
        && t.node.left == Ref(t.left, sentl) && t.node.right == Ref(t.right, sentl)
        && (key < t.key ==> Searching(key, InLeft(c, t.node, t.color, t.key, t.right), t.left, t.node, steps + 1))
        && (key > t.key ==> Searching(key, InRight(c, t.left, t.node, t.color, t.key), t.right, t.node, steps + 1))
        && (key == t.key ==> Search(shape, key) == t)
    {
      if t.Fork? {
        assert OnPath(t, key, t.node);
        assert t.node.key == t.key;
        if key < t.key {
          FromChild(Snapshot(nodes), InLeft(c, t.node, t.color, t.key, t.right), t.left, root, sentl);
        } else if key > t.key {
          FromChild(Snapshot(nodes), InRight(c, t.left, t.node, t.color, t.key), t.right, root, sentl);
        }
      }
    }

    /** Where the search ends without having found the key. */
    lemma SearchEnd(key: int, c: Context, leaf: Node, steps: nat)
      requires Searching(key, c, Leaf, leaf, steps)
      ensures Search(shape, key).Leaf? && Descend(Top, shape, key) == c
      ensures if c.Top? then shape.Leaf? && leaf == root && root == sentl else leaf == c.node && OnPath(shape, key, leaf)
    {
    }

    lemma SearchResult(key: int)
      requires WellFormed()
      ensures Search(shape, key).Fork? ==> Entry(Search(shape, key).node, key) in InOrder(shape) && shape.Fork?
      ensures Sorted(InOrder(shape)) && Search(shape, key).Leaf? ==> forall e :: e in InOrder(shape) ==> e.key != key
      ensures Pow2(Height(shape)) <= (Size(shape) + 1) * (Size(shape) + 1)
    {
      if Search(shape, key).Fork? { SearchHeld(shape, key); }
      if Sorted(InOrder(shape)) { SearchCorrect(shape, key); }
      HeightBound(shape);
    }

    /** fftree_findnode and ffrbt_find: 'leaf' is the last node visited.  A tree of n nodes takes at
        most 2*log2(n + 1) steps.  In a sorted tree the key is missed only if no entry has it. */
    method Find(key: int) returns (found: Node?, leaf: Node, ghost steps: nat)
      requires WellFormed()
      ensures found == null <==> Search(shape, key).Leaf?
      ensures found != null ==> Entry(found, key) in InOrder(shape)
      ensures found == null && Sorted(InOrder(shape)) ==> forall e :: e in InOrder(shape) ==> e.key != key
      ensures if shape.Leaf? then leaf == sentl else OnPath(shape, key, leaf)
      ensures found == null && shape.Fork? ==> Parent(Descend(Top, shape, key), sentl) == leaf
      ensures steps <= Height(shape) && Pow2(steps) <= (Size(shape) + 1) * (Size(shape) + 1)
    {
      hide InOrder, Sorted, RedBlack, Size, Represents, Nodes, Searching, Search, OnPath, Descend, Height, Pow2, WellFormed;
      var nod := root;
      leaf := root;
      steps := 0;
      ghost var c, t := Top, shape;
      SearchResult(key);
      SearchFrom(key);
      RootRef();
      while nod != sentl
        invariant Searching(key, c, t, leaf, steps) && nod == Ref(t, sentl)
        invariant steps <= Height(shape)
        decreases t
      {
        SearchStep(key, c, t, leaf, steps);
        leaf := nod;
        steps := steps + 1;
        if key < nod.key {
          nod := nod.left;
          c, t := InLeft(c, t.node, t.color, t.key, t.right), t.left;
        } else if key > nod.key {
          nod := nod.right;
          c, t := InRight(c, t.left, t.node, t.color, t.key), t.right;
        } else {
          Pow2Monotonic(steps, Height(shape));
          return nod, leaf, steps;
        }
      }
      SearchStep(key, c, t, leaf, steps);
      SearchEnd(key, c, leaf, steps);
      Pow2Monotonic(steps, Height(shape));
      found := null;
    }

    lemma RootRef()
      requires WellFormed()
      ensures root == Ref(shape, sentl)
    {
    }

    /** The caller writes the key of a node; the links and colours are as before. */
    method WriteKey(n: Node, key: int)
      requires WellFormed() && n != sentl
      modifies n`key, this`shape
      ensures WellFormed() && n.key == key && shape == Rekey(old(shape), n, key)
      ensures InOrder(shape) == Rekeyed(old(InOrder(shape)), n, key)
    {
      ghost var m := Snapshot(nodes);
      RekeyCorrect(shape, n, key);
      RekeyNodes(shape, n, key);
      n.key := key;
      RekeyRepresents(m, Snapshot(nodes), shape, root, sentl, n, key);
      shape := Rekey(shape, n, key);
    }

    /** fftree_successor */
    method Successor(node: Node) returns (nod: Node)
      requires WellFormed() && node in nodes
      ensures nod == NextIn(InOrder(shape), node, sentl)
    {
      ghost var s := nodes;
      NodesInOrder(shape, node);
      ghost var c, t := LocateContext(Top, shape, node), LocateTree(shape, node);
      LocateNext(shape, node, sentl);
      LocateApart(shape, node);
      UnplugRepresents(Snapshot(s), c, t, root, sentl);
      Surroundings(Snapshot(s), c, t, root, sentl);
      if node.right != sentl {
        MinFirst(t.right, After(c), sentl);
        nod := Min(node.right, sentl, root, InRight(c, t.left, node, t.color, t.key), t.right, s);
        return;
      }
      var it := node;
      nod := it.parent;
      ghost var next := First(After(c), sentl);
      while nod != sentl && it == nod.right
        invariant Nodes(t) + CtxNodes(c) <= s
        invariant Represents(Snapshot(s), c, t, root, sentl) && t.Fork? && it == t.node
        invariant nod == Parent(c, sentl)
        invariant First(After(c), sentl) == next
        decreases c
      {
        Surroundings(Snapshot(s), c, t, root, sentl);
        it := nod;
        nod := nod.parent;
        c, t := c.up, Fill(c, t);
      }
      Surroundings(Snapshot(s), c, t, root, sentl);
    }

    /** ffrbt_freeall: 'calls' are the nodes handed to the callback. */
    method FreeAll() returns (calls: seq<Node>)
      requires Valid()
      modifies this`len, this`root, this`shape, this`nodes, sentl`parent, sentl`color
      modifies nodes`left, nodes`right, nodes`parent, nodes`color, nodes`key
      ensures Valid() && shape == Leaf && len == 0
      ensures calls == NodesOf(old(InOrder(shape)))
    {
      ghost var all, s := NodesOf(InOrder(shape)), nodes;
      calls := [];
      var n := FirstNode();
      while n != sentl
        invariant Valid() && nodes <= s
        invariant n == First(InOrder(shape), sentl)
        invariant calls + NodesOf(InOrder(shape)) == all
        decreases Size(shape)
      {
        FirstHeld();
        NodesOfTail(calls, InOrder(shape));
        var next := RmFirst(n);
        calls := calls + [n];
        n := next;
      }
      FirstHeld();
    }

    /** One step of the loop above: the successor is found before the node is removed. */
    method RmFirst(n: Node) returns (next: Node)
      requires WellFormed() && InOrder(shape) != [] && n == First(InOrder(shape), sentl) && len != 0
      modifies this`len, this`root, this`shape, this`nodes, sentl`parent, sentl`color
      modifies nodes`left, nodes`right, nodes`parent, nodes`color, nodes`key
      ensures WellFormed() && InOrder(shape) == old(InOrder(shape))[1..]
      ensures nodes <= old(nodes) && Size(shape) == old(Size(shape)) - 1 && len == old(len) - 1
      ensures next == First(InOrder(shape), sentl)
    {
      FirstHeld();
      WithoutFirst(InOrder(shape));
      next := Successor(n);
      Rm(n);
    }

    /** The start of FFTREE_FOR. */
    method FirstNode() returns (n: Node)
      requires WellFormed()
      ensures n == First(InOrder(shape), sentl)
    {
      if root == sentl {
        n := sentl;
      } else {
        n := Min(root, sentl, root, Top, shape, nodes);
        MinFirst(shape, [], sentl);
        assert InOrder(shape) + [] == InOrder(shape);
      }
    }

    lemma FirstHeld()
      requires WellFormed()
      ensures InOrder(shape) == [] <==> shape == Leaf
      ensures Size(shape) == |InOrder(shape)|
      ensures InOrder(shape) == [] <==> First(InOrder(shape), sentl) == sentl
      ensures InOrder(shape) != [] ==>
        var n := First(InOrder(shape), sentl);
        n in nodes && n == InOrder(shape)[0].node && NextIn(InOrder(shape), n, sentl) == First(InOrder(shape)[1..], sentl)
      ensures NodesDiffer(InOrder(shape))
    {
      SizeInOrder(shape);
      DistinctInOrder(shape);
      if InOrder(shape) != [] {
        assert InOrder(shape)[0] in InOrder(shape);
        NodesInOrder(shape, InOrder(shape)[0].node);
      }
    }

    lemma TreeParent(n: Node)
      requires WellFormed() && n in nodes
      ensures n.parent != null
    {
      NodesInOrder(shape, n);
      LocateApart(shape, n);
      UnplugRepresents(Snapshot(nodes), LocateContext(Top, shape, n), LocateTree(shape, n), root, sentl);
      Surroundings(Snapshot(nodes), LocateContext(Top, shape, n), LocateTree(shape, n), root, sentl);
    }

    method ReplaceLinks(k: Node, next: Node, ghost s: set<Node>) returns (r: Node)
      requires WellFormed() && Holds(shape, k) && next !in nodes && next != sentl && s == nodes + {next}
      modifies s`left, s`right, s`parent, next`color, next`key
      ensures Represents(Snapshot(s), Top, Replace(shape, k, next), r, sentl)
    {
      ghost var c, t := LocateContext(Top, shape, k), LocateTree(shape, k);
      LocateApart(shape, k);
      Untouched(Snapshot(nodes), Snapshot(s), Top, shape, root, sentl);
      UnplugRepresents(Snapshot(s), c, t, root, sentl);
      r := PromoteNode(k, next, root, sentl, c, t, s);
      PlugRepresents(Snapshot(s), c, Fork(t.left, next, t.color, t.key, t.right), r, sentl);
    }

    /** Put 'next', a sibling of 'k' that is in no tree, in the place of 'k'. */
    method Promote(k: Node, next: Node)
      requires WellFormed() && k in nodes && next !in nodes && next != sentl
      modifies this`root, this`shape, this`nodes, next`left, next`right, next`parent, next`color, next`key
      modifies nodes`left, nodes`right, nodes`parent
      ensures WellFormed()
      ensures InOrder(shape) == Renamed(old(InOrder(shape)), k, next)
      ensures nodes == old(nodes) - {k} + {next}
      ensures Detached(k)
    {
      ghost var t, s := shape, nodes + {next};
      NodesInOrder(t, k);
      DistinctInOrder(t);
      root := ReplaceLinks(k, next, s);
      ReplaceCorrect(t, k, next);
      ReplaceNodes(t, k, next);
      shape := Replace(t, k, next);
      nodes := nodes - {k} + {next};
      Untouched(Snapshot(s), Snapshot(nodes), Top, shape, root, sentl);
      Abandon(k);
    }

    /** Clear the links of a node that left the tree. */
    method Abandon(k: Node)
      requires k !in nodes && k != sentl
      modifies k`left, k`right, k`parent
      ensures Detached(k)
      ensures old(WellFormed()) ==> WellFormed()
    {
      k.left, k.right, k.parent := null, null, null;
    }
  }

  lemma LocateNext(t: Tree, n: Node, none: Node)
    requires Distinct(t) && Holds(t, n) && RedBlack(t) && !IsRed(t)
    ensures var (c, u) := (LocateContext(Top, t, n), LocateTree(t, n));
      NextIn(InOrder(t), n, none) == First(InOrder(u.right) + After(c), none)
  {
    var (c, u) := (LocateContext(Top, t, n), LocateTree(t, n));
    LocateApart(t, n);
    RemoveAtInOrder(c, u);
    var a, e, b := Before(c) + InOrder(u.left), Entry(n, u.key), InOrder(u.right) + After(c);
    DistinctInOrder(t);
    OthersDiffer(a, e, b);
    NextInMiddle(a, e, b, none);
  }
}
