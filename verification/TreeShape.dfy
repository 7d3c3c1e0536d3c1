// The values behind the pointers of FF/rbtree.h: trees of nodes, trees with a
// hole (contexts), and the rebalancing that FF/ffrbtree.c performs, written on
// these values.  The heap methods of RbTree refine these functions; what the
// source promises about the tree is proved here.
module TreeShape {

  datatype Color = Black | Red

  /** Tree node: the fields of ffrbt_node, and of the 'sib' item of ffrbtl_node. */
  class Node {
    var left: Node?
    var right: Node?
    var parent: Node?
    var color: Color
    var key: int
    var next: Node?
    var prev: Node?

    constructor (key: int)
      ensures this.key == key && parent == null && color == Black
    {
      this.key := key;
      left, right, parent, next, prev := null, null, null, null, null;
      color := Black;
    }
  }

  datatype Tree =
    | Leaf
    | Fork(left: Tree, node: Node, color: Color, key: int, right: Tree)

  /** A tree with one subtree missing; 'up' leads to the root. */
  datatype Context =
    | Top
    | InLeft(up: Context, node: Node, color: Color, key: int, right: Tree)
    | InRight(up: Context, left: Tree, node: Node, color: Color, key: int)

  datatype Entry = Entry(node: Node, key: int)

  function Plug(c: Context, t: Tree): Tree
    decreases c
  {
    match c
    case Top => t
    case InLeft(up, n, col, k, r) => Plug(up, Fork(t, n, col, k, r))
    case InRight(up, l, n, col, k) => Plug(up, Fork(l, n, col, k, t))
  }

  // ----- In-order contents

  function InOrder(t: Tree): seq<Entry>
  {
    match t
    case Leaf => []
    case Fork(l, n, _, k, r) => InOrder(l) + [Entry(n, k)] + InOrder(r)
  }

  /** What precedes the hole. */
  function Before(c: Context): seq<Entry>
  {
    match c
    case Top => []
    case InLeft(up, _, _, _, _) => Before(up)
    case InRight(up, l, n, _, k) => Before(up) + InOrder(l) + [Entry(n, k)]
  }

  /** What follows the hole. */
  function After(c: Context): seq<Entry>
  {
    match c
    case Top => []
    case InLeft(up, n, _, k, r) => [Entry(n, k)] + InOrder(r) + After(up)
    case InRight(up, _, _, _, _) => After(up)
  }

  lemma {:induction false} PlugInOrder(c: Context, t: Tree)
    ensures InOrder(Plug(c, t)) == Before(c) + InOrder(t) + After(c)
    decreases c
  {
    match c
    case Top =>
    case InLeft(up, n, col, k, r) => PlugInOrder(up, Fork(t, n, col, k, r));
    case InRight(up, l, n, col, k) => PlugInOrder(up, Fork(l, n, col, k, t));
  }

  /** The subtree at the node above the hole, with 't' in the hole. */
  function Fill(c: Context, t: Tree): Tree
    requires !c.Top?
  {
    if c.InLeft? then Fork(t, c.node, c.color, c.key, c.right) else Fork(c.left, c.node, c.color, c.key, t)
  }

  lemma FillInOrder(c: Context, t: Tree)
    requires !c.Top?
    ensures Before(c) + InOrder(t) + After(c) == Before(c.up) + InOrder(Fill(c, t)) + After(c.up)
  {
  }

  /** 'r' is 'l' after a right rotation, whatever the colours. */
  predicate Rotated(l: Tree, r: Tree)
  {
    && l.Fork? && l.left.Fork? && r.Fork? && r.right.Fork?
    && l.left.left == r.left && l.left.node == r.node && l.left.key == r.key
    && l.left.right == r.right.left
    && l.node == r.right.node && l.key == r.right.key && l.right == r.right.right
  }

  lemma RotateInOrder(l: Tree, r: Tree)
    requires Rotated(l, r)
    ensures InOrder(l) == InOrder(r)
  {
    var A, n, B, m, C := InOrder(r.left), Entry(r.node, r.key), InOrder(l.left.right), Entry(l.node, l.key), InOrder(l.right);
    assert InOrder(l) == (A + [n] + B) + [m] + C;
    assert InOrder(r) == A + [n] + (B + [m] + C);
  }

  ghost predicate Sorted(es: seq<Entry>)
  {
    forall i, j :: 0 <= i < j < |es| ==> es[i].key <= es[j].key
  }

  ghost predicate AllAtMost(es: seq<Entry>, key: int)
  {
    forall e :: e in es ==> e.key <= key
  }

  ghost predicate AllAbove(es: seq<Entry>, key: int)
  {
    forall e :: e in es ==> key < e.key
  }

  function Size(t: Tree): nat
  {
    match t
    case Leaf => 0
    case Fork(l, _, _, _, r) => Size(l) + 1 + Size(r)
  }

  lemma {:induction false} SizeInOrder(t: Tree)
    ensures |InOrder(t)| == Size(t)
  {
    match t
    case Leaf =>
    case Fork(l, _, _, _, r) => SizeInOrder(l); SizeInOrder(r);
  }

  // ----- Red-black rules

  predicate IsRed(t: Tree)
  {
    t.Fork? && t.color == Red
  }

  function Blacken(t: Tree): Tree
  {
    if t.Leaf? then t else t.(color := Black)
  }

  /** Number of black nodes on the leftmost path. */
  function BlackHeight(t: Tree): nat
  {
    match t
    case Leaf => 0
    case Fork(l, _, col, _, _) => BlackHeight(l) + if col == Black then 1 else 0
  }

  /** No red node has a red child, and all paths to a leaf pass the same number of black nodes. */
  predicate RedBlack(t: Tree)
  {
    match t
    case Leaf => true
    case Fork(l, _, col, _, r) =>
      && RedBlack(l) && RedBlack(r)
      && BlackHeight(l) == BlackHeight(r)
      && (col == Red ==> !IsRed(l) && !IsRed(r))
  }

  predicate BlackParent(c: Context)
  {
    !c.Top? && c.color == Black
  }

  /** The subtree beside the hole. */
  function Sibling(c: Context): Tree
    requires !c.Top?
  {
    if c.InLeft? then c.right else c.left
  }

  /** The rules for a context whose hole takes a subtree of black height 'h'. */
  predicate RedBlackCtx(c: Context, h: nat)
  {
    c.Top? ||
    (&& RedBlack(Sibling(c)) && BlackHeight(Sibling(c)) == h
     && (c.color == Red ==> !IsRed(Sibling(c)) && BlackParent(c.up))
     && RedBlackCtx(c.up, if c.color == Black then h + 1 else h))
  }

  /** A subtree may go into the hole of a context if both follow the rules. */
  predicate Fits(c: Context, t: Tree)
  {
    && RedBlack(t) && RedBlackCtx(c, BlackHeight(t))
    && (IsRed(t) ==> BlackParent(c))
  }

  lemma {:induction false} PlugRedBlack(c: Context, t: Tree)
    requires Fits(c, t)
    ensures RedBlack(Plug(c, t)) && !IsRed(Plug(c, t))
    decreases c
  {
    match c
    case Top =>
    case InLeft(up, n, col, k, r) => PlugRedBlack(up, Fork(t, n, col, k, r));
    case InRight(up, l, n, col, k) => PlugRedBlack(up, Fork(l, n, col, k, t));
  }

  lemma {:induction false} UnplugRedBlack(c: Context, t: Tree)
    requires RedBlack(Plug(c, t)) && !IsRed(Plug(c, t))
    ensures Fits(c, t)
    decreases c
  {
    match c
    case Top =>
    case InLeft(up, n, col, k, r) => UnplugRedBlack(up, Fork(t, n, col, k, r));
    case InRight(up, l, n, col, k) => UnplugRedBlack(up, Fork(l, n, col, k, t));
  }

  // ----- Height

  function Max(a: nat, b: nat): nat { if a < b then b else a }

  /** Number of nodes on the longest path. */
  function Height(t: Tree): nat
  {
    match t
    case Leaf => 0
    case Fork(l, _, _, _, r) => 1 + Max(Height(l), Height(r))
  }

  function Pow2(n: nat): nat
  {
    if n == 0 then 1 else 2 * Pow2(n - 1)
  }

  lemma {:induction false} Pow2Add(a: nat, b: nat)
    ensures Pow2(a + b) == Pow2(a) * Pow2(b)
  {
    if a > 0 { Pow2Add(a - 1, b); }
  }

  lemma {:induction false} Pow2Monotonic(a: nat, b: nat)
    requires a <= b
    ensures Pow2(a) <= Pow2(b)
    decreases b
  {
    if a < b { Pow2Monotonic(a, b - 1); }
  }

  lemma {:induction false} HeightByBlackHeight(t: Tree)
    requires RedBlack(t)
    ensures Height(t) <= 2 * BlackHeight(t) + if IsRed(t) then 1 else 0
    ensures Pow2(BlackHeight(t)) <= Size(t) + 1
  {
    match t
    case Leaf =>
    case Fork(l, _, _, _, r) => HeightByBlackHeight(l); HeightByBlackHeight(r);
  }

  lemma SquareMonotonic(a: nat, b: nat)
    requires a <= b
    ensures a * a <= b * b
  {
    assert a * a <= a * b;
    assert a * b <= b * b;
  }

  /** A tree of n nodes has height at most 2*log2(n + 1). */
  lemma {:induction false} HeightBound(t: Tree)
    requires RedBlack(t) && !IsRed(t)
    ensures Pow2(Height(t)) <= (Size(t) + 1) * (Size(t) + 1)
  {
    HeightByBlackHeight(t);
    var h := BlackHeight(t);
    Pow2Monotonic(Height(t), h + h);
    Pow2Add(h, h);
    SquareMonotonic(Pow2(h), Size(t) + 1);
  }

  // ----- Search

  /** The subtree at the first node with 'key' that a search meets; a leaf if there is none. */
  function Search(t: Tree, key: int): Tree
  {
    if t.Leaf? || key == t.key then t
    else Search(if key < t.key then t.left else t.right, key)
  }

  /** A search finds a node with 'key' if and only if there is one. */
  lemma {:induction false} SearchCorrect(t: Tree, key: int)
    requires Sorted(InOrder(t))
    ensures var u := Search(t, key);
      && (u.Leaf? <==> forall e :: e in InOrder(t) ==> e.key != key)
      && (u.Fork? ==> u.key == key && Entry(u.node, key) in InOrder(t))
  {
    if t.Fork? {
      var a, e, b := InOrder(t.left), Entry(t.node, t.key), InOrder(t.right);
      assert e in InOrder(t);
      SortedParts(a, e, b);
      SearchCorrect(t.left, key);
      SearchCorrect(t.right, key);
    }
  }

  /** What a search meets is in the tree, whatever the order of the keys. */
  lemma {:induction false} SearchHeld(t: Tree, key: int)
    requires Search(t, key).Fork?
    ensures Search(t, key).key == key && Entry(Search(t, key).node, key) in InOrder(t)
  {
    assert Entry(t.node, t.key) in InOrder(t);
    if key != t.key { SearchHeld(if key < t.key then t.left else t.right, key); }
  }

  lemma SortedParts(a: seq<Entry>, e: Entry, b: seq<Entry>)
    requires Sorted(a + [e] + b)
    ensures Sorted(a) && Sorted(b)
    ensures forall x :: x in a ==> x.key <= e.key
    ensures forall x :: x in b ==> e.key <= x.key
  {
    var es := a + [e] + b;
    assert es[|a|] == e;
    assert forall i :: 0 <= i < |a| ==> es[i] == a[i];
    assert forall i :: 0 <= i < |b| ==> es[|a| + 1 + i] == b[i];
    forall i, j | 0 <= i < j < |b| ensures b[i].key <= b[j].key {
      assert es[|a| + 1 + i].key <= es[|a| + 1 + j].key;
    }
    forall x | x in b ensures e.key <= x.key {
      var i :| 0 <= i < |b| && b[i] == x;
      assert es[|a| + 1 + i] == x;
    }
  }

  // ----- Insertion

  /** Where an insertion of 'key' below the hole of 'c', filled with 't', ends. */
  function Descend(c: Context, t: Tree, key: int): Context
    decreases t
  {
    match t
    case Leaf => c
    case Fork(l, n, col, k, r) =>
      if key < k then Descend(InLeft(c, n, col, k, r), l, key)
      else Descend(InRight(c, l, n, col, k), r, key)
  }

  lemma {:induction false} DescendPlug(c: Context, t: Tree, key: int)
    ensures Plug(Descend(c, t, key), Leaf) == Plug(c, t)
    decreases t
  {
    match t
    case Leaf =>
    case Fork(l, n, col, k, r) =>
      if key < k { DescendPlug(InLeft(c, n, col, k, r), l, key); }
      else { DescendPlug(InRight(c, l, n, col, k), r, key); }
  }

  /** The descent separates the keys not above 'key' from those above it. */
  lemma {:induction false} DescendSplits(c: Context, t: Tree, key: int)
    requires Sorted(InOrder(Plug(c, t)))
    requires AllAtMost(Before(c), key) && AllAbove(After(c), key)
    ensures AllAtMost(Before(Descend(c, t, key)), key)
    ensures AllAbove(After(Descend(c, t, key)), key)
    decreases t
  {
    match t
    case Leaf =>
    case Fork(l, n, col, k, r) =>
      PlugInOrder(c, t);
      var a, e, b := Before(c) + InOrder(l), Entry(n, k), InOrder(r) + After(c);
      Regroup5(Before(c), InOrder(l), [e], InOrder(r), After(c));
      SortedParts(a, e, b);
      if key < k {
        assert forall x :: x in After(InLeft(c, n, col, k, r)) ==> x == e || x in b;
        DescendSplits(InLeft(c, n, col, k, r), l, key);
      } else {
        assert forall x :: x in Before(InRight(c, l, n, col, k)) ==> x == e || x in a;
        DescendSplits(InRight(c, l, n, col, k), r, key);
      }
  }

  /** The search for 'key' passes node 'n'. */
  predicate OnPath(t: Tree, key: int, n: Node)
  {
    t.Fork? && (t.node == n || OnPath(if key < t.key then t.left else t.right, key, n))
  }

  /** The context and the subtree of a node on the search path. */
  function PathContext(c: Context, t: Tree, key: int, n: Node): Context
    requires OnPath(t, key, n)
    decreases t
  {
    if t.node == n then c
    else if key < t.key then PathContext(InLeft(c, t.node, t.color, t.key, t.right), t.left, key, n)
    else PathContext(InRight(c, t.left, t.node, t.color, t.key), t.right, key, n)
  }

  function PathTree(t: Tree, key: int, n: Node): (u: Tree)
    requires OnPath(t, key, n)
    ensures u.Fork? && u.node == n
  {
    if t.node == n then t else PathTree(if key < t.key then t.left else t.right, key, n)
  }

  /** A search that starts at a node on the path ends at the same place. */
  lemma {:induction false} PathDescend(c: Context, t: Tree, key: int, n: Node)
    requires OnPath(t, key, n)
    ensures var (d, u) := (PathContext(c, t, key, n), PathTree(t, key, n));
      Descend(d, u, key) == Descend(c, t, key) && Plug(d, u) == Plug(c, t)
    decreases t
  {
    if t.node == n {
    } else if key < t.key {
      PathDescend(InLeft(c, t.node, t.color, t.key, t.right), t.left, key, n);
    } else {
      PathDescend(InRight(c, t.left, t.node, t.color, t.key), t.right, key, n);
    }
  }

  /** The red node at the root of 't' has a red parent. */
  predicate RedPair(c: Context)
  {
    !c.Top? && c.color == Red && !c.up.Top?
  }

  /** One round of rebalancing: the subtree that takes the place of the grandparent.
      It is red if the uncle was red, and then its own parent may be red too. */
  function InsertStep(c: Context, t: Tree): Tree
    requires IsRed(t) && RedPair(c)
  {
    match c
    case InLeft(InLeft(_, g, _, gk, uncle), p, _, pk, s) =>
      if IsRed(uncle) then Fork(Fork(t, p, Black, pk, s), g, Red, gk, Blacken(uncle))
      else Fork(t, p, Black, pk, Fork(s, g, Red, gk, uncle))
    case InRight(InLeft(_, g, _, gk, uncle), s, p, _, pk) =>
      if IsRed(uncle) then Fork(Fork(s, p, Black, pk, t), g, Red, gk, Blacken(uncle))
      else Fork(Fork(s, p, Red, pk, t.left), t.node, Black, t.key, Fork(t.right, g, Red, gk, uncle))
    case InRight(InRight(_, uncle, g, _, gk), s, p, _, pk) =>
      if IsRed(uncle) then Fork(Blacken(uncle), g, Red, gk, Fork(s, p, Black, pk, t))
      else Fork(Fork(uncle, g, Red, gk, s), p, Black, pk, t)
    case InLeft(InRight(_, uncle, g, _, gk), p, _, pk, s) =>
      if IsRed(uncle) then Fork(Blacken(uncle), g, Red, gk, Fork(t, p, Black, pk, s))
      else Fork(Fork(uncle, g, Red, gk, t.left), t.node, Black, t.key, Fork(t.right, p, Red, pk, s))
  }

  /** Rebalancing after the red node at the root of 't' was put below 'c'. */
  function InsertFixup(c: Context, t: Tree): Tree
    requires IsRed(t)
    decreases c
  {
    if !RedPair(c) then Blacken(Plug(c, t)) else
    var u := InsertStep(c, t);
    if IsRed(u) then InsertFixup(c.up.up, u) else Blacken(Plug(c.up.up, u))
  }

  lemma {:induction false} InsertStepInOrder(c: Context, t: Tree)
    requires IsRed(t) && RedPair(c)
    ensures Before(c.up.up) + InOrder(InsertStep(c, t)) + After(c.up.up) == Before(c) + InOrder(t) + After(c)
  {
    var p, u := Fill(c, t), InsertStep(c, t);
    var g := Fill(c.up, p);
    FillInOrder(c, t);
    FillInOrder(c.up, p);
    if IsRed(Sibling(c.up)) {
      assert InOrder(u) == InOrder(g);
    } else if c.up.InLeft? {
      if c.InRight? {
        var p' := Fork(u.left, t.node, Red, t.key, t.right);
        RotateInOrder(p', p);
        RotateInOrder(g.(left := p'), u);
      } else {
        RotateInOrder(g, u);
      }
    } else {
      if c.InLeft? {
        var p' := Fork(t.left, t.node, Red, t.key, u.right);
        RotateInOrder(p, p');
        RotateInOrder(u, g.(right := p'));
      } else {
        RotateInOrder(u, g);
      }
    }
  }

  /** Only the red root of 't' can break the rules, by having a red parent. */
  predicate RedAtHole(c: Context, t: Tree)
  {
    IsRed(t) && RedBlack(t) && RedBlackCtx(c, BlackHeight(t))
  }

  lemma InsertStepRedBlack(c: Context, t: Tree)
    requires RedAtHole(c, t) && RedPair(c)
    ensures var u := InsertStep(c, t);
      && RedBlack(u) && RedBlackCtx(c.up.up, BlackHeight(u))
      && (IsRed(u) ==> u.node == c.up.node && RedAtHole(c.up.up, u) && InsertFixup(c, t) == InsertFixup(c.up.up, u))
      && (!IsRed(u) ==> InsertFixup(c, t) == Blacken(Plug(c.up.up, u)))
  {
    assert c.up.color == Black && RedBlackCtx(c.up, BlackHeight(t));
    assert RedBlackCtx(c.up.up, BlackHeight(t) + 1);
  }

  /** Rebalancing restores the rules and moves no entry. */
  lemma {:induction false} InsertFixupCorrect(c: Context, t: Tree)
    requires RedAtHole(c, t)
    ensures RedBlack(InsertFixup(c, t)) && !IsRed(InsertFixup(c, t))
    ensures InOrder(InsertFixup(c, t)) == Before(c) + InOrder(t) + After(c)
    decreases c
  {
    if !RedPair(c) {
      if !c.Top? { PlugRedBlack(c, t); }
      PlugInOrder(c, t);
    } else {
      var u := InsertStep(c, t);
      InsertStepInOrder(c, t);
      InsertStepRedBlack(c, t);
      if IsRed(u) {
        InsertFixupCorrect(c.up.up, u);
      } else {
        PlugRedBlack(c.up.up, u);
        PlugInOrder(c.up.up, u);
      }
    }
  }

  /** The tree after inserting node 'n' below the hole of 'c'. */
  function InsertAt(c: Context, n: Node, key: int): Tree
  {
    InsertFixup(c, Fork(Leaf, n, Red, key, Leaf))
  }

  /** Reference: insertion into a sorted sequence, after the entries with an equal key. */
  function InsertSorted(es: seq<Entry>, e: Entry): seq<Entry>
  {
    if es == [] then [e]
    else if e.key < es[0].key then [e] + es
    else [es[0]] + InsertSorted(es[1..], e)
  }

  lemma {:induction false} InsertSortedSplit(before: seq<Entry>, after: seq<Entry>, e: Entry)
    requires AllAtMost(before, e.key) && AllAbove(after, e.key)
    ensures InsertSorted(before + after, e) == before + [e] + after
  {
    if before == [] {
      assert before + after == after;
      assert after != [] ==> after[0] in after;
    } else {
      assert before[0] in before;
      assert (before + after)[1..] == before[1..] + after;
      InsertSortedSplit(before[1..], after, e);
    }
  }

  lemma SortedCons(e: Entry, es: seq<Entry>)
    requires Sorted(es) && forall x :: x in es ==> e.key <= x.key
    ensures Sorted([e] + es)
  {
  }

  lemma SortedTail(es: seq<Entry>)
    requires Sorted(es) && es != []
    ensures Sorted(es[1..]) && forall x :: x in es[1..] ==> es[0].key <= x.key && x in es
  {
  }

  lemma {:induction false} InsertSortedMember(es: seq<Entry>, e: Entry, x: Entry)
    ensures x in InsertSorted(es, e) <==> x in es || x == e
  {
    if es != [] && es[0].key <= e.key {
      InsertSortedMember(es[1..], e, x);
      assert es == [es[0]] + es[1..];
    }
  }

  lemma {:induction false} InsertSortedSorted(es: seq<Entry>, e: Entry)
    requires Sorted(es)
    ensures Sorted(InsertSorted(es, e))
  {
    if es == [] {
    } else if e.key < es[0].key {
      SortedTail(es);
      assert es == [es[0]] + es[1..];
      SortedCons(e, es);
    } else {
      SortedTail(es);
      InsertSortedSorted(es[1..], e);
      var rest := InsertSorted(es[1..], e);
      forall x | x in rest ensures es[0].key <= x.key { InsertSortedMember(es[1..], e, x); }
      SortedCons(es[0], rest);
    }
  }

  lemma {:induction false} InsertSortedLength(es: seq<Entry>, e: Entry)
    ensures |InsertSorted(es, e)| == |es| + 1
  {
    if es != [] { InsertSortedLength(es[1..], e); }
  }

  /** Insertion into a red-black tree, sorted or not: the rules hold, and one entry joins the others. */
  lemma {:induction false} InsertAnywhere(t: Tree, n: Node, key: int)
    requires RedBlack(t) && !IsRed(t)
    ensures var c := Descend(Top, t, key);
      && RedAtHole(c, Fork(Leaf, n, Red, key, Leaf))
      && RedBlack(InsertAt(c, n, key)) && !IsRed(InsertAt(c, n, key))
      && InOrder(t) == Before(c) + After(c)
      && InOrder(InsertAt(c, n, key)) == Before(c) + [Entry(n, key)] + After(c)
  {
    var c, u := Descend(Top, t, key), Fork(Leaf, n, Red, key, Leaf);
    DescendPlug(Top, t, key);
    UnplugRedBlack(c, Leaf);
    PlugInOrder(c, Leaf);
    assert InOrder(u) == [Entry(n, key)];
    InsertFixupCorrect(c, u);
  }

  /** Insertion into a red-black search tree: the in-order sequence is that of the reference. */
  lemma {:induction false} InsertCorrect(t: Tree, n: Node, key: int)
    requires RedBlack(t) && !IsRed(t) && Sorted(InOrder(t))
    ensures var r := InsertAt(Descend(Top, t, key), n, key);
      && RedBlack(r) && !IsRed(r)
      && InOrder(r) == InsertSorted(InOrder(t), Entry(n, key)) && Sorted(InOrder(r))
  {
    var c, e := Descend(Top, t, key), Entry(n, key);
    DescendSplits(Top, t, key);
    InsertAnywhere(t, n, key);
    InsertSortedSplit(Before(c), After(c), e);
    InsertSortedSorted(InOrder(t), e);
  }

  // ----- Removal

  /** The leftmost path below 'c': where the minimum of 't' sits. */
  function MinContext(c: Context, t: Tree): Context
    requires t.Fork?
    decreases t
  {
    if t.left.Leaf? then c else MinContext(InLeft(c, t.node, t.color, t.key, t.right), t.left)
  }

  /** The subtree at the minimum of 't'. */
  function MinTree(t: Tree): (m: Tree)
    requires t.Fork?
    ensures m.Fork? && m.left.Leaf?
  {
    if t.left.Leaf? then t else MinTree(t.left)
  }

  function WithoutMin(t: Tree): Tree
    requires t.Fork?
  {
    if t.left.Leaf? then t.right else t.(left := WithoutMin(t.left))
  }

  lemma {:induction false} MinPlug(c: Context, t: Tree)
    requires t.Fork?
    ensures Plug(MinContext(c, t), MinTree(t)) == Plug(c, t)
    ensures Plug(MinContext(c, t), MinTree(t).right) == Plug(c, WithoutMin(t))
    decreases t
  {
    if t.left.Fork? { MinPlug(InLeft(c, t.node, t.color, t.key, t.right), t.left); }
  }

  /** A tree that lacks one node: 'tree' is what is left at the place where it was cut out,
      and 'lost' the colour that its paths miss. */
  datatype Cut = Cut(ctx: Context, tree: Tree, lost: Color)

  /** Cut out the node at the root of 't', which sits below 'c'.  A node with two children
      is replaced by its successor, which takes its colour. */
  function Unlink(c: Context, t: Tree): Cut
    requires t.Fork?
  {
    if t.left.Leaf? then Cut(c, t.right, t.color)
    else if t.right.Leaf? then Cut(c, t.left, t.color)
    else
      var m := MinTree(t.right);
      Cut(MinContext(InRight(c, t.left, m.node, t.color, m.key), t.right), m.right, m.color)
  }

  /** The tree 't' without the node at its root; the successor keeps its colour. */
  function Spliced(t: Tree): Tree
    requires t.Fork?
  {
    if t.left.Leaf? then t.right
    else if t.right.Leaf? then t.left
    else Fork(t.left, MinTree(t.right).node, MinTree(t.right).color, MinTree(t.right).key, WithoutMin(t.right))
  }

  predicate TwoChildren(t: Tree)
  {
    t.Fork? && t.left.Fork? && t.right.Fork?
  }

  lemma {:induction false} UnlinkPlug(c: Context, t: Tree)
    requires t.Fork?
    ensures var u := Unlink(c, t);
      Plug(u.ctx, u.tree) == Plug(c, if TwoChildren(t) then Spliced(t).(color := t.color) else Spliced(t))
  {
    if TwoChildren(t) {
      MinPlug(InRight(c, t.left, MinTree(t.right).node, t.color, MinTree(t.right).key), t.right);
    }
  }

  lemma {:induction false} MinContextInOrder(c: Context, t: Tree)
    requires t.Fork?
    ensures Before(MinContext(c, t)) == Before(c)
    ensures [Entry(MinTree(t).node, MinTree(t).key)] + InOrder(MinTree(t).right) + After(MinContext(c, t))
         == InOrder(t) + After(c)
    decreases t
  {
    if t.left.Fork? {
      MinContextInOrder(InLeft(c, t.node, t.color, t.key, t.right), t.left);
      assert InOrder(t) + After(c) == InOrder(t.left) + ([Entry(t.node, t.key)] + InOrder(t.right) + After(c));
    }
  }

  lemma Regroup(a: seq<Entry>, b: seq<Entry>, c: seq<Entry>)
    ensures a + b + c == a + (b + c)
  {
  }

  lemma Regroup5(a: seq<Entry>, b: seq<Entry>, c: seq<Entry>, d: seq<Entry>, e: seq<Entry>)
    ensures a + (b + c + d) + e == a + b + c + (d + e)
    ensures a + b + d + e == a + b + (d + e)
  {
  }

  /** Unlinking takes out exactly the one entry. */
  lemma {:induction false} UnlinkInOrder(c: Context, t: Tree)
    requires t.Fork?
    ensures var u := Unlink(c, t);
      Before(u.ctx) + InOrder(u.tree) + After(u.ctx)
      == Before(c) + InOrder(t.left) + InOrder(t.right) + After(c)
  {
    if t.left.Leaf? {
    } else if t.right.Leaf? {
    } else {
      var m, u := MinTree(t.right), Unlink(c, t);
      var d := InRight(c, t.left, m.node, t.color, m.key);
      var e := Entry(m.node, m.key);
      MinContextInOrder(d, t.right);
      Regroup(Before(u.ctx), InOrder(u.tree), After(u.ctx));
      Regroup(Before(c) + InOrder(t.left), [e], InOrder(u.tree) + After(u.ctx));
      Regroup(Before(c) + InOrder(t.left), InOrder(t.right), After(c));
    }
  }

  lemma {:induction false} MinContextRedBlack(c: Context, t: Tree)
    requires t.Fork? && Fits(c, t)
    ensures Fits(MinContext(c, t), MinTree(t))
    decreases t
  {
    if t.left.Fork? { MinContextRedBlack(InLeft(c, t.node, t.color, t.key, t.right), t.left); }
  }

  /** Only the lost colour can be wrong after unlinking. */
  lemma {:induction false} UnlinkRedBlack(c: Context, t: Tree)
    requires t.Fork? && Fits(c, t)
    ensures var u := Unlink(c, t);
      && RedBlack(u.tree)
      && (u.lost == Red ==> Fits(u.ctx, u.tree) && !IsRed(u.tree))
      && (u.lost == Black ==> RedBlackCtx(u.ctx, BlackHeight(u.tree) + 1))
  {
    if t.left.Leaf? {
    } else if t.right.Leaf? {
    } else {
      MinContextRedBlack(InRight(c, t.left, MinTree(t.right).node, t.color, MinTree(t.right).key), t.right);
    }
  }

  function Depth(c: Context): nat
  {
    if c.Top? then 0 else 1 + Depth(c.up)
  }

  /** The paths through 't' below 'c' lack one black node; a red root may still become black. */
  predicate LacksBlack(c: Context, t: Tree)
  {
    RedBlack(Blacken(t)) && RedBlackCtx(c, BlackHeight(t) + 1)
  }

  /** The outcome of one round of the removal's rebalancing: either the missing black
      node was made up for, or it is now missing from the subtree one level higher. */
  datatype Round = Done(ctx: Context, tree: Tree) | Missing(ctx: Context, tree: Tree)

  /** One round when the hole's sibling is black. */
  function BlackSiblingStep(c: Context, x: Tree): (r: Round)
    requires !c.Top? && LacksBlack(c, x) && !IsRed(x) && !IsRed(Sibling(c))
    ensures r.ctx == c.up && r.tree.Fork? && (r.Missing? ==> r.tree.node == c.node)
    ensures r.Done? ==> Fits(r.ctx, r.tree)
    ensures r.Missing? ==> LacksBlack(r.ctx, r.tree)
    ensures r.Missing? ==> (IsRed(r.tree) <==> c.color == Red)
  {
    assert RedBlack(Sibling(c)) && RedBlack(Sibling(c).left) && RedBlack(Sibling(c).right);
    match c
    case InLeft(up, p, pc, pk, Fork(sl, s, sc, sk, sr)) =>
      if !IsRed(sl) && !IsRed(sr) then Missing(up, Fork(x, p, pc, pk, Fork(sl, s, Red, sk, sr)))
      else if !IsRed(sr) then
        Done(up, Fork(Fork(x, p, Black, pk, sl.left), sl.node, pc, sl.key, Fork(sl.right, s, Black, sk, sr)))
      else Done(up, Fork(Fork(x, p, Black, pk, sl), s, pc, sk, Blacken(sr)))
    case InRight(up, Fork(sl, s, sc, sk, sr), p, pc, pk) =>
      if !IsRed(sl) && !IsRed(sr) then Missing(up, Fork(Fork(sl, s, Red, sk, sr), p, pc, pk, x))
      else if !IsRed(sl) then
        Done(up, Fork(Fork(sl, s, Black, sk, sr.left), sr.node, pc, sr.key, Fork(sr.right, p, Black, pk, x)))
      else Done(up, Fork(Blacken(sl), s, pc, sk, Fork(sr, p, Black, pk, x)))
  }

  /** The context after the rotation that gives the hole a black sibling. */
  function LowerRedSibling(c: Context): Context
    requires !c.Top? && IsRed(Sibling(c))
  {
    match c
    case InLeft(up, p, _, pk, Fork(sl, s, _, sk, sr)) => InLeft(InLeft(up, s, Black, sk, sr), p, Red, pk, sl)
    case InRight(up, Fork(sl, s, _, sk, sr), p, _, pk) => InRight(InRight(up, sl, s, Black, sk), sr, p, Red, pk)
  }

  /** One round of rebalancing when the black subtree 'x' below 'c' lacks a black node. */
  function RemoveStep(c: Context, x: Tree): (r: Round)
    requires !c.Top? && LacksBlack(c, x) && !IsRed(x)
    ensures r.tree.Fork? && (r.Missing? ==> r.tree.node == c.node)
    ensures r.Done? ==> Fits(r.ctx, r.tree)
    ensures r.Missing? ==> LacksBlack(r.ctx, r.tree)
    ensures r.Missing? ==> IsRed(r.tree) || r.ctx == c.up
  {
    BlackSiblingStep(if IsRed(Sibling(c)) then LowerRedSibling(c) else c, x)
  }

  /** Rebalancing after a black node was cut out above 'x'. */
  function RemoveFixup(c: Context, x: Tree): (t: Tree)
    requires LacksBlack(c, x)
    ensures RedBlack(t) && !IsRed(t)
    decreases if IsRed(x) then 0 else 1 + Depth(c)
  {
    if IsRed(x) || c.Top? then
      assert Fits(c, Blacken(x)); PlugRedBlack(c, Blacken(x));
      Plug(c, Blacken(x))
    else
      var r := RemoveStep(c, x);
      if r.Missing? then RemoveFixup(r.ctx, r.tree)
      else PlugRedBlack(r.ctx, r.tree); Blacken(Plug(r.ctx, r.tree))
  }

  lemma RemoveFixupStep(c: Context, x: Tree)
    requires !c.Top? && LacksBlack(c, x) && !IsRed(x)
    ensures var r := RemoveStep(c, x);
      RemoveFixup(c, x) == if r.Missing? then RemoveFixup(r.ctx, r.tree) else Blacken(Plug(r.ctx, r.tree))
  {
  }

  /** Rebalancing of a tree that one node was cut out of. */
  function Mend(u: Cut): Tree
    requires u.lost == Black ==> LacksBlack(u.ctx, u.tree)
  {
    if u.lost == Red then Plug(u.ctx, Blacken(u.tree)) else RemoveFixup(u.ctx, u.tree)
  }

  /** The tree without the node at the root of 't'. */
  function RemoveAt(c: Context, t: Tree): (r: Tree)
    requires t.Fork? && Fits(c, t)
    ensures RedBlack(r) && !IsRed(r)
  {
    var u := Unlink(c, t);
    UnlinkRedBlack(c, t);
    if u.lost == Red then PlugRedBlack(u.ctx, u.tree); Mend(u) else Mend(u)
  }

  lemma {:induction false} BlackSiblingStepInOrder(c: Context, x: Tree)
    requires !c.Top? && LacksBlack(c, x) && !IsRed(x) && !IsRed(Sibling(c))
    ensures InOrder(BlackSiblingStep(c, x).tree) == InOrder(Fill(c, x))
  {
    var u, p := BlackSiblingStep(c, x).tree, Fill(c, x);
    var s := Sibling(c);
    if !IsRed(s.left) && !IsRed(s.right) {
    } else if c.InLeft? {
      if !IsRed(s.right) {
        var s' := s.left.(right := Fork(s.left.right, s.node, Black, s.key, s.right));
        RotateInOrder(s, s');
        RotateInOrder(u, p.(right := s'));
      } else {
        var s' := s.(right := Blacken(s.right));
        assert InOrder(s') == InOrder(s);
        RotateInOrder(u, p.(right := s'));
      }
    } else {
      if !IsRed(s.left) {
        var s' := s.right.(left := Fork(s.left, s.node, Black, s.key, s.right.left));
        RotateInOrder(s', s);
        RotateInOrder(p.(left := s'), u);
      } else {
        var s' := s.(left := Blacken(s.left));
        assert InOrder(s') == InOrder(s);
        RotateInOrder(p.(left := s'), u);
      }
    }
  }

  lemma {:induction false} RemoveStepInOrder(c: Context, x: Tree)
    requires !c.Top? && LacksBlack(c, x) && !IsRed(x)
    ensures var r := RemoveStep(c, x);
      Before(r.ctx) + InOrder(r.tree) + After(r.ctx) == Before(c) + InOrder(x) + After(c)
  {
    FillInOrder(c, x);
    if IsRed(Sibling(c)) {
      var d, p := LowerRedSibling(c), Fill(c, x);
      FillInOrder(d, x);
      FillInOrder(d.up, Fill(d, x));
      if c.InLeft? { RotateInOrder(Fill(d.up, Fill(d, x)), p); }
      else { RotateInOrder(p, Fill(d.up, Fill(d, x))); }
      BlackSiblingStepInOrder(d, x);
      FillInOrder(d, x);
    } else {
      BlackSiblingStepInOrder(c, x);
    }
  }

  /** Rebalancing after a removal moves no entry. */
  lemma {:induction false} RemoveFixupInOrder(c: Context, x: Tree)
    requires LacksBlack(c, x)
    ensures InOrder(RemoveFixup(c, x)) == Before(c) + InOrder(x) + After(c)
    decreases if IsRed(x) then 0 else 1 + Depth(c)
  {
    if IsRed(x) || c.Top? {
      PlugInOrder(c, Blacken(x));
    } else {
      var r := RemoveStep(c, x);
      RemoveStepInOrder(c, x);
      if r.Missing? { RemoveFixupInOrder(r.ctx, r.tree); } else { PlugInOrder(r.ctx, r.tree); }
    }
  }

  /** Removal takes exactly the given node out of the in-order sequence. */
  lemma {:induction false} RemoveAtInOrder(c: Context, t: Tree)
    requires t.Fork? && Fits(c, t)
    ensures InOrder(Plug(c, t)) == Before(c) + InOrder(t.left) + [Entry(t.node, t.key)] + (InOrder(t.right) + After(c))
    ensures InOrder(RemoveAt(c, t)) == Before(c) + InOrder(t.left) + (InOrder(t.right) + After(c))
  {
    PlugInOrder(c, t);
    var u, e := Unlink(c, t), Entry(t.node, t.key);
    UnlinkRedBlack(c, t);
    UnlinkInOrder(c, t);
    Regroup5(Before(c), InOrder(t.left), [e], InOrder(t.right), After(c));
    if u.lost == Red { PlugInOrder(u.ctx, u.tree); } else { RemoveFixupInOrder(u.ctx, u.tree); }
  }

  /** The node 'n' occurs in 't'. */
  predicate Holds(t: Tree, n: Node)
  {
    t.Fork? && (t.node == n || Holds(t.left, n) || Holds(t.right, n))
  }

  /** The context and the subtree of a given node. */
  function LocateContext(c: Context, t: Tree, n: Node): Context
    requires Holds(t, n)
    decreases t
  {
    if t.node == n then c
    else if Holds(t.left, n) then LocateContext(InLeft(c, t.node, t.color, t.key, t.right), t.left, n)
    else LocateContext(InRight(c, t.left, t.node, t.color, t.key), t.right, n)
  }

  function LocateTree(t: Tree, n: Node): (u: Tree)
    requires Holds(t, n)
    ensures u.Fork? && u.node == n
  {
    if t.node == n then t else LocateTree(if Holds(t.left, n) then t.left else t.right, n)
  }

  lemma {:induction false} LocatePlug(c: Context, t: Tree, n: Node)
    requires Holds(t, n)
    ensures Plug(LocateContext(c, t, n), LocateTree(t, n)) == Plug(c, t)
    decreases t
  {
    if t.node == n {
    } else if Holds(t.left, n) {
      LocatePlug(InLeft(c, t.node, t.color, t.key, t.right), t.left, n);
    } else {
      LocatePlug(InRight(c, t.left, t.node, t.color, t.key), t.right, n);
    }
  }

  /** Reference: the sequence without the entries of node 'n'. */
  function Without(es: seq<Entry>, n: Node): seq<Entry>
  {
    if es == [] then []
    else if es[0].node == n then Without(es[1..], n)
    else [es[0]] + Without(es[1..], n)
  }

  lemma {:induction false} WithoutAbsent(es: seq<Entry>, n: Node)
    requires forall e :: e in es ==> e.node != n
    ensures Without(es, n) == es
  {
    if es != [] {
      assert es[0] in es;
      WithoutAbsent(es[1..], n);
    }
  }

  lemma {:induction false} WithoutAppend(a: seq<Entry>, b: seq<Entry>, n: Node)
    ensures Without(a + b, n) == Without(a, n) + Without(b, n)
  {
    if a == [] {
      assert a + b == b;
    } else {
      assert (a + b)[1..] == a[1..] + b;
      WithoutAppend(a[1..], b, n);
    }
  }

  lemma {:induction false} WithoutMember(es: seq<Entry>, n: Node, e: Entry)
    ensures e in Without(es, n) <==> e in es && e.node != n
  {
    if es != [] {
      WithoutMember(es[1..], n, e);
      assert es == [es[0]] + es[1..];
    }
  }

  lemma {:induction false} WithoutSorted(es: seq<Entry>, n: Node)
    requires Sorted(es)
    ensures Sorted(Without(es, n))
  {
    if es != [] {
      SortedTail(es);
      WithoutSorted(es[1..], n);
      if es[0].node != n {
        var rest := Without(es[1..], n);
        forall x | x in rest ensures es[0].key <= x.key { WithoutMember(es[1..], n, x); }
        SortedCons(es[0], rest);
      }
    }
  }

  /** The tree without the node 'n'. */
  function Remove(t: Tree, n: Node): Tree
    requires RedBlack(t) && !IsRed(t) && Holds(t, n)
  {
    LocatePlug(Top, t, n);
    UnplugRedBlack(LocateContext(Top, t, n), LocateTree(t, n));
    RemoveAt(LocateContext(Top, t, n), LocateTree(t, n))
  }

  ghost predicate NodesDiffer(es: seq<Entry>)
  {
    forall i, j :: 0 <= i < j < |es| ==> es[i].node != es[j].node
  }

  /** Removal from a red-black tree: the rules hold, and exactly the entry of 'n' leaves the
      in-order sequence, which stays sorted if it was. */
  lemma {:induction false} RemoveCorrect(t: Tree, n: Node)
    requires RedBlack(t) && !IsRed(t) && Holds(t, n)
    requires NodesDiffer(InOrder(t))
    ensures RedBlack(Remove(t, n)) && !IsRed(Remove(t, n))
    ensures InOrder(Remove(t, n)) == Without(InOrder(t), n)
    ensures Sorted(InOrder(t)) ==> Sorted(InOrder(Remove(t, n)))
  {
    var c, u := LocateContext(Top, t, n), LocateTree(t, n);
    LocatePlug(Top, t, n);
    UnplugRedBlack(c, u);
    RemoveAtInOrder(c, u);
    var a, b, e := Before(c) + InOrder(u.left), InOrder(u.right) + After(c), Entry(n, u.key);
    assert InOrder(t) == a + [e] + b && InOrder(Remove(t, n)) == a + b;
    OthersDiffer(a, e, b);
    WithoutMiddle(a, e, b);
    if Sorted(InOrder(t)) { WithoutSorted(InOrder(t), n); }
  }

  lemma OthersDiffer(a: seq<Entry>, e: Entry, b: seq<Entry>)
    requires NodesDiffer(a + [e] + b)
    ensures forall x :: x in a || x in b ==> x.node != e.node
  {
    var es := a + [e] + b;
    assert es[|a|] == e;
    forall x | x in a ensures x.node != e.node {
      var i :| 0 <= i < |a| && a[i] == x;
      assert es[i] == x;
    }
    forall x | x in b ensures x.node != e.node {
      var i :| 0 <= i < |b| && b[i] == x;
      assert es[|a| + 1 + i] == x;
    }
  }

  lemma WithoutMiddle(a: seq<Entry>, e: Entry, b: seq<Entry>)
    requires forall x :: x in a || x in b ==> x.node != e.node
    ensures Without(a + [e] + b, e.node) == a + b
  {
    WithoutAbsent(a, e.node);
    WithoutAbsent(b, e.node);
    WithoutAppend(a + [e], b, e.node);
    WithoutAppend(a, [e], e.node);
  }

  /** The node after 'n' in in-order sequence, or 'none'. */
  function NextIn(es: seq<Entry>, n: Node, none: Node): Node
  {
    if es == [] then none
    else if es[0].node == n then First(es[1..], none)
    else NextIn(es[1..], n, none)
  }

  function First(es: seq<Entry>, none: Node): Node
  {
    if es == [] then none else es[0].node
  }

  lemma {:induction false} NextInMiddle(a: seq<Entry>, e: Entry, b: seq<Entry>, none: Node)
    requires forall x :: x in a ==> x.node != e.node
    ensures NextIn(a + [e] + b, e.node, none) == First(b, none)
  {
    var es := a + [e] + b;
    if a == [] {
      assert es[1..] == b;
    } else {
      assert a[0] in a;
      assert es[1..] == a[1..] + [e] + b;
      NextInMiddle(a[1..], e, b, none);
    }
  }

  lemma {:induction false} MinFirst(t: Tree, es: seq<Entry>, none: Node)
    requires t.Fork?
    ensures First(InOrder(t) + es, none) == MinTree(t).node
  {
    if t.left.Fork? {
      MinFirst(t.left, [Entry(t.node, t.key)] + InOrder(t.right) + es, none);
      assert InOrder(t) + es == InOrder(t.left) + ([Entry(t.node, t.key)] + InOrder(t.right) + es);
    }
  }

  function NodesOf(es: seq<Entry>): seq<Node>
  {
    seq(|es|, i requires 0 <= i < |es| => es[i].node)
  }

  lemma WithoutFirst(es: seq<Entry>)
    requires es != [] && NodesDiffer(es)
    ensures Without(es, es[0].node) == es[1..]
  {
    WithoutAbsent(es[1..], es[0].node);
  }

  lemma NodesOfTail(calls: seq<Node>, es: seq<Entry>)
    requires es != []
    ensures calls + NodesOf(es) == calls + [es[0].node] + NodesOf(es[1..])
  {
    assert NodesOf(es) == [es[0].node] + NodesOf(es[1..]);
  }

  // ----- Replacement of one node by another

  /** Reference: the entries of 'n' become entries of 'n2'. */
  function Renamed(es: seq<Entry>, n: Node, n2: Node): seq<Entry>
  {
    seq(|es|, i requires 0 <= i < |es| => if es[i].node == n then Entry(n2, es[i].key) else es[i])
  }

  /** The tree with node 'n2' in the place of 'n'. */
  function Replace(t: Tree, n: Node, n2: Node): Tree
    requires Holds(t, n)
  {
    var u := LocateTree(t, n);
    Plug(LocateContext(Top, t, n), Fork(u.left, n2, u.color, u.key, u.right))
  }

  lemma {:induction false} ReplaceCorrect(t: Tree, n: Node, n2: Node)
    requires RedBlack(t) && !IsRed(t) && Holds(t, n) && NodesDiffer(InOrder(t))
    ensures RedBlack(Replace(t, n, n2)) && !IsRed(Replace(t, n, n2))
    ensures InOrder(Replace(t, n, n2)) == Renamed(InOrder(t), n, n2)
  {
    var c, u := LocateContext(Top, t, n), LocateTree(t, n);
    var v := Fork(u.left, n2, u.color, u.key, u.right);
    LocatePlug(Top, t, n);
    UnplugRedBlack(c, u);
    PlugRedBlack(c, v);
    PlugInOrder(c, u);
    PlugInOrder(c, v);
    var a, e, e2, b := Before(c) + InOrder(u.left), Entry(n, u.key), Entry(n2, u.key), InOrder(u.right) + After(c);
    Regroup5(Before(c), InOrder(u.left), [e], InOrder(u.right), After(c));
    Regroup5(Before(c), InOrder(u.left), [e2], InOrder(u.right), After(c));
    assert InOrder(t) == a + [e] + b && InOrder(Plug(c, v)) == a + [e2] + b;
    OthersDiffer(a, e, b);
    RenamedMiddle(a, e, b, n2);
  }

  lemma RenamedMiddle(a: seq<Entry>, e: Entry, b: seq<Entry>, n2: Node)
    requires forall x :: x in a || x in b ==> x.node != e.node
    ensures Renamed(a + [e] + b, e.node, n2) == a + [Entry(n2, e.key)] + b
  {
    var es := a + [e] + b;
    forall i | 0 <= i < |es| ensures Renamed(es, e.node, n2)[i] == (a + [Entry(n2, e.key)] + b)[i] {
      if i < |a| { assert es[i] in a; } else if i > |a| { assert es[i] == b[i - |a| - 1]; }
    }
  }

  // ----- A key that is written while its node is in a tree

  /** The tree after 'key' was written to node 'n'. */
  function Rekey(t: Tree, n: Node, key: int): Tree
  {
    if t.Leaf? then Leaf
    else Fork(Rekey(t.left, n, key), t.node, t.color, if t.node == n then key else t.key, Rekey(t.right, n, key))
  }

  /** Reference: the entries of 'n' get the key 'key'. */
  function Rekeyed(es: seq<Entry>, n: Node, key: int): seq<Entry>
  {
    seq(|es|, i requires 0 <= i < |es| => if es[i].node == n then Entry(n, key) else es[i])
  }

  /** Only the order of the keys can suffer. */
  lemma {:induction false} RekeyCorrect(t: Tree, n: Node, key: int)
    ensures InOrder(Rekey(t, n, key)) == Rekeyed(InOrder(t), n, key)
    ensures RedBlack(Rekey(t, n, key)) == RedBlack(t) && IsRed(Rekey(t, n, key)) == IsRed(t)
    ensures BlackHeight(Rekey(t, n, key)) == BlackHeight(t)
  {
    if t.Fork? {
      RekeyCorrect(t.left, n, key);
      RekeyCorrect(t.right, n, key);
      var a, e, b := InOrder(t.left), Entry(t.node, t.key), InOrder(t.right);
      RekeyedJoin(a, e, b, n, key);
    }
  }

  lemma RekeyedJoin(a: seq<Entry>, e: Entry, b: seq<Entry>, n: Node, key: int)
    ensures Rekeyed(a + [e] + b, n, key)
         == Rekeyed(a, n, key) + [if e.node == n then Entry(n, key) else e] + Rekeyed(b, n, key)
  {
  }
}
