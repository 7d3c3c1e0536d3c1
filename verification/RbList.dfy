// The red-black tree whose nodes carry a ring of siblings with the same key
// (the ffrbtl functions of FF/ffrbtree.c, FF/rbtree.h and FF/chain.h).
module RbList {
  import opened Wrappers
  import opened TreeShape
  import RedBlackTree
  import opened RbTree

  ghost predicate StrictlySorted(es: seq<Entry>)
  {
    forall i, j :: 0 <= i < j < |es| ==> es[i].key < es[j].key
  }

  ghost predicate HasKey(es: seq<Entry>, key: int)
  {
    exists i :: 0 <= i < |es| && es[i].key == key
  }

  /** One tree node per key, and this node is the first of the items of its key. */
  ghost predicate Keyed(es: seq<Entry>, chains: map<int, seq<Node>>)
  {
    && StrictlySorted(es)
    && (forall i :: 0 <= i < |es| ==>
          es[i].key in chains && chains[es[i].key] != [] && chains[es[i].key][0] == es[i].node)
    && (forall k :: k in chains ==> HasKey(es, k))
  }

  /** 'home' gives the key of every item; no item occurs twice. */
  ghost predicate Homes(chains: map<int, seq<Node>>, home: map<Node, int>)
  {
    && (forall k, n :: k in chains && n in chains[k] ==> n in home && home[n] == k)
    && (forall n :: n in home ==> home[n] in chains && n in chains[home[n]])
    && (forall k :: k in chains ==> NoDuplicates(chains[k]))
  }

  function Up(i: nat, n: nat): nat
    requires i < n
  {
    if i + 1 == n then 0 else i + 1
  }

  function Down(i: nat, n: nat): nat
    requires i < n
  {
    if i == 0 then n - 1 else i - 1
  }

  /** The sibling links of a set of nodes. */
  type SibHeap = map<Node, RedBlackTree.Links>

  ghost function SibSnapshot(s: set<Node>): SibHeap
    reads s`next, s`prev
  {
    map n | n in s :: if n in s then RedBlackTree.Sib(n.next, n.prev) else RedBlackTree.Sib(null, null)
  }

  /** The items of 'c' form a circular doubly linked chain. */
  ghost predicate Ring(m: SibHeap, c: seq<Node>)
  {
    forall i {:trigger LinkedAt(m, c, i)} :: 0 <= i < |c| ==> LinkedAt(m, c, i)
  }

  ghost predicate LinkedAt(m: SibHeap, c: seq<Node>, i: nat)
    requires i < |c|
  {
    c[i] in m && m[c[i]] == RedBlackTree.Sib(c[Up(i, |c|)], c[Down(i, |c|)])
  }

  /** The links written by ffchain_append put 'k' behind the first item. */
  lemma RingAppend(m: SibHeap, m2: SibHeap, c: seq<Node>, k: Node)
    requires Ring(m, c) && NoDuplicates(c) && c != [] && k !in c
    requires LinkedAt(m, c, 0) && (|c| > 1 ==> LinkedAt(m, c, 1))
    requires k in m2 && m2[k] == RedBlackTree.Sib(c[Up(0, |c|)], c[0])
    requires c[0] in m2 && m2[c[0]] == RedBlackTree.Sib(k, if |c| == 1 then k else c[|c| - 1])
    requires |c| > 1 ==> c[1] in m2 && m2[c[1]] == RedBlackTree.Sib(c[Up(1, |c|)], k)
    requires forall n :: n in c && n != c[0] && n != c[Up(0, |c|)] ==> n in m2 && n in m && m2[n] == m[n]
    ensures Ring(m2, [c[0], k] + c[1..])
  {
    var n, d := |c|, [c[0], k] + c[1..];
    forall i | 0 <= i <= n ensures LinkedAt(m2, d, i) {
      if i == 0 {
        assert d[n] == if n == 1 then k else c[n - 1];
      } else if i == 1 {
      } else {
        var j := i - 1;
        assert d[i] == c[j] && d[Up(i, n + 1)] == c[Up(j, n)];
        assert LinkedAt(m, c, j);
        if j > 1 {
          assert d[i - 1] == c[j - 1];
          assert c[j] in c && c[j] != c[0] && c[j] != c[1];
        }
      }
    }
  }

  /** Positions around a ring of 'n', and around the ring without position 'i'. */
  lemma CutPositions(i: nat, l: nat, n: nat)
    requires i < n && l < n && l != i && n > 1
    ensures var (p, q, j) := (Down(i, n), Up(i, n), Shifted(l, i));
      && j < n - 1
      && (if l == p then q else Up(l, n)) != i && (if l == q then p else Down(l, n)) != i
      && Up(j, n - 1) == Shifted(if l == p then q else Up(l, n), i)
      && Down(j, n - 1) == Shifted(if l == q then p else Down(l, n), i)
  {
  }

  function Shifted(l: nat, i: nat): nat
  {
    if l <= i then l else l - 1
  }

  lemma CutItem(c: seq<Node>, i: nat, l: nat)
    requires i < |c| && l < |c| && l != i
    ensures Shifted(l, i) < |c| - 1 && (c[..i] + c[i + 1..])[Shifted(l, i)] == c[l]
  {
  }

  /** The links written by ffchain_unlink leave the ring without the item. */
  lemma RingUnlink(m: SibHeap, m2: SibHeap, c: seq<Node>, i: nat)
    requires Ring(m, c) && NoDuplicates(c) && i < |c| && |c| > 1
    requires LinkedAt(m, c, Down(i, |c|)) && LinkedAt(m, c, Up(i, |c|))
    requires var (p, q) := (Down(i, |c|), Up(i, |c|));
      && c[p] in m2 && m2[c[p]] == RedBlackTree.Sib(c[q], if p == q then c[p] else c[Down(p, |c|)])
      && c[q] in m2 && m2[c[q]] == RedBlackTree.Sib(if p == q then c[q] else c[Up(q, |c|)], c[p])
      && (forall x :: x in c && x != c[p] && x != c[q] && x != c[i] ==> x in m2 && x in m && m2[x] == m[x])
    ensures Ring(m2, c[..i] + c[i + 1..])
  {
    var n, d := |c|, c[..i] + c[i + 1..];
    var p, q := Down(i, n), Up(i, n);
    forall j | 0 <= j < n - 1 ensures LinkedAt(m2, d, j) {
      var l := if j < i then j else j + 1;
      assert Shifted(l, i) == j && LinkedAt(m, c, l);
      CutPositions(i, l, n);
      hide Up, Down, Shifted;
      var u, w := if l == p then q else Up(l, n), if l == q then p else Down(l, n);
      CutItem(c, i, l);
      CutItem(c, i, u);
      CutItem(c, i, w);
      assert d[Up(j, n - 1)] == c[u] && d[Down(j, n - 1)] == c[w];
      if l != p && l != q {
        assert c[l] in c && c[l] != c[p] && c[l] != c[q] && c[l] != c[i];
      }
    }
  }

  /** ffchain_append */
  method ChainAppend(item: Node, after: Node)
    requires after.next != null && after.next != item && after != item
    modifies item`next, item`prev, after`next, after.next`prev
    ensures item.next == old(after.next) && item.prev == after
    ensures after.next == item
    ensures old(after.next).prev == item
    ensures old(after.next) != after ==> after.prev == old(after.prev)
  {
    item.next := after.next;
    after.next.prev := item;
    after.next := item;
    item.prev := after;
  }

  /** ffchain_unlink */
  method ChainUnlink(item: Node)
    requires item.next != null && item.prev != null && item.next != item && item.prev != item
    requires item.prev.next == item && item.next.prev == item
    modifies item`next, item`prev, item.prev`next, item.next`prev
    ensures item.next == null && item.prev == null
    ensures old(item.prev).next == old(item.next) && old(item.next).prev == old(item.prev)
    ensures old(item.prev) != old(item.next) ==>
      old(item.prev).prev == old(item.prev.prev) && old(item.next).next == old(item.next.next)
  {
    item.prev.next := item.next;
    item.next.prev := item.prev;
    item.prev, item.next := null, null;
  }

  lemma {:induction false} KeyedInsert(es: seq<Entry>, chains: map<int, seq<Node>>, e: Entry)
    requires Keyed(es, chains) && e.key !in chains
    ensures Keyed(InsertSorted(es, e), chains[e.key := [e.node]])
  {
    var es2, m := InsertSorted(es, e), chains[e.key := [e.node]];
    assert forall i :: 0 <= i < |es| ==> es[i].key != e.key;
    InsertStrict(es, e);
    forall i | 0 <= i < |es2| ensures es2[i].key in m && m[es2[i].key] != [] && m[es2[i].key][0] == es2[i].node {
      InsertSortedMember(es, e, es2[i]);
    }
    forall k | k in m ensures HasKey(es2, k) {
      if k == e.key {
        InsertSortedMember(es, e, e);
      } else {
        var i :| 0 <= i < |es| && es[i].key == k;
        InsertSortedMember(es, e, es[i]);
      }
    }
  }

  lemma {:induction false} InsertStrict(es: seq<Entry>, e: Entry)
    requires StrictlySorted(es) && forall i :: 0 <= i < |es| ==> es[i].key != e.key
    ensures StrictlySorted(InsertSorted(es, e))
  {
    if es != [] && es[0].key <= e.key {
      assert es[0].key < e.key;
      InsertStrict(es[1..], e);
      var rest := InsertSorted(es[1..], e);
      forall j | 0 <= j < |rest| ensures es[0].key < rest[j].key {
        InsertSortedMember(es[1..], e, rest[j]);
      }
    }
  }

  lemma {:induction false} WithoutStrict(es: seq<Entry>, n: Node)
    requires StrictlySorted(es)
    ensures StrictlySorted(Without(es, n))
  {
    if es != [] {
      WithoutStrict(es[1..], n);
      var rest := Without(es[1..], n);
      forall j | 0 <= j < |rest| ensures es[0].key < rest[j].key {
        WithoutMember(es[1..], n, rest[j]);
      }
    }
  }

  lemma KeyedRemove(es: seq<Entry>, chains: map<int, seq<Node>>, e: Entry)
    requires Keyed(es, chains) && e in es
    requires forall x :: x in es && x.node == e.node ==> x == e
    ensures Keyed(Without(es, e.node), chains - {e.key})
  {
    var es2, m := Without(es, e.node), chains - {e.key};
    WithoutStrict(es, e.node);
    forall i | 0 <= i < |es2| ensures es2[i].key in m && m[es2[i].key] != [] && m[es2[i].key][0] == es2[i].node {
      WithoutMember(es, e.node, es2[i]);
      var j :| 0 <= j < |es| && es[j] == es2[i];
      var l :| 0 <= l < |es| && es[l] == e;
      assert es[j].key != es[l].key;
    }
    forall k | k in m ensures HasKey(es2, k) {
      var i :| 0 <= i < |es| && es[i].key == k;
      assert es[i] in es;
      WithoutMember(es, e.node, es[i]);
    }
  }

  lemma KeyedRename(es: seq<Entry>, chains: map<int, seq<Node>>, e: Entry, c: seq<Node>)
    requires Keyed(es, chains) && e in es && c != []
    requires forall x :: x in es && x.node == e.node ==> x == e
    ensures Keyed(Renamed(es, e.node, c[0]), chains[e.key := c])
  {
    var es2, m := Renamed(es, e.node, c[0]), chains[e.key := c];
    var l :| 0 <= l < |es| && es[l] == e;
    assert forall i :: 0 <= i < |es| ==> es2[i].key == es[i].key;
    forall i | 0 <= i < |es2| ensures es2[i].key in m && m[es2[i].key] != [] && m[es2[i].key][0] == es2[i].node {
      assert es[i] in es;
      assert i != l ==> es[i].key != e.key;
    }
    forall k | k in m ensures HasKey(es2, k) {
      var i :| 0 <= i < |es| && es[i].key == k;
      assert es2[i].key == k;
    }
  }

  lemma KeyedGrow(es: seq<Entry>, chains: map<int, seq<Node>>, key: int, c: seq<Node>)
    requires Keyed(es, chains) && key in chains && c != [] && c[0] == chains[key][0]
    ensures Keyed(es, chains[key := c])
  {
  }

  /** The tree's entries, the sibling links and the abstract contents agree. */
  ghost predicate Consistent(es: seq<Entry>, m: SibHeap, chains: map<int, seq<Node>>, home: map<Node, int>)
  {
    && Keyed(es, chains)
    && Homes(chains, home)
    && (forall k :: k in chains ==> Ring(m, chains[k]))
  }

  lemma RingKept(m: SibHeap, m2: SibHeap, c: seq<Node>)
    requires Ring(m, c)
    requires forall n :: n in c && n in m ==> n in m2 && m2[n] == m[n]
    ensures Ring(m2, c)
  {
    forall i | 0 <= i < |c| ensures LinkedAt(m2, c, i) {
      assert LinkedAt(m, c, i) && c[i] in c;
    }
  }

  lemma RingHead(m: SibHeap, c: seq<Node>)
    requires Ring(m, c) && c != []
    ensures c[0] in c && c[Up(0, |c|)] in c
    ensures LinkedAt(m, c, 0) && (|c| > 1 ==> LinkedAt(m, c, 1))
  {
    assert LinkedAt(m, c, 0);
  }

  lemma HomesAdd(chains: map<int, seq<Node>>, home: map<Node, int>, key: int, c: seq<Node>, k: Node)
    requires Homes(chains, home) && k !in home && NoDuplicates(c)
    requires forall n :: n in c <==> n == k || (key in chains && n in chains[key])
    ensures Homes(chains[key := c], home[k := key])
  {
  }

  lemma HomesDrop(chains: map<int, seq<Node>>, home: map<Node, int>, key: int, c: seq<Node>, k: Node)
    requires Homes(chains, home) && k in home && home[k] == key && NoDuplicates(c)
    requires forall n :: n in c <==> n != k && n in chains[key]
    ensures Homes(if c == [] then chains - {key} else chains[key := c], home - {k})
  {
    var chains2 := if c == [] then chains - {key} else chains[key := c];
    forall n | n in home - {k} ensures home[n] in chains2 && n in chains2[home[n]] {
      if home[n] == key { assert n in c; }
    }
  }

  lemma AddNew(es: seq<Entry>, m: SibHeap, m2: SibHeap, chains: map<int, seq<Node>>, home: map<Node, int>, k: Node, key: int)
    requires Consistent(es, m, chains, home) && key !in chains && k !in home
    requires k in m2 && m2[k] == RedBlackTree.Sib(k, k)
    requires forall n :: n in home && n in m ==> n in m2 && m2[n] == m[n]
    ensures Consistent(InsertSorted(es, Entry(k, key)), m2, chains[key := [k]], home[k := key])
  {
    KeyedInsert(es, chains, Entry(k, key));
    HomesAdd(chains, home, key, [k], k);
    forall x | x in chains ensures Ring(m2, chains[x]) { RingKept(m, m2, chains[x]); }
    assert LinkedAt(m2, [k], 0);
  }

  lemma AddSibling(es: seq<Entry>, m: SibHeap, m2: SibHeap, chains: map<int, seq<Node>>, home: map<Node, int>, k: Node, key: int)
    requires Consistent(es, m, chains, home) && key in chains && k !in home && chains[key] != []
    requires var c := chains[key];
      && k in m2 && m2[k] == RedBlackTree.Sib(c[Up(0, |c|)], c[0])
      && c[0] in m2 && m2[c[0]] == RedBlackTree.Sib(k, if |c| == 1 then k else c[|c| - 1])
      && (|c| > 1 ==> c[1] in m2 && m2[c[1]] == RedBlackTree.Sib(c[Up(1, |c|)], k))
      && (forall n :: n in home && n in m && n != c[0] && n != c[Up(0, |c|)] ==> n in m2 && m2[n] == m[n])
    ensures Consistent(es, m2, chains[key := [chains[key][0], k] + chains[key][1..]], home[k := key])
  {
    var c := chains[key];
    var d := [c[0], k] + c[1..];
    assert c[0] in c && c[Up(0, |c|)] in c;
    assert LinkedAt(m, c, 0) && (|c| > 1 ==> LinkedAt(m, c, 1));
    forall n | n in c ensures n in m && n in home {
      var i :| 0 <= i < |c| && c[i] == n;
      assert LinkedAt(m, c, i);
    }
    RingAppend(m, m2, c, k);
    KeyedGrow(es, chains, key, d);
    HomesAdd(chains, home, key, d, k);
    forall x | x in chains && x != key ensures Ring(m2, chains[x]) { RingKept(m, m2, chains[x]); }
  }

  /** The tree nodes are the first items of the chains. */
  lemma Heads(t: Tree, m: SibHeap, chains: map<int, seq<Node>>, home: map<Node, int>, n: Node)
    requires Consistent(InOrder(t), m, chains, home)
    ensures n in RedBlackTree.Nodes(t) <==> n in home && chains[home[n]] != [] && chains[home[n]][0] == n
  {
    var es := InOrder(t);
    NodesInOrder(t, n);
    if n in RedBlackTree.Nodes(t) {
      var e :| e in es && e.node == n;
      HeadOfEntry(es, m, chains, home, e);
    }
    if n in home && chains[home[n]] != [] && chains[home[n]][0] == n {
      assert home[n] in chains && HasKey(es, home[n]);
      var i :| 0 <= i < |es| && es[i].key == home[n];
      assert es[i] in es;
    }
  }

  lemma HeadOfEntry(es: seq<Entry>, m: SibHeap, chains: map<int, seq<Node>>, home: map<Node, int>, e: Entry)
    requires Consistent(es, m, chains, home) && e in es
    ensures e.key in chains && chains[e.key] != [] && chains[e.key][0] == e.node
    ensures e.node in home && home[e.node] == e.key
  {
    var i :| 0 <= i < |es| && es[i] == e;
    assert chains[e.key][0] in chains[e.key];
  }

  lemma ChainOf(es: seq<Entry>, m: SibHeap, chains: map<int, seq<Node>>, home: map<Node, int>, key: int)
    requires Consistent(es, m, chains, home) && key in chains
    ensures Ring(m, chains[key]) && NoDuplicates(chains[key]) && chains[key] != []
    ensures forall n :: n in chains[key] ==> n in home
  {
    assert HasKey(es, key);
    var i :| 0 <= i < |es| && es[i].key == key;
  }

  lemma EntryOfKey(es: seq<Entry>, m: SibHeap, chains: map<int, seq<Node>>, home: map<Node, int>, key: int)
    requires Consistent(es, m, chains, home) && key in chains
    ensures chains[key] != [] && Entry(chains[key][0], key) in es
    ensures forall x :: x in es && x.node == chains[key][0] ==> x.key == key
  {
    assert HasKey(es, key);
    var i :| 0 <= i < |es| && es[i].key == key;
    assert es[i] in es;
    forall x | x in es && x.node == chains[key][0] ensures x.key == key {
      HeadOfEntry(es, m, chains, home, x);
      HeadOfEntry(es, m, chains, home, es[i]);
    }
  }

  lemma InOrderSorted(es: seq<Entry>, m: SibHeap, chains: map<int, seq<Node>>, home: map<Node, int>)
    requires Consistent(es, m, chains, home)
    ensures StrictlySorted(es) && Sorted(es)
  {
  }

  /** The key of the entry of 'n' lies strictly between the keys before and after it. */
  ghost predicate Between(es: seq<Entry>, n: Node)
  {
    forall i :: 0 <= i < |es| && es[i].node == n ==>
      (i > 0 ==> es[i - 1].key < es[i].key) && (i + 1 < |es| ==> es[i].key < es[i + 1].key)
  }

  /** One key written into a sequence in order leaves it in order if and only if it lies
      strictly between its neighbours. */
  lemma BetweenKeeps(es: seq<Entry>, n: Node, was: int)
    requires NodesDiffer(es) && StrictlySorted(Rekeyed(es, n, was))
    ensures StrictlySorted(es) <==> Between(es, n)
  {
    var es0 := Rekeyed(es, n, was);
    forall i, j | 0 <= i < j < |es| && Between(es, n) ensures es[i].key < es[j].key {
      assert es0[i].key < es0[j].key;
      if es[i].node == n {
        assert i + 1 < j ==> es0[i + 1].key < es0[j].key;
      } else if es[j].node == n {
        assert i < j - 1 ==> es0[i].key < es0[j - 1].key;
      }
    }
  }

  lemma RenamedOrder(es: seq<Entry>, n: Node, n2: Node)
    ensures StrictlySorted(Renamed(es, n, n2)) <==> StrictlySorted(es)
  {
    var es2 := Renamed(es, n, n2);
    assert forall i :: 0 <= i < |es| ==> es2[i].key == es[i].key;
  }

  lemma RekeyedAbsent(es: seq<Entry>, n: Node, key: int)
    requires forall e :: e in es && e.node == n ==> e.key == key
    ensures Rekeyed(es, n, key) == es
  {
    forall i | 0 <= i < |es| ensures Rekeyed(es, n, key)[i] == es[i] { assert es[i] in es; }
  }

  lemma RekeyedRenamed(es: seq<Entry>, n: Node, n2: Node, key: int)
    requires forall e :: e in es ==> e.node != n2
    ensures Renamed(Rekeyed(es, n, key), n, n2) == Rekeyed(Renamed(es, n, n2), n2, key)
  {
    forall i | 0 <= i < |es| ensures es[i].node != n2 { assert es[i] in es; }
  }

  lemma {:induction false} RekeyedWithout(es: seq<Entry>, n: Node, key: int)
    ensures Without(Rekeyed(es, n, key), n) == Without(es, n)
  {
    if es != [] {
      RekeyedWithout(es[1..], n, key);
      assert Rekeyed(es, n, key)[1..] == Rekeyed(es[1..], n, key);
    }
  }

  lemma PastNext(es: seq<Entry>, chains: map<int, seq<Node>>, k: Node, was: int, after: int, key: int)
    requires Keyed(es, chains) && NodesDiffer(es) && was in chains && chains[was] != [] && chains[was][0] == k
    requires after in chains && was < after <= key
    ensures !Between(Rekeyed(es, k, key), k)
  {
    assert HasKey(es, was) && HasKey(es, after);
    var i :| 0 <= i < |es| && es[i].key == was;
    var j :| 0 <= j < |es| && es[j].key == after;
    assert i < j && es[i].node == k;
    var es2 := Rekeyed(es, k, key);
    assert es2[i] == Entry(k, key) && es2[i + 1] == es[i + 1];
    assert i + 1 < j ==> es[i + 1].key < es[j].key;
  }

  lemma RenamedBetween(es: seq<Entry>, n: Node, n2: Node)
    requires Between(es, n) && forall e :: e in es ==> e.node != n2
    ensures Between(Renamed(es, n, n2), n2)
  {
    var es2 := Renamed(es, n, n2);
    forall i | 0 <= i < |es| ensures es2[i].key == es[i].key && (es2[i].node == n2 ==> es[i].node == n) {
      assert es[i] in es;
    }
  }

  /** Reference: the items of one key are filed under another. */
  function Refiled(chains: map<int, seq<Node>>, was: int, key: int): map<int, seq<Node>>
  {
    if was in chains then (chains - {was})[key := chains[was]] else chains
  }

  function Rehomed(home: map<Node, int>, was: int, key: int): map<Node, int>
  {
    map n | n in home :: if n !in home then 0 else if home[n] == was then key else home[n]
  }

  lemma RehomedKeys(home: map<Node, int>, was: int, key: int)
    ensures Rehomed(home, was, key).Keys == home.Keys
  {
  }

  /** The entries before the removal of 'k', whose place and new key go to 'next'. */
  ghost predicate PassedOn(before: seq<Entry>, k: Node, next: Node, key: int, was: int)
  {
    && NodesDiffer(before) && StrictlySorted(Rekeyed(before, k, was))
    && (forall e :: e in before && e.node == k ==> e.key == key)
    && (forall e :: e in before ==> e.node != next)
    && (exists e :: e in before && e.node == k)
  }

  /** What the tree is when 'next' has got the place and the new key of 'k'. */
  lemma PassedOrder(before: seq<Entry>, now: seq<Entry>, m: SibHeap, chains: map<int, seq<Node>>, home: map<Node, int>, k: Node, next: Node, key: int)
    requires next in home && Consistent(Rekeyed(now, next, home[next]), m, chains, home)
    requires now == Renamed(before, k, next) && PassedOn(before, k, next, key, home[next])
    ensures StrictlySorted(now) <==> Between(before, k)
    ensures Between(before, k) ==>
      Consistent(now, m, Refiled(chains, home[next], key), Rehomed(home, home[next], key))
  {
    BetweenKeeps(before, k, home[next]);
    RenamedOrder(before, k, next);
    if Between(before, k) {
      RenamedBetween(before, k, next);
      RenamedNodes(before, k, next);
      RefiledConsistent(now, Rekeyed(now, next, home[next]), m, chains, home, next, key);
    }
  }

  lemma RenamedNodes(es: seq<Entry>, n: Node, n2: Node)
    requires NodesDiffer(es) && forall e :: e in es ==> e.node != n2
    ensures NodesDiffer(Renamed(es, n, n2))
    ensures forall e :: e in Renamed(es, n, n2) && e.node == n2 ==> Entry(n, e.key) in es
    ensures forall e :: e in es && e.node == n ==> Entry(n2, e.key) in Renamed(es, n, n2)
  {
    var es2 := Renamed(es, n, n2);
    forall i | 0 <= i < |es| ensures es[i].node != n2 { assert es[i] in es; }
    forall e | e in es2 && e.node == n2 ensures Entry(n, e.key) in es {
      var i :| 0 <= i < |es2| && es2[i] == e;
      assert es[i] == Entry(n, e.key);
    }
    forall e | e in es && e.node == n ensures Entry(n2, e.key) in es2 {
      var i :| 0 <= i < |es| && es[i] == e;
      assert es2[i] == Entry(n2, e.key);
    }
  }

  lemma RefiledConsistent(es: seq<Entry>, es0: seq<Entry>, m: SibHeap, chains: map<int, seq<Node>>, home: map<Node, int>, n: Node, key: int)
    requires n in home && Consistent(es0, m, chains, home) && es0 == Rekeyed(es, n, home[n])
    requires NodesDiffer(es) && Between(es, n)
    requires exists e :: e in es && e.node == n
    requires forall e :: e in es && e.node == n ==> e.key == key
    ensures Consistent(es, m, Refiled(chains, home[n], key), Rehomed(home, home[n], key))
  {
    var was := home[n];
    BetweenKeeps(es, n, was);
    var e :| e in es && e.node == n;
    var p :| 0 <= p < |es| && es[p] == e;
    assert es0[p] == Entry(n, was) && es[p].key == key;
    forall i | 0 <= i < |es| && i != p ensures es[i] == es0[i] && es[i].key != key && es[i].key != was {
      assert es0[i].key != es0[p].key && es[i].key != es[p].key;
    }
    RefiledKeyed(es, es0, chains, p, was, key);
    RefiledHomes(chains, home, was, key);
  }

  lemma RefiledKeyed(es: seq<Entry>, es0: seq<Entry>, chains: map<int, seq<Node>>, p: nat, was: int, key: int)
    requires Keyed(es0, chains) && p < |es0| && |es| == |es0| && StrictlySorted(es)
    requires es0[p] == Entry(es[p].node, was) && es[p].key == key
    requires forall i :: 0 <= i < |es| && i != p ==> es[i] == es0[i] && es[i].key != key && es[i].key != was
    ensures Keyed(es, Refiled(chains, was, key))
    ensures key != was ==> key !in chains
  {
    var c2 := Refiled(chains, was, key);
    forall x | x in chains && x == key ensures key == was {
      assert HasKey(es0, key);
    }
    forall x | x in c2 ensures HasKey(es, x) {
      if x == key {
        assert es[p].key == key;
      } else {
        assert HasKey(es0, x);
        var i :| 0 <= i < |es0| && es0[i].key == x;
        assert es[i].key == x;
      }
    }
  }

  lemma RefiledHomes(chains: map<int, seq<Node>>, home: map<Node, int>, was: int, key: int)
    requires Homes(chains, home) && was in chains && (key != was ==> key !in chains)
    ensures Homes(Refiled(chains, was, key), Rehomed(home, was, key))
  {
  }

  /** A further entry puts nothing in order. */
  lemma StaysUnordered(a: seq<Entry>, e: Entry, b: seq<Entry>)
    ensures StrictlySorted(a + [e] + b) ==> StrictlySorted(a + b)
  {
    var es, es2 := a + b, a + [e] + b;
    forall i | 0 <= i < |es| ensures es[i] == es2[if i < |a| then i else i + 1] {}
  }

  lemma NewKey(es: seq<Entry>, m: SibHeap, chains: map<int, seq<Node>>, home: map<Node, int>, key: int)
    requires Consistent(es, m, chains, home) && forall e :: e in es ==> e.key != key
    ensures key !in chains
  {
    forall i | 0 <= i < |es| ensures es[i].key != key { assert es[i] in es; }
  }

  /** Reference: the items without 'k'. */
  function Minus(c: seq<Node>, k: Node): seq<Node>
  {
    if c == [] then [] else if c[0] == k then c[1..] else [c[0]] + Minus(c[1..], k)
  }

  lemma {:induction false} MinusAt(c: seq<Node>, k: Node, i: nat)
    requires NoDuplicates(c) && i < |c| && c[i] == k
    ensures Minus(c, k) == c[..i] + c[i + 1..]
    ensures NoDuplicates(Minus(c, k))
    ensures forall n :: n in Minus(c, k) <==> n != k && n in c
  {
    if i > 0 {
      assert c[0] != k;
      MinusAt(c[1..], k, i - 1);
      assert c[1..][..i - 1] == c[1..i] && c[1..][i..] == c[i + 1..];
      assert [c[0]] + c[1..i] == c[..i];
    }
    MinusMembers(c, k, i);
  }

  lemma MinusMembers(c: seq<Node>, k: Node, i: nat)
    requires NoDuplicates(c) && i < |c| && c[i] == k
    ensures NoDuplicates(c[..i] + c[i + 1..])
    ensures forall n :: n in c[..i] + c[i + 1..] <==> n != k && n in c
  {
    var d := c[..i] + c[i + 1..];
    forall n | n in c && n != k ensures n in d {
      var j :| 0 <= j < |c| && c[j] == n;
      assert n == d[if j < i then j else j - 1];
    }
    forall n | n in d ensures n in c && n != k {
      var j :| 0 <= j < |d| && d[j] == n;
      assert n == c[if j < i then j else j + 1];
    }
  }

  /** Reference: the contents without item 'k'. */
  function Dropped(chains: map<int, seq<Node>>, key: int, k: Node): map<int, seq<Node>>
    requires key in chains
  {
    var d := Minus(chains[key], k);
    if d == [] then chains - {key} else chains[key := d]
  }

  /** Reference: the contents with 'k' put behind the first item of its key. */
  function Joined(chains: map<int, seq<Node>>, key: int, k: Node): map<int, seq<Node>>
  {
    chains[key := if key in chains && chains[key] != [] then [chains[key][0], k] + chains[key][1..] else [k]]
  }

  /** What ffchain_unlink leaves in the links of the items around position 'i'. */
  ghost predicate Unchained(m: SibHeap, m2: SibHeap, c: seq<Node>, i: nat, items: set<Node>)
    requires i < |c|
  {
    var (p, q) := (Down(i, |c|), Up(i, |c|));
    && c[p] in m2 && m2[c[p]] == RedBlackTree.Sib(c[q], if p == q then c[p] else c[Down(p, |c|)])
    && c[q] in m2 && m2[c[q]] == RedBlackTree.Sib(if p == q then c[q] else c[Up(q, |c|)], c[p])
    && (forall n :: n in items && n in m && n != c[p] && n != c[q] && n != c[i] ==> n in m2 && m2[n] == m[n])
  }

  lemma DropChained(es: seq<Entry>, es2: seq<Entry>, m: SibHeap, m2: SibHeap, chains: map<int, seq<Node>>, home: map<Node, int>, k: Node, i: nat)
    requires Consistent(es, m, chains, home) && k in home && home[k] in chains
    requires var c := chains[home[k]]; i < |c| && |c| > 1 && c[i] == k && Unchained(m, m2, c, i, home.Keys)
    requires Keyed(es2, chains[home[k] := Minus(chains[home[k]], k)])
    ensures Consistent(es2, m2, Dropped(chains, home[k], k), home - {k})
  {
    var key := home[k];
    var c := chains[key];
    ChainOf(es, m, chains, home, key);
    MinusAt(c, k, i);
    assert LinkedAt(m, c, Down(i, |c|)) && LinkedAt(m, c, Up(i, |c|));
    forall n | n in c ensures n in m && n in home {
      var j :| 0 <= j < |c| && c[j] == n;
      assert LinkedAt(m, c, j);
    }
    RingUnlink(m, m2, c, i);
    HomesDrop(chains, home, key, Minus(c, k), k);
    assert c[Down(i, |c|)] in c && c[Up(i, |c|)] in c;
    forall x | x in chains && x != key ensures Ring(m2, chains[x]) { RingKept(m, m2, chains[x]); }
  }

  /** The item is the last one of its key. */
  lemma DropAlone(es: seq<Entry>, m: SibHeap, m2: SibHeap, chains: map<int, seq<Node>>, home: map<Node, int>, k: Node)
    requires Consistent(es, m, chains, home) && k in home && home[k] in chains && chains[home[k]] == [k]
    requires forall n :: n in home && n in m && n != k ==> n in m2 && m2[n] == m[n]
    ensures Consistent(Without(es, k), m2, Dropped(chains, home[k], k), home - {k})
  {
    var key := home[k];
    EntryOfKey(es, m, chains, home, key);
    KeyedRemove(es, chains, Entry(k, key));
    assert Minus([k], k) == [];
    HomesDrop(chains, home, key, [], k);
    forall x | x in chains && x != key ensures Ring(m2, chains[x]) { RingKept(m, m2, chains[x]); }
  }

  /** The item is a list item. */
  lemma DropItem(es: seq<Entry>, m: SibHeap, m2: SibHeap, chains: map<int, seq<Node>>, home: map<Node, int>, k: Node, i: nat)
    requires Consistent(es, m, chains, home) && k in home && home[k] in chains
    requires var c := chains[home[k]]; 0 < i < |c| && c[i] == k && Unchained(m, m2, c, i, home.Keys)
    ensures Consistent(es, m2, Dropped(chains, home[k], k), home - {k})
  {
    var key := home[k];
    ChainOf(es, m, chains, home, key);
    MinusAt(chains[key], k, i);
    KeyedGrow(es, chains, key, Minus(chains[key], k));
    DropChained(es, es, m, m2, chains, home, k, i);
  }

  /** The item is a tree node with siblings: the next one takes its place. */
  lemma DropHead(es: seq<Entry>, m: SibHeap, m2: SibHeap, chains: map<int, seq<Node>>, home: map<Node, int>, k: Node)
    requires Consistent(es, m, chains, home) && k in home && home[k] in chains
    requires var c := chains[home[k]]; |c| > 1 && c[0] == k && Unchained(m, m2, c, 0, home.Keys)
    ensures Consistent(Renamed(es, k, chains[home[k]][1]), m2, Dropped(chains, home[k], k), home - {k})
  {
    var key := home[k];
    var c := chains[key];
    ChainOf(es, m, chains, home, key);
    MinusAt(c, k, 0);
    EntryOfKey(es, m, chains, home, key);
    KeyedRename(es, chains, Entry(k, key), c[1..]);
    DropChained(es, Renamed(es, k, c[1]), m, m2, chains, home, k, 0);
  }

  lemma DropOne(es: seq<Entry>, es2: seq<Entry>, m: SibHeap, m2: SibHeap, chains: map<int, seq<Node>>, home: map<Node, int>, k: Node, c: seq<Node>, i: nat)
    requires Consistent(es, m, chains, home) && k in home && home[k] in chains && c == chains[home[k]]
    requires i < |c| && |c| > 1 && c[i] == k && Unchained(m, m2, c, i, home.Keys)
    requires es2 == if i == 0 then Renamed(es, k, c[1]) else es
    ensures Consistent(es2, m2, Dropped(chains, home[k], k), home - {k})
  {
    if i == 0 { DropHead(es, m, m2, chains, home, k); } else { DropItem(es, m, m2, chains, home, k, i); }
  }

  /** ffchain_unlink of item 'i' of 'c'. */
  method UnlinkAt(k: Node, ghost items: set<Node>, ghost c: seq<Node>, ghost i: nat)
    requires i < |c| && |c| > 1 && AtPlace(SibSnapshot(items), items, c, i) && c[i] == k
    modifies items`next, items`prev
    ensures Unchained(old(SibSnapshot(items)), SibSnapshot(items - {k}), c, i, items)
  {
    ChainUnlink(k);
  }

  /** The order in which ffrbtl_freeall visits the items: per key, first the list items. */
  function FreeOrder(es: seq<Entry>, chains: map<int, seq<Node>>): seq<Node>
  {
    if es == [] then []
    else (if es[0].key in chains && chains[es[0].key] != [] then chains[es[0].key][1..] else [])
         + [es[0].node] + FreeOrder(es[1..], chains)
  }

  /** The number of items of the given entries. */
  function Total(es: seq<Entry>, chains: map<int, seq<Node>>): nat
  {
    if es == [] then 0
    else (if es[0].key in chains then |chains[es[0].key]| else 0) + Total(es[1..], chains)
  }

  lemma {:induction false} SetSize(c: seq<Node>)
    requires NoDuplicates(c)
    ensures |set n | n in c| == |c|
  {
    if c != [] {
      SetSize(c[1..]);
      var rest := set n | n in c[1..];
      assert (set n | n in c) == {c[0]} + rest;
    }
  }

  /** The items whose key is in 'keys'. */
  function ItemsOf(home: map<Node, int>, keys: set<int>): set<Node>
  {
    set n | n in home && home[n] in keys
  }

  function KeysOf(es: seq<Entry>): set<int>
  {
    if es == [] then {} else {es[0].key} + KeysOf(es[1..])
  }

  lemma {:induction false} KeysOfHas(es: seq<Entry>, key: int)
    ensures key in KeysOf(es) <==> HasKey(es, key)
  {
    if es != [] {
      KeysOfHas(es[1..], key);
      if HasKey(es[1..], key) {
        var i :| 0 <= i < |es[1..]| && es[1..][i].key == key;
        assert es[i + 1].key == key;
      }
    }
  }

  lemma ItemsSplit(home: map<Node, int>, key: int, keys: set<int>)
    requires key !in keys
    ensures |ItemsOf(home, {key} + keys)| == |ItemsOf(home, {key})| + |ItemsOf(home, keys)|
  {
    assert ItemsOf(home, {key} + keys) == ItemsOf(home, {key}) + ItemsOf(home, keys);
  }

  lemma ItemsOfKey(chains: map<int, seq<Node>>, home: map<Node, int>, key: int)
    requires Homes(chains, home) && key in chains
    ensures |ItemsOf(home, {key})| == |chains[key]|
  {
    SetSize(chains[key]);
    assert ItemsOf(home, {key}) == set n | n in chains[key];
  }

  lemma {:induction false} ItemsCounted(es: seq<Entry>, chains: map<int, seq<Node>>, home: map<Node, int>)
    requires StrictlySorted(es) && Homes(chains, home) && KeysOf(es) <= chains.Keys
    ensures |ItemsOf(home, KeysOf(es))| == Total(es, chains)
  {
    if es == [] {
      assert ItemsOf(home, {}) == {};
    } else {
      KeysOfHas(es[1..], es[0].key);
      assert es[0].key in KeysOf(es);
      hide Homes;
      ItemsCounted(es[1..], chains, home);
      ItemsOfKey(chains, home, es[0].key);
      ItemsSplit(home, es[0].key, KeysOf(es[1..]));
    }
  }

  /** The visit reaches exactly the items whose key is in the tree, each one once, by ascending key. */
  ghost predicate VisitsOnce(calls: seq<Node>, home: map<Node, int>, keys: set<int>)
  {
    && NoDuplicates(calls)
    && (forall n :: n in calls ==> n in home && home[n] in keys)
    && (forall n :: n in home && home[n] in keys ==> n in calls)
    && (forall i, j :: 0 <= i < j < |calls| ==> calls[i] in home && calls[j] in home && home[calls[i]] <= home[calls[j]])
  }

  lemma {:induction false} FreeOrderOnce(es: seq<Entry>, chains: map<int, seq<Node>>, home: map<Node, int>)
    requires StrictlySorted(es) && Homes(chains, home)
    requires forall e :: e in es ==> e.key in chains && chains[e.key] != [] && chains[e.key][0] == e.node
    ensures VisitsOnce(FreeOrder(es, chains), home, KeysOf(es))
  {
    if es != [] {
      var key, c := es[0].key, chains[es[0].key];
      FreeOrderOnce(es[1..], chains, home);
      KeysAbove(es);
      assert es[0] in es;
      OneKeyOnce(c, chains, home, key);
      JoinOnce(c[1..] + [c[0]], FreeOrder(es[1..], chains), home, key, KeysOf(es[1..]));
    }
  }

  lemma {:induction false} KeysAbove(es: seq<Entry>)
    requires StrictlySorted(es) && es != []
    ensures forall k :: k in KeysOf(es[1..]) ==> es[0].key < k
  {
    forall k | k in KeysOf(es[1..]) ensures es[0].key < k { KeysOfHas(es[1..], k); }
  }

  lemma OneKeyOnce(c: seq<Node>, chains: map<int, seq<Node>>, home: map<Node, int>, key: int)
    requires Homes(chains, home) && key in chains && c == chains[key] && c != []
    ensures VisitsOnce(c[1..] + [c[0]], home, {key})
  {
    var d := c[1..] + [c[0]];
    assert c == [c[0]] + c[1..];
    forall n ensures n in d <==> n in c { assert n in d <==> n in c[1..] || n == c[0]; }
  }

  lemma JoinOnce(a: seq<Node>, b: seq<Node>, home: map<Node, int>, key: int, keys: set<int>)
    requires VisitsOnce(a, home, {key}) && VisitsOnce(b, home, keys) && forall k :: k in keys ==> key < k
    ensures VisitsOnce(a + b, home, {key} + keys)
  {
    var d := a + b;
    forall i, j | 0 <= i < j < |d|
      ensures d[i] != d[j] && d[i] in home && d[j] in home && home[d[i]] <= home[d[j]]
    {
      assert if i < |a| then d[i] in a else d[i] in b;
      assert if j < |a| then d[j] in a else d[j] in b;
    }
  }

  /** Every item is visited exactly once, by ascending key. */
  ghost predicate EachOnce(calls: seq<Node>, home: map<Node, int>)
  {
    && NoDuplicates(calls)
    && (forall n :: n in calls ==> n in home) && (forall n :: n in home ==> n in calls)
    && (forall i, j :: 0 <= i < j < |calls| ==> home[calls[i]] <= home[calls[j]])
  }

  lemma FreeOrderAll(es: seq<Entry>, chains: map<int, seq<Node>>, home: map<Node, int>)
    requires Keyed(es, chains) && Homes(chains, home)
    ensures EachOnce(FreeOrder(es, chains), home)
  {
    KeyedKeys(es, chains);
    FreeOrderOnce(es, chains, home);
  }

  /** The rings of the entries are as the contents say. */
  ghost predicate Visitable(es: seq<Entry>, m: SibHeap, chains: map<int, seq<Node>>, home: map<Node, int>)
  {
    forall i :: 0 <= i < |es| ==>
      && es[i].key in chains && chains[es[i].key] != [] && chains[es[i].key][0] == es[i].node
      && Ring(m, chains[es[i].key]) && NoDuplicates(chains[es[i].key])
      && forall n :: n in chains[es[i].key] ==> n in home
  }

  lemma VisitAll(es: seq<Entry>, m: SibHeap, chains: map<int, seq<Node>>, home: map<Node, int>)
    requires Consistent(es, m, chains, home)
    ensures Visitable(es, m, chains, home)
  {
    forall i | 0 <= i < |es|
      ensures es[i].key in chains && chains[es[i].key] != [] && chains[es[i].key][0] == es[i].node
      ensures Ring(m, chains[es[i].key]) && NoDuplicates(chains[es[i].key])
      ensures forall n :: n in chains[es[i].key] ==> n in home
    {
      HeadOfEntry(es, m, chains, home, es[i]);
      ChainOf(es, m, chains, home, es[i].key);
    }
  }

  /** One step of the visit. */
  lemma FreeStep(es: seq<Entry>, m: SibHeap, chains: map<int, seq<Node>>, home: map<Node, int>)
    requires es != [] && Visitable(es, m, chains, home)
    ensures es[0].key in chains && chains[es[0].key] != [] && chains[es[0].key][0] == es[0].node
    ensures Ring(m, chains[es[0].key]) && NoDuplicates(chains[es[0].key])
    ensures forall n :: n in chains[es[0].key] ==> n in home
    ensures Visitable(es[1..], m, chains, home)
    ensures var c := chains[es[0].key];
      && FreeOrder(es, chains) == c[1..] + [c[0]] + FreeOrder(es[1..], chains)
      && Total(es, chains) == |c| + Total(es[1..], chains)
  {
  }

  lemma KeyedKeys(es: seq<Entry>, chains: map<int, seq<Node>>)
    requires Keyed(es, chains)
    ensures KeysOf(es) == chains.Keys && StrictlySorted(es)
  {
    forall key ensures key in KeysOf(es) <==> key in chains { KeysOfHas(es, key); }
  }

  /** The items of the entries are all the items. */
  lemma TotalHome(es: seq<Entry>, chains: map<int, seq<Node>>, home: map<Node, int>)
    requires Keyed(es, chains) && Homes(chains, home)
    ensures Total(es, chains) == |home|
  {
    KeyedKeys(es, chains);
    ItemsCounted(es, chains, home);
    assert ItemsOf(home, KeysOf(es)) == home.Keys;
  }

  /** No items at all are consistent. */
  lemma EmptyConsistent()
    ensures Consistent([], map[], map[], map[])
  {
  }

  class RbListTree {
    const tree: RbTree
    ghost var chains: map<int, seq<Node>>
    ghost var home: map<Node, int>

    ghost predicate Valid()
      reads this, tree`root, tree`shape, tree`nodes, tree`len, tree.sentl`color
      reads tree.nodes`left, tree.nodes`right, tree.nodes`parent, tree.nodes`color, tree.nodes`key
      reads home.Keys`parent, home.Keys`next, home.Keys`prev
    {
      && Consistent(InOrder(tree.shape), SibSnapshot(home.Keys), chains, home)
      && TreePart(home.Keys)
    }

    /** What is left of Valid when the caller has written the key of item 'k', which is filed
        under home[k]: everything agrees once its entry is read with that key. */
    ghost predicate ValidBut(k: Node)
      reads this, tree`root, tree`shape, tree`nodes, tree`len, tree.sentl`color
      reads tree.nodes`left, tree.nodes`right, tree.nodes`parent, tree.nodes`color, tree.nodes`key
      reads home.Keys`parent, home.Keys`next, home.Keys`prev
    {
      && k in home
      && Consistent(InOrder(Rekey(tree.shape, k, home[k])), SibSnapshot(home.Keys), chains, home)
      && TreePart(home.Keys)
    }

    /** ffrbt_init */
    constructor ()
      ensures Valid() && chains == map[] && home == map[] && fresh(tree) && fresh(tree.sentl)
    {
      var t := new RbTree();
      EmptyConsistent();
      tree := t;
      chains, home := map[], map[];
    }

    /** All but the abstract contents: the tree, its length, and NULL parents of list items. */
    ghost predicate TreePart(items: set<Node>)
      reads tree`root, tree`shape, tree`nodes, tree`len, tree.sentl`color
      reads tree.nodes`left, tree.nodes`right, tree.nodes`parent, tree.nodes`color, tree.nodes`key
      reads items`parent
    {
      && tree.WellFormed()
      && tree.sentl !in items && tree.nodes <= items
      && (forall n :: n in items && n !in tree.nodes ==> n.parent == null)
      && tree.len == |items|
    }

    /** ffrbtl_insert3 on the links. */
    method InsertNewLinks(k: Node, ancestor: Node, ghost items: set<Node>)
      requires TreePart(items) && k !in items && k !in tree.nodes && k != tree.sentl
      requires ancestor == tree.sentl || OnPath(tree.shape, k.key, ancestor)
      modifies tree`len, tree`root, tree`shape, tree`nodes
      modifies tree.nodes`left, tree.nodes`right, tree.nodes`parent, tree.nodes`color, k
      ensures TreePart(items + {k})
      ensures old(Sorted(InOrder(tree.shape))) ==>
        InOrder(tree.shape) == InsertSorted(old(InOrder(tree.shape)), Entry(k, k.key))
      ensures !StrictlySorted(old(InOrder(tree.shape))) ==> !StrictlySorted(InOrder(tree.shape))
      ensures SibSnapshot(items + {k}) == old(SibSnapshot(items))[k := RedBlackTree.Sib(k, k)]
      ensures k.key == old(k.key)
    {
      hide tree.WellFormed, InOrder, InsertSorted, InsertAt, Descend, OnPath, Size, RedBlackTree.Nodes, Sorted, StrictlySorted, Before, After;
      assert |items + {k}| == |items| + 1;
      ghost var d := Descend(Top, tree.shape, k.key);
      tree.Insert(k, ancestor);
      StaysUnordered(Before(d), Entry(k, k.key), After(d));
      k.next, k.prev := k, k;
    }

    /** What ffrbtl_insert needs in order to run, whatever the order of the keys. */
    ghost predicate Joinable()
      reads this, tree`root, tree`shape, tree`nodes, tree`len, tree.sentl`color
      reads tree.nodes`left, tree.nodes`right, tree.nodes`parent, tree.nodes`color, tree.nodes`key
      reads home.Keys`parent, home.Keys`next
    {
      && TreePart(home.Keys)
      && forall n :: n in tree.nodes && n in home ==> n.next != null && n.next in home
    }

    /** ffrbtl_insert3: the first item of a key. */
    method InsertNew(k: Node, ancestor: Node)
      requires Joinable() && k !in home && k !in tree.nodes && k != tree.sentl
      requires Valid() ==> forall e :: e in InOrder(tree.shape) ==> e.key != k.key
      requires ancestor == tree.sentl || OnPath(tree.shape, k.key, ancestor)
      modifies this`chains, this`home, tree`len, tree`root, tree`shape, tree`nodes
      modifies tree.nodes`left, tree.nodes`right, tree.nodes`parent, tree.nodes`color, k
      ensures TreePart(home.Keys) && k.key == old(k.key)
      ensures old(Valid()) ==> Valid() && k.key !in old(chains) && chains == Joined(old(chains), k.key, k)
      ensures !StrictlySorted(old(InOrder(tree.shape))) ==> !StrictlySorted(InOrder(tree.shape))
      ensures home == old(home)[k := k.key] && chains == old(chains)[k.key := [k]]
    {
      hide Consistent, TreePart, Sorted, StrictlySorted;
      ghost var es, m, s, valid := InOrder(tree.shape), SibSnapshot(home.Keys), home.Keys + {k}, Valid();
      if valid {
        NewKey(es, m, chains, home, k.key);
        InOrderSorted(es, m, chains, home);
      }
      InsertNewLinks(k, ancestor, home.Keys);
      if valid { AddNew(es, m, SibSnapshot(s), chains, home, k, k.key); }
      chains, home := chains[k.key := [k]], home[k := k.key];
      assert home.Keys == s;
    }

    /** A further item of the key of 'found', put behind it in the ring. */
    method InsertSibling(k: Node, found: Node)
      requires Joinable() && k !in home && k != tree.sentl && k.parent == null
      requires Entry(found, k.key) in InOrder(tree.shape) && found in tree.nodes
      modifies this`chains, this`home, tree`len, k`next, k`prev, home.Keys`next, home.Keys`prev
      ensures TreePart(home.Keys)
      ensures old(Valid()) ==> Valid() && k.key in old(chains) && chains == Joined(old(chains), k.key, k)
      ensures home == old(home)[k := k.key]
    {
      hide Consistent, TreePart;
      ghost var es, m, s, valid := InOrder(tree.shape), SibSnapshot(home.Keys), home.Keys + {k}, Valid();
      NodesAreItems();
      if valid {
        HeadOfEntry(es, m, chains, home, Entry(found, k.key));
        ChainOf(es, m, chains, home, k.key);
        RingHead(m, chains[k.key]);
        assert |chains[k.key]| > 1 ==> chains[k.key][1] in chains[k.key] && chains[k.key][1] != found;
      }
      AppendLinks(k, found, home.Keys);
      if valid { AddSibling(es, m, SibSnapshot(s), chains, home, k, k.key); }
      chains, home := Joined(chains, k.key, k), home[k := k.key];
      assert home.Keys == s;
    }

    lemma NodesAreItems()
      requires TreePart(home.Keys)
      ensures tree.nodes <= home.Keys && tree.sentl !in home
    {
    }

    method AppendLinks(k: Node, found: Node, ghost items: set<Node>)
      requires TreePart(items) && k !in items && k != tree.sentl && k.parent == null
      requires found in items && found.next != null && found.next in items
      modifies tree`len, k`next, k`prev, items`next, items`prev
      ensures TreePart(items + {k})
      ensures k.next == old(found.next) && k.prev == found && found.next == k && old(found.next).prev == k
      ensures old(found.next) != found ==> found.prev == old(found.prev) && old(found.next).next == old(found.next.next)
      ensures forall n :: n in items && n != found && n != old(found.next) ==> n.next == old(n.next) && n.prev == old(n.prev)
    {
      hide tree.WellFormed;
      ChainAppend(k, found);
      tree.len := tree.len + 1;
    }

    lemma ValidJoinable()
      requires Valid()
      ensures Joinable()
    {
      forall n | n in tree.nodes && n in home ensures n.next != null && n.next in home {
        Heads(tree.shape, SibSnapshot(home.Keys), chains, home, n);
        ChainOf(InOrder(tree.shape), SibSnapshot(home.Keys), chains, home, home[n]);
        RingHead(SibSnapshot(home.Keys), chains[home[n]]);
      }
    }

    lemma TreeNode(e: Entry)
      requires TreePart(home.Keys) && e in InOrder(tree.shape)
      ensures e.node in tree.nodes
    {
      NodesInOrder(tree.shape, e.node);
    }

    /** ffrbtl_insert.  In a tree whose keys are out of order it does not repair the order. */
    method Insert(k: Node)
      requires Valid() || Joinable()
      requires k !in home && k != tree.sentl
      requires Search(tree.shape, k.key).Fork? ==> k.parent == null
      modifies this`chains, this`home, tree`len, tree`root, tree`shape, tree`nodes, home.Keys, k
      ensures tree.WellFormed() && k.key == old(k.key) && home == old(home)[k := k.key]
      ensures old(Valid()) ==> Valid() && chains == Joined(old(chains), k.key, k)
      ensures !StrictlySorted(old(InOrder(tree.shape))) ==> !StrictlySorted(InOrder(tree.shape))
    {
      hide *;
      InsertReady();
      var found, n, _ := tree.Find(k.key);
      Placed(k.key, n);
      if found == null {
        InsertNew(k, n);
      } else {
        TreeNode(Entry(found, k.key));
        InsertSibling(k, found);
      }
      PartFormed();
    }

    lemma InsertReady()
      requires Valid() || Joinable()
      ensures Joinable() && TreePart(home.Keys) && tree.WellFormed()
      ensures tree.nodes <= home.Keys && tree.sentl !in home
      ensures Valid() ==> Sorted(InOrder(tree.shape))
    {
      if Valid() {
        ValidJoinable();
        InOrderSorted(InOrder(tree.shape), SibSnapshot(home.Keys), chains, home);
      }
    }

    lemma PartFormed()
      ensures TreePart(home.Keys) ==> tree.WellFormed()
    {
    }

    lemma Placed(key: int, leaf: Node)
      requires if tree.shape.Leaf? then leaf == tree.sentl else OnPath(tree.shape, key, leaf)
      ensures leaf == tree.sentl || OnPath(tree.shape, key, leaf)
    {
    }

    /** The last item of its key leaves the tree. */
    method RmAlone(k: Node, ghost items: set<Node>)
      requires TreePart(items) && k in items && k in tree.nodes
      modifies tree`len, tree`root, tree`shape, tree`nodes, tree.sentl`parent, tree.sentl`color
      modifies tree.nodes`left, tree.nodes`right, tree.nodes`parent, tree.nodes`color, k`key
      ensures TreePart(items - {k})
      ensures InOrder(tree.shape) == Without(old(InOrder(tree.shape)), k)
      ensures k.parent == null && k.key == 0
    {
      hide tree.WellFormed;
      assert |items - {k}| == |items| - 1;
      tree.Rm(k);
    }

    /** An item that is only in the ring leaves it. */
    method RmItem(k: Node, ghost items: set<Node>)
      requires TreePart(items) && k in items && k !in tree.nodes
      modifies tree`len
      ensures TreePart(items - {k})
    {
      assert |items - {k}| == |items| - 1;
      tree.len := tree.len - 1;
    }

    /** A tree node with siblings gives its place to the next one. */
    method RmHead(k: Node, next: Node, ghost items: set<Node>)
      requires TreePart(items) && k in items && k in tree.nodes && next in items && next !in tree.nodes
      modifies tree`len, tree`root, tree`shape, tree`nodes
      modifies next`left, next`right, next`parent, next`color, next`key
      modifies tree.nodes`left, tree.nodes`right, tree.nodes`parent
      ensures TreePart(items - {k})
      ensures InOrder(tree.shape) == Renamed(old(InOrder(tree.shape)), k, next)
      ensures k.parent == null && k.key == old(k.key)
    {
      hide tree.WellFormed;
      assert |items - {k}| == |items| - 1;
      tree.Promote(k, next);
      tree.len := tree.len - 1;
    }

    lemma NullParent(k: Node, items: set<Node>)
      requires TreePart(items) && k in items
      ensures k.parent == null <==> k !in tree.nodes
      ensures tree.nodes <= items
    {
      if k in tree.nodes { tree.TreeParent(k); }
    }

    /** ffrbtl_rm, for the only item of its key. */
    method RmLast(k: Node)
      requires ValidBut(k) && home[k] in chains && chains[home[k]] == [k] && k in tree.nodes
      modifies this`chains, this`home, tree`len, tree`root, tree`shape, tree`nodes, tree.sentl`parent, tree.sentl`color
      modifies tree.nodes`left, tree.nodes`right, tree.nodes`parent, tree.nodes`color, k`key
      ensures Valid()
      ensures home == old(home) - {k} && chains == Dropped(old(chains), old(home)[k], k)
      ensures k.parent == null && k.key == 0
    {
      hide Consistent, TreePart, tree.WellFormed;
      ghost var es, m, s := InOrder(Rekey(tree.shape, k, home[k])), SibSnapshot(home.Keys), home.Keys - {k};
      RekeyCorrect(tree.shape, k, home[k]);
      RekeyedWithout(InOrder(tree.shape), k, home[k]);
      RmAlone(k, home.Keys);
      DropAlone(es, m, SibSnapshot(s), chains, home, k);
      chains, home := Dropped(chains, home[k], k), home - {k};
      assert home.Keys == s;
    }

    /** ffrbtl_rm, for an item that has siblings: the links. */
    method RmChainedLinks(k: Node, ghost items: set<Node>, ghost c: seq<Node>, ghost i: nat)
      requires TreePart(items) && i < |c| && |c| > 1 && AtPlace(SibSnapshot(items), items, c, i) && c[i] == k
      requires (k in tree.nodes <==> i == 0) && (i == 0 ==> c[1] !in tree.nodes)
      modifies tree`len, tree`root, tree`shape, tree`nodes, items
      ensures TreePart(items - {k})
      ensures InOrder(tree.shape) == if i == 0 then Renamed(old(InOrder(tree.shape)), k, c[1]) else old(InOrder(tree.shape))
      ensures Unchained(old(SibSnapshot(items)), SibSnapshot(items - {k}), c, i, items)
      ensures k.parent == null && k.key == old(k.key)
    {
      hide TreePart, InOrder, Renamed, Unchained;
      NullParent(k, items);
      var next: Node := k.next;
      UnlinkAt(k, items, c, i);
      if k.parent == null {
        RmItem(k, items);
      } else {
        RmHead(k, next, items);
      }
    }

    lemma PlaceOf(k: Node) returns (c: seq<Node>, i: nat)
      requires ValidBut(k)
      ensures home[k] in chains && c == chains[home[k]] && i < |c| && c[i] == k
      ensures AtPlace(SibSnapshot(home.Keys), home.Keys, c, i)
      ensures (k in tree.nodes <==> i == 0) && (i == 0 <==> c[0] == k)
      ensures i == 0 && |c| > 1 ==> c[1] !in tree.nodes && c[1] != k && c[1] in home && home[c[1]] == home[k]
      ensures |c| == 1 <==> c == [k]
      ensures k.next == k <==> c == [k]
    {
      var t := Rekey(tree.shape, k, home[k]);
      RedBlackTree.RekeyNodes(tree.shape, k, home[k]);
      c, i := Place(t, SibSnapshot(home.Keys), chains, home, k);
      assert |c| > 1 ==> c[1] in c;
      ChainOf(InOrder(t), SibSnapshot(home.Keys), chains, home, home[k]);
    }

    /** The key that the caller writes need not be a new one. */
    lemma ValidIsValidBut(k: Node)
      requires Valid() && k in home
      ensures ValidBut(k)
    {
      var es := InOrder(tree.shape);
      forall e | e in es && e.node == k ensures e.key == home[k] {
        HeadOfEntry(es, SibSnapshot(home.Keys), chains, home, e);
      }
      RekeyCorrect(tree.shape, k, home[k]);
      RekeyedAbsent(es, k, home[k]);
    }

    lemma ValidSame(k: Node)
      requires Valid() && k in home
      ensures Rekeyed(InOrder(tree.shape), k, home[k]) == InOrder(tree.shape)
    {
      ValidIsValidBut(k);
      RekeyCorrect(tree.shape, k, home[k]);
      forall e | e in InOrder(tree.shape) && e.node == k ensures e.key == home[k] {
        HeadOfEntry(InOrder(tree.shape), SibSnapshot(home.Keys), chains, home, e);
      }
      RekeyedAbsent(InOrder(tree.shape), k, home[k]);
    }

    /** An entry shows the key that its node has. */
    lemma OwnKey(k: Node)
      requires tree.WellFormed()
      ensures forall e :: e in InOrder(tree.shape) && e.node == k ==> e.key == k.key
    {
      RedBlackTree.OwnKeys(RedBlackTree.Snapshot(tree.nodes), tree.shape, tree.sentl, tree.sentl, k);
    }

    /** The contents as they would be with the key that 'k' is filed under. */
    lemma Unwritten(k: Node) returns (es: seq<Entry>)
      requires ValidBut(k)
      ensures es == Rekeyed(InOrder(tree.shape), k, home[k])
      ensures Consistent(es, SibSnapshot(home.Keys), chains, home)
      ensures NodesDiffer(InOrder(tree.shape)) && forall e :: e in InOrder(tree.shape) ==> e.node in tree.nodes
    {
      es := InOrder(Rekey(tree.shape, k, home[k]));
      RekeyCorrect(tree.shape, k, home[k]);
      DistinctInOrder(tree.shape);
      forall e | e in InOrder(tree.shape) ensures e.node in tree.nodes { TreeNode(e); }
    }

    /** ffrbtl_rm, for an item that has siblings. */
    method RmChained(k: Node)
      requires ValidBut(k) && home[k] in chains && |chains[home[k]]| > 1
      modifies this`chains, this`home, tree`len, tree`root, tree`shape, tree`nodes
      modifies home.Keys
      ensures home == old(home) - {k} && chains == Dropped(old(chains), old(home)[k], k)
      ensures k.parent == null && k.key == old(k.key)
      ensures var c := old(chains)[old(home)[k]];
        if c[0] == k then
          ValidBut(c[1]) && InOrder(tree.shape) == Renamed(old(InOrder(tree.shape)), k, c[1])
        else Valid()
      ensures old(Valid()) ==> Valid()
    {
      hide Consistent, TreePart, InOrder, Renamed, Minus, Dropped, RedBlackTree.Nodes, Unchained, NodesDiffer;
      ghost var valid := Valid();
      if valid { ValidSame(k); }
      ghost var m, s, was := SibSnapshot(home.Keys), home.Keys - {k}, home[k];
      ghost var now := InOrder(tree.shape);
      ghost var es := Unwritten(k);
      ghost var c, i := PlaceOf(k);
      RmChainedLinks(k, home.Keys, c, i);
      ghost var es2 := if i == 0 then Renamed(es, k, c[1]) else es;
      DropOne(es, es2, m, SibSnapshot(s), chains, home, k, c, i);
      chains, home := Dropped(chains, home[k], k), home - {k};
      assert home.Keys == s;
      if i == 0 {
        RekeyedRenamed(now, k, c[1], was);
        RekeyCorrect(tree.shape, c[1], was);
      } else {
        RekeyedAbsent(now, k, was);
      }
    }

    /** ffrbtl_rm.  If the caller has written the key of a tree node that has siblings, the next
        one takes over the new key, at the old place. */
    method Rm(k: Node)
      requires k in home && (Valid() || ValidBut(k))
      modifies this`chains, this`home, tree`len, tree`root, tree`shape, tree`nodes, tree.sentl`parent, tree.sentl`color
      modifies home.Keys
      ensures home == old(home) - {k}
      ensures chains == Dropped(old(chains), old(home)[k], k)
      ensures k.parent == null
      ensures k.key == if old(chains)[old(home)[k]] == [k] then 0 else old(k.key)
      ensures var c := old(chains)[old(home)[k]];
        if c[0] == k && |c| > 1 then
          ValidBut(c[1]) && InOrder(tree.shape) == Renamed(old(InOrder(tree.shape)), k, c[1])
        else Valid()
      ensures old(Valid()) ==> Valid()
    {
      NodesAreItems();
      ghost var valid := Valid();
      if valid { ValidIsValidBut(k); }
      hide Consistent, TreePart;
      ghost var c, i := PlaceOf(k);
      if k.next == k {
        RmLast(k);
      } else {
        RmChained(k);
      }
    }
    /** What a caller of ffrbtl_move does first. */
    method WriteKey(k: Node, key: int)
      requires Valid() && k in home
      modifies k`key, tree`shape
      ensures ValidBut(k) && k.key == key && home == old(home) && chains == old(chains)
      ensures InOrder(tree.shape) == Rekeyed(old(InOrder(tree.shape)), k, key)
    {
      hide Consistent, tree.WellFormed, RedBlackTree.Nodes;
      ghost var es, t := InOrder(tree.shape), tree.shape;
      ValidSame(k);
      NodesAreItems();
      tree.WriteKey(k, key);
      RekeyCorrect(tree.shape, k, home[k]);
      assert Rekeyed(Rekeyed(es, k, key), k, home[k]) == Rekeyed(es, k, home[k]);
      assert SibSnapshot(home.Keys) == old(SibSnapshot(home.Keys));
    }

    /** Without the order the rest still holds. */
    lemma ButJoinable(n: Node)
      requires ValidBut(n)
      ensures Joinable()
    {
      var t := Rekey(tree.shape, n, home[n]);
      RedBlackTree.RekeyNodes(tree.shape, n, home[n]);
      forall x | x in tree.nodes && x in home ensures x.next != null && x.next in home {
        Heads(t, SibSnapshot(home.Keys), chains, home, x);
        ChainOf(InOrder(t), SibSnapshot(home.Keys), chains, home, home[x]);
        RingHead(SibSnapshot(home.Keys), chains[home[x]]);
      }
    }

    /** The links do not depend on what the items are filed under. */
    lemma ValidAs(m: SibHeap, es: seq<Entry>)
      requires TreePart(home.Keys) && es == InOrder(tree.shape) && m == SibSnapshot(home.Keys)
      requires Consistent(es, m, chains, home)
      ensures Valid() && Joinable()
    {
      ValidJoinable();
    }

    lemma PassedState(k: Node, next: Node, before: seq<Entry>, key: int)
      requires ValidBut(next) && InOrder(tree.shape) == Renamed(before, k, next)
      requires PassedOn(before, k, next, key, home[next])
      ensures Joinable() && TreePart(home.Keys)
      ensures StrictlySorted(InOrder(tree.shape)) <==> Between(before, k)
      ensures Between(before, k) ==>
        Consistent(InOrder(tree.shape), SibSnapshot(home.Keys), Refiled(chains, home[next], key), Rehomed(home, home[next], key))
    {
      var es := Unwritten(next);
      PassedOrder(before, InOrder(tree.shape), SibSnapshot(home.Keys), chains, home, k, next, key);
      ButJoinable(next);
    }

    ghost method Refile(was: int, key: int)
      requires TreePart(home.Keys)
      requires Consistent(InOrder(tree.shape), SibSnapshot(home.Keys), Refiled(chains, was, key), Rehomed(home, was, key))
      modifies this`chains, this`home
      ensures Valid() && Joinable() && home.Keys == old(home.Keys)
      ensures chains == Refiled(old(chains), was, key) && home == Rehomed(old(home), was, key)
    {
      hide *;
      var m := SibSnapshot(home.Keys);
      RehomedKeys(home, was, key);
      chains, home := Refiled(chains, was, key), Rehomed(home, was, key);
      ValidAs(m, InOrder(tree.shape));
    }

    /** Between the removal and the insertion of ffrbtl_move, when 'next' took the place of 'k':
        if the tree is in order, all items filed under the old key are filed under the new one. */
    ghost method Settle(k: Node, next: Node, before: seq<Entry>, key: int)
      requires next in home && ValidBut(next) && InOrder(tree.shape) == Renamed(before, k, next)
      requires PassedOn(before, k, next, key, home[next])
      modifies this`chains, this`home
      ensures Joinable() && home.Keys == old(home.Keys)
      ensures StrictlySorted(InOrder(tree.shape)) <==> Between(before, k)
      ensures Between(before, k) ==> Valid()
      ensures Between(before, k) ==> chains == Refiled(old(chains), old(home)[next], key)
      ensures Between(before, k) ==> home == Rehomed(old(home), old(home)[next], key)
    {
      hide *;
      PassedState(k, next, before, key);
      if Between(before, k) {
        Refile(home[next], key);
      }
    }

    /** ffrbtl_move, after the caller has written the key of 'k'.
        A list item moves to its new key.
        The only item of its key loses the new key, because tree_rm clears it, and is filed under 0.
        A tree node with siblings hands the new key to the next one, at the old place: the tree is
        in order afterwards if and only if the new key lies strictly between the neighbouring keys,
        and then all the siblings have changed their key too. */
    method Move(k: Node)
      requires ValidBut(k)
      modifies this`chains, this`home, tree`len, tree`root, tree`shape, tree`nodes, tree.sentl`parent, tree.sentl`color
      modifies home.Keys
      ensures tree.WellFormed()
      ensures var c := old(chains)[old(home)[k]];
        c[0] != k ==>
          && Valid() && k.key == old(k.key)
          && home == (old(home) - {k})[k := k.key]
          && chains == Joined(Dropped(old(chains), old(home)[k], k), k.key, k)
      ensures var c := old(chains)[old(home)[k]];
        c == [k] ==>
          && Valid() && k.key == 0
          && home == (old(home) - {k})[k := 0]
          && chains == Joined(Dropped(old(chains), old(home)[k], k), 0, k)
      ensures var c := old(chains)[old(home)[k]];
        c[0] == k && |c| > 1 ==>
          && k.key == old(k.key)
          && (StrictlySorted(InOrder(tree.shape)) <==> Between(old(InOrder(tree.shape)), k))
          && (Between(old(InOrder(tree.shape)), k) ==>
                && Valid()
                && home == Rehomed(old(home) - {k}, old(home)[k], k.key)[k := k.key]
                && chains == Joined(Refiled(Dropped(old(chains), old(home)[k], k), old(home)[k], k.key), k.key, k))
    {
      hide *;
      ghost var before, key, was, c := MovePlan(k);
      Rm(k);
      if c[0] == k && |c| > 1 {
        ghost var next := c[1];
        Settle(k, next, before, key);
      }
      Insert(k);
      ValidSorted();
    }

    lemma ValidSorted()
      ensures Valid() ==> StrictlySorted(InOrder(tree.shape))
    {
    }

    /** A head whose new key is not below that of a later tree node. */
    lemma KeyPastNext(k: Node, after: int, key: int)
      requires Valid() && k in home && chains[home[k]][0] == k
      requires after in chains && home[k] < after <= key
      ensures !Between(Rekeyed(InOrder(tree.shape), k, key), k)
    {
      DistinctInOrder(tree.shape);
      PastNext(InOrder(tree.shape), chains, k, home[k], after, key);
    }

    lemma MovePlan(k: Node) returns (before: seq<Entry>, key: int, was: int, c: seq<Node>)
      requires ValidBut(k)
      ensures k in home && before == InOrder(tree.shape) && key == k.key && was == home[k]
      ensures was in chains && c == chains[was] && c != [] && k != tree.sentl
      ensures |c| == 1 <==> c == [k]
      ensures |c| == 1 ==> c[0] == k
      ensures c[0] == k && |c| > 1 ==> c[1] in home - {k} && (home - {k})[c[1]] == was && PassedOn(before, k, c[1], key, was)
    {
      NodesAreItems();
      before, key, was := InOrder(tree.shape), k.key, home[k];
      var i;
      c, i := PlaceOf(k);
      var es := Unwritten(k);
      OwnKey(k);
      if c[0] == k { NodesInOrder(tree.shape, k); }
    }

    /** The inner loop of ffrbtl_freeall: the siblings of 'n'. */
    method FreeSiblings(n: Node, ghost c: seq<Node>) returns (calls: seq<Node>)
      requires c != [] && c[0] == n && NoDuplicates(c)
      requires forall x :: x in c ==> x in home
      requires Ring(SibSnapshot(home.Keys), c)
      requires tree.len >= |c|
      modifies tree`len
      ensures tree.len == old(tree.len) - (|c| - 1)
      ensures calls == c[1..]
    {
      calls := [];
      assert LinkedAt(SibSnapshot(home.Keys), c, 0);
      var li: Node := n.next;
      ghost var i := 1;
      while li != n
        invariant 1 <= i <= |c| && li == (if i == |c| then n else c[i])
        invariant calls == c[1..i]
        invariant tree.len == old(tree.len) - (i - 1)
        decreases |c| - i
      {
        var n2 := li;
        assert LinkedAt(SibSnapshot(home.Keys), c, i);
        li := li.next;
        tree.len := tree.len - 1;
        calls := calls + [n2];
        i := i + 1;
      }
    }

    /** What is left to free. */
    ghost predicate Remaining(m: SibHeap, rest: seq<Entry>)
      reads this, tree`root, tree`shape, tree`nodes, tree`len, tree.sentl`color
      reads tree.nodes`left, tree.nodes`right, tree.nodes`parent, tree.nodes`color, tree.nodes`key
      reads home.Keys`next, home.Keys`prev
    {
      && tree.WellFormed() && InOrder(tree.shape) == rest
      && tree.len == Total(rest, chains)
      && Visitable(rest, m, chains, home) && SibSnapshot(home.Keys) == m
    }

    /** One round of the loop below: the siblings of 'n', then 'n' itself. */
    method FreeFirst(n: Node, ghost m: SibHeap, ghost rest: seq<Entry>) returns (calls: seq<Node>, next: Node)
      requires Remaining(m, rest) && rest != [] && n == First(rest, tree.sentl)
      modifies tree`len, tree`root, tree`shape, tree`nodes, tree.sentl`parent, tree.sentl`color
      modifies tree.nodes`left, tree.nodes`right, tree.nodes`parent, tree.nodes`color, tree.nodes`key
      ensures Remaining(m, rest[1..]) && tree.nodes <= old(tree.nodes)
      ensures next == First(rest[1..], tree.sentl)
      ensures calls + FreeOrder(rest[1..], chains) == FreeOrder(rest, chains)
    {
      hide tree.WellFormed, InOrder, RedBlackTree.Nodes, NextIn, Visitable, Ring, NoDuplicates;
      FreeStep(rest, m, chains, home);
      calls := FreeSiblings(n, chains[rest[0].key]);
      next := tree.RmFirst(n);
      calls := calls + [n];
    }

    lemma StartFree()
      requires Valid()
      ensures Remaining(SibSnapshot(home.Keys), InOrder(tree.shape))
      ensures EachOnce(FreeOrder(InOrder(tree.shape), chains), home)
    {
      FreeOrderAll(InOrder(tree.shape), chains, home);
      TotalHome(InOrder(tree.shape), chains, home);
      VisitAll(InOrder(tree.shape), SibSnapshot(home.Keys), chains, home);
    }

    lemma EndFree(m: SibHeap)
      requires Remaining(m, [])
      ensures tree.Valid() && tree.shape == Leaf && tree.len == 0 && FreeOrder([], chains) == []
    {
      tree.FirstHeld();
    }

    method FirstToFree(ghost m: SibHeap, ghost rest: seq<Entry>) returns (n: Node)
      requires Remaining(m, rest)
      ensures n == First(rest, tree.sentl) && Remaining(m, rest)
    {
      n := tree.FirstNode();
    }

    lemma NotDone(m: SibHeap, rest: seq<Entry>)
      requires Remaining(m, rest)
      ensures rest == [] <==> First(rest, tree.sentl) == tree.sentl
    {
      tree.FirstHeld();
    }

    /** ffrbtl_freeall: 'calls' are the items handed to the callback: every tree node and sibling
        once, by ascending key. */
    method FreeAll() returns (calls: seq<Node>)
      requires Valid()
      modifies tree`len, tree`root, tree`shape, tree`nodes, tree.sentl`parent, tree.sentl`color
      modifies tree.nodes`left, tree.nodes`right, tree.nodes`parent, tree.nodes`color, tree.nodes`key
      ensures tree.Valid() && tree.shape == Leaf && tree.len == 0
      ensures calls == FreeOrder(old(InOrder(tree.shape)), old(chains))
      ensures EachOnce(calls, old(home))
    {
      hide *;
      ghost var m, s, rest := SibSnapshot(home.Keys), tree.nodes, InOrder(tree.shape);
      ghost var all := FreeOrder(rest, chains);
      StartFree();
      calls := [];
      var n := FirstToFree(m, rest);
      while n != tree.sentl
        invariant Remaining(m, rest) && tree.nodes <= s
        invariant n == First(rest, tree.sentl)
        invariant calls + FreeOrder(rest, chains) == all
        decreases |rest|
      {
        NotDone(m, rest);
        var visited;
        visited, n := FreeFirst(n, m, rest);
        NodesRegroup(calls, visited, FreeOrder(rest[1..], chains));
        calls := calls + visited;
        rest := rest[1..];
      }
      NotDone(m, rest);
      EndFree(m);
      assert calls == all by { assert calls + [] == calls; }
    }
  }

  lemma NodesRegroup(a: seq<Node>, b: seq<Node>, c: seq<Node>)
    ensures a + b + c == a + (b + c)
  {
  }

  /** Two runs of ffrbtl_move on small trees.  The only item of its key loses the key that the
      caller gave it. */
  method KeyLost(was: int, now: int) returns (key: int)
    ensures key == 0
  {
    var t := new RbListTree();
    var k := new Node(was);
    t.Insert(k);
    t.WriteKey(k, now);
    t.Move(k);
    key := k.key;
  }

  /** A tree node with a sibling, whose new key is past that of the next tree node, leaves the
      tree out of order. */
  method OrderLost() returns (t: RbListTree)
    ensures t.tree.WellFormed() && !StrictlySorted(InOrder(t.tree.shape))
  {
    hide *;
    var a := new Node(1);
    var b := new Node(1);
    var c := new Node(2);
    t := ThreeNodes(a, b, c);
    t.KeyPastNext(a, 2, 3);
    t.WriteKey(a, 3);
    t.Move(a);
  }

  method ThreeNodes(a: Node, b: Node, c: Node) returns (t: RbListTree)
    requires a.parent == b.parent == c.parent == null && a != b && a != c && b != c
    requires a.key == 1 && b.key == 1 && c.key == 2
    modifies a, b, c
    ensures fresh(t) && fresh(t.tree) && fresh(t.tree.sentl) && t.Valid()
    ensures t.home.Keys == {a, b, c} && t.home[a] == 1 && t.tree.nodes <= {a, b, c}
    ensures t.chains == map[1 := [a, b], 2 := [c]]
  {
    hide *;
    t := OneNode(a);
    t.Insert(b);
    t.InsertReady();
    OneKey(a, b);
    t.Insert(c);
    t.InsertReady();
    TwoKeys(a, b, c);
  }

  method OneNode(a: Node) returns (t: RbListTree)
    requires a.parent == null
    modifies a
    ensures fresh(t) && fresh(t.tree) && fresh(t.tree.sentl) && t.tree.nodes <= {a} && a.key == old(a.key)
    ensures t.Valid() && t.chains == map[a.key := [a]] && t.home == map[a := a.key]
  {
    t := new RbListTree();
    t.Insert(a);
  }

  lemma OneKey(a: Node, b: Node)
    ensures Joined(map[1 := [a]], 1, b) == map[1 := [a, b]]
  {
    assert [a, b] + [a][1..] == [a, b];
  }

  lemma TwoKeys(a: Node, b: Node, c: Node)
    ensures Joined(map[1 := [a, b]], 2, c) == map[1 := [a, b], 2 := [c]]
  {
  }

  /** The links of item 'i' of 'c' and of its neighbours. */
  ghost predicate AtPlace(m: SibHeap, items: set<Node>, c: seq<Node>, i: nat)
    requires i < |c|
  {
    var (p, q) := (Down(i, |c|), Up(i, |c|));
    && LinkedAt(m, c, i) && LinkedAt(m, c, p) && LinkedAt(m, c, q)
    && c[i] in items && c[p] in items && c[q] in items
    && (|c| > 1 ==> c[q] != c[i] && c[p] != c[i])
    && (p != q ==> c[p] != c[q])
  }

  /** Where an item is. */
  lemma Place(t: Tree, m: SibHeap, chains: map<int, seq<Node>>, home: map<Node, int>, k: Node)
    returns (c: seq<Node>, i: nat)
    requires Consistent(InOrder(t), m, chains, home) && k in home
    ensures home[k] in chains && c == chains[home[k]] && i < |c| && c[i] == k
    ensures AtPlace(m, home.Keys, c, i)
    ensures k in RedBlackTree.Nodes(t) <==> i == 0
    ensures i == 0 && |c| > 1 ==> c[1] !in RedBlackTree.Nodes(t)
    ensures |c| == 1 ==> c == [k]
  {
    c := chains[home[k]];
    ChainOf(InOrder(t), m, chains, home, home[k]);
    i :| 0 <= i < |c| && c[i] == k;
    assert c[Up(i, |c|)] in c && c[Down(i, |c|)] in c;
    assert LinkedAt(m, c, i) && LinkedAt(m, c, Down(i, |c|)) && LinkedAt(m, c, Up(i, |c|));
    Heads(t, m, chains, home, k);
    if |c| > 1 { Heads(t, m, chains, home, c[1]); }
  }
}
