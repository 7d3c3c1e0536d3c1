/**
 * The in-memory cache: a tree of items by key hash, with a chain of items under each hash, a list
 * in order of last use, reference counts on items and on shared keys, and limits on the number of
 * items and on memory.
 *
 * The tree is taken by its contents, a map from each hash to its chain, and the list as a sequence.
 */
module Cache {
  import opened Wrappers

  // ----- sequences -----

  function Sum(s: seq<nat>): nat {
    if s == [] then 0 else Sum(s[..|s| - 1]) + s[|s| - 1]
  }

  lemma {:induction false} SumAppend(a: seq<nat>, b: seq<nat>)
    ensures Sum(a + b) == Sum(a) + Sum(b)
  {
    if b == [] {
      assert a + b == a;
    } else {
      var n := |b| - 1;
      assert (a + b)[..|a| + n] == a + b[..n];
      SumAppend(a, b[..n]);
    }
  }

  /** A sum with its i-th part left out, and with another in its place. */
  lemma SumAt(s: seq<nat>, i: nat, x: nat)
    requires i < |s|
    ensures Sum(s) == Sum(s[..i] + s[i + 1..]) + s[i]
    ensures Sum(s[i := x]) == Sum(s) - s[i] + x
  {
    SumAppend(s[..i], s[i + 1..]);
    SumThree(s[..i], x, s[i + 1..]);
    SumThree(s[..i], s[i], s[i + 1..]);
    assert s[i := x] == s[..i] + [x] + s[i + 1..] && s == s[..i] + [s[i]] + s[i + 1..];
  }

  lemma SumThree(a: seq<nat>, x: nat, b: seq<nat>)
    ensures Sum(a + [x] + b) == Sum(a) + x + Sum(b)
  {
    SumAppend(a + [x], b);
    assert (a + [x])[..|a|] == a;
  }

  /** The place of 'x'. */
  function Index<T(==)>(s: seq<T>, x: T): (i: nat)
    requires x in s
    ensures i < |s| && s[i] == x
    ensures forall k :: 0 <= k < i ==> s[k] != x
  {
    if s[0] == x then 0 else 1 + Index(s[1..], x)
  }

  function Without<T(==)>(s: seq<T>, x: T): (r: seq<T>)
  {
    if x in s then s[..Index(s, x)] + s[Index(s, x) + 1..] else s
  }

  lemma CutDistinct<T>(s: seq<T>, i: nat, r: seq<T>)
    requires NoDuplicates(s) && i < |s| && r == s[..i] + s[i + 1..]
    ensures NoDuplicates(r) && |r| == |s| - 1
    ensures forall y :: y in r ==> y in s && y != s[i]
    ensures forall y :: y in s && y != s[i] ==> y in r
  {
    assert forall k :: 0 <= k < |r| ==> r[k] == s[if k < i then k else k + 1];
    forall y | y in s && y != s[i] ensures y in r {
      var k :| 0 <= k < |s| && s[k] == y;
      assert r[if k < i then k else k - 1] == y;
    }
  }

  lemma WithoutDistinct<T>(s: seq<T>, x: T)
    requires NoDuplicates(s) && x in s
    ensures NoDuplicates(Without(s, x)) && |Without(s, x)| == |s| - 1
    ensures forall y :: y in Without(s, x) <==> y in s && y != x
  {
    var i, r := Index(s, x), Without(s, x);
    assert r == s[..i] + s[i + 1..];
    hide Index, Without, NoDuplicates;
    CutDistinct(s, i, r);
  }

  function Count<T(==)>(s: seq<T>, x: T): nat {
    if s == [] then 0 else Count(s[..|s| - 1], x) + (if s[|s| - 1] == x then 1 else 0)
  }

  lemma {:induction false} CountAppend<T>(a: seq<T>, b: seq<T>, x: T)
    ensures Count(a + b, x) == Count(a, x) + Count(b, x)
  {
    if b == [] {
      assert a + b == a;
    } else {
      var n := |b| - 1;
      assert (a + b)[..|a| + n] == a + b[..n];
      CountAppend(a, b[..n], x);
    }
  }

  lemma CountAt<T>(s: seq<T>, i: nat, x: T)
    requires i < |s|
    ensures Count(s, x) == Count(s[..i] + s[i + 1..], x) + (if s[i] == x then 1 else 0)
  {
    hide Count;
    CountAppend(s[..i], s[i + 1..], x);
    CountThree(s[..i], s[i], s[i + 1..], x);
    Halves(s, i);
  }

  lemma Halves<T>(s: seq<T>, i: nat)
    requires i < |s|
    ensures s == s[..i] + [s[i]] + s[i + 1..]
  {
  }

  lemma CountThree<T>(a: seq<T>, y: T, b: seq<T>, x: T)
    ensures Count(a + [y] + b, x) == Count(a, x) + (if y == x then 1 else 0) + Count(b, x)
  {
    CountAppend(a + [y], b, x);
    assert (a + [y])[..|a|] == a;
  }

  lemma {:induction false} CountIn<T>(s: seq<T>, x: T)
    ensures Count(s, x) > 0 <==> x in s
  {
    if s != [] {
      CountIn(s[..|s| - 1], x);
      assert s == s[..|s| - 1] + [s[|s| - 1]];
    }
  }

  // ----- entities -----

  /** A key, shared by the items that have it. */
  class Key {
    const d: string
    var usage: nat

    constructor (d: string)
      ensures this.d == d && usage == 1
    {
      this.d, usage := d, 1;
    }
  }

  class Item {
    const hash: nat
    const ckey: Key
    var data: string
    var usage: nat
    var unlinked: bool
    ghost var stamp: nat

    constructor (hash: nat, ckey: Key, data: string, usage: nat, ghost stamp: nat)
      ensures this.hash == hash && this.ckey == ckey && this.data == data && this.usage == usage
      ensures !unlinked && this.stamp == stamp
    {
      this.hash, this.ckey, this.data, this.usage, unlinked := hash, ckey, data, usage, false;
      this.stamp := stamp;
    }
  }

  datatype Error = Ok | ESys | EExists | ENotFound | EColl | ENumLimit | EMemLimit | ESzLimit | ELocked

  datatype Conf = Conf(maxItems: nat, maxData: nat, memLimit: nat, icase: bool, multi: bool)

  const MAX_KEYLEN := 64 * 1024

  function LowerChar(c: char): char {
    if 'A' <= c <= 'Z' then (c as int + 32) as char else c
  }

  function Lower(s: string): (r: string)
    ensures |r| == |s|
  {
    seq(|s|, i requires 0 <= i < |s| => LowerChar(s[i]))
  }

  /** key_equal */
  predicate KeyEqual(stored: string, key: string, icase: bool) {
    |stored| == |key| && if icase then Lower(stored) == Lower(key) else stored == key
  }

  // ----- the cache as a value -----

  datatype Info = Info(size: nat, usage: nat, unlinked: bool, stamp: nat)
  const NoInfo := Info(0, 0, false, 0)

  /**
   * 'live': the items that have not been freed; 'freed': those that have, in that order; 'info':
   * the fields of live items; 'uses': the reference counts of keys; 'clock': later than any use.
   */
  datatype View = View(live: seq<Item>, keys: seq<Key>, info: map<Item, Info>, uses: map<Key, nat>,
    lru: seq<Item>, tree: map<nat, seq<Item>>, mem: int, len: int, freed: seq<Item>, clock: nat)

  ghost function KeysOf(s: seq<Item>): (r: seq<Key>)
    ensures |r| == |s|
    ensures forall i :: 0 <= i < |s| ==> r[i] == s[i].ckey
  {
    seq(|s|, i requires 0 <= i < |s| => s[i].ckey)
  }

  ghost function KeyLens(s: seq<Key>): (r: seq<nat>)
    ensures |r| == |s|
    ensures forall i :: 0 <= i < |s| ==> r[i] == |s[i].d|
  {
    seq(|s|, i requires 0 <= i < |s| => |s[i].d|)
  }

  ghost function Sizes(s: seq<Item>, info: map<Item, Info>): (r: seq<nat>)
    requires forall it :: it in s ==> it in info
    ensures |r| == |s|
    ensures forall i :: 0 <= i < |s| ==> r[i] == info[s[i]].size
  {
    seq(|s|, i requires 0 <= i < |s| => info[s[i]].size)
  }

  ghost function Stamps(s: seq<Item>, info: map<Item, Info>): (r: seq<nat>)
    requires forall it :: it in s ==> it in info
    ensures |r| == |s|
    ensures forall i :: 0 <= i < |s| ==> r[i] == info[s[i]].stamp
  {
    seq(|s|, i requires 0 <= i < |s| => info[s[i]].stamp)
  }

  predicate Increasing(s: seq<nat>) {
    forall i, j :: 0 <= i < j < |s| ==> s[i] < s[j]
  }

  lemma IncreasingAt(s: seq<nat>, i: nat)
    requires Increasing(s) && i < |s|
    ensures Increasing(s[..i] + s[i + 1..])
  {
  }

  lemma StampsCut(s: seq<Item>, i: nat, r: seq<Item>, info: map<Item, Info>, info2: map<Item, Info>)
    requires i < |s| && r == s[..i] + s[i + 1..] && (forall x :: x in s ==> x in info)
    requires forall x :: x in r ==> x in info2 && x in info && info2[x].stamp == info[x].stamp
    ensures Stamps(r, info2) == Stamps(s, info)[..i] + Stamps(s, info)[i + 1..]
  {
    var got, want := Stamps(r, info2), Stamps(s, info)[..i] + Stamps(s, info)[i + 1..];
    forall k | 0 <= k < |r| ensures got[k] == want[k] {
      assert r[k] in r && r[k] == s[if k < i then k else k + 1];
    }
  }

  lemma StampsWithout(s: seq<Item>, it: Item, info: map<Item, Info>, info2: map<Item, Info>)
    requires it in s && (forall x :: x in s ==> x in info) && Increasing(Stamps(s, info))
    requires forall x :: x in Without(s, it) ==> x in info2 && x in info && info2[x].stamp == info[x].stamp
    ensures Increasing(Stamps(Without(s, it), info2))
  {
    var i := Index(s, it);
    assert Without(s, it) == s[..i] + s[i + 1..];
    hide Without, Increasing, Stamps;
    IncreasingAt(Stamps(s, info), i);
    StampsCut(s, i, Without(s, it), info, info2);
  }

  lemma SizesCut(s: seq<Item>, i: nat, r: seq<Item>, info: map<Item, Info>, info2: map<Item, Info>)
    requires i < |s| && r == s[..i] + s[i + 1..] && (forall x :: x in s ==> x in info)
    requires forall x :: x in r ==> x in info2 && x in info && info2[x].size == info[x].size
    ensures Sizes(r, info2) == Sizes(s, info)[..i] + Sizes(s, info)[i + 1..]
  {
    var got, want := Sizes(r, info2), Sizes(s, info)[..i] + Sizes(s, info)[i + 1..];
    forall k | 0 <= k < |r| ensures got[k] == want[k] {
      assert r[k] in r && r[k] == s[if k < i then k else k + 1];
    }
  }

  lemma SizesWithout(s: seq<Item>, it: Item, info: map<Item, Info>, info2: map<Item, Info>)
    requires it in s && (forall x :: x in s ==> x in info)
    requires forall x :: x in Without(s, it) ==> x in info2 && x in info && info2[x].size == info[x].size
    ensures Sum(Sizes(s, info)) == Sum(Sizes(Without(s, it), info2)) + info[it].size
  {
    var i := Index(s, it);
    assert Without(s, it) == s[..i] + s[i + 1..];
    hide Without, Sum, Sizes;
    SumAt(Sizes(s, info), i, 0);
    SizesCut(s, i, Without(s, it), info, info2);
  }

  /** Items whose data has not changed size. */
  lemma SizesSame(s: seq<Item>, info: map<Item, Info>, info2: map<Item, Info>)
    requires forall x :: x in s ==> x in info && x in info2 && info2[x].size == info[x].size
    ensures Sizes(s, info) == Sizes(s, info2)
  {
    forall k | 0 <= k < |s| ensures Sizes(s, info)[k] == Sizes(s, info2)[k] {
      assert s[k] in s;
    }
  }

  lemma StampsSame(s: seq<Item>, info: map<Item, Info>, info2: map<Item, Info>)
    requires forall x :: x in s ==> x in info && x in info2 && info2[x].stamp == info[x].stamp
    ensures Stamps(s, info) == Stamps(s, info2)
  {
    forall k | 0 <= k < |s| ensures Stamps(s, info)[k] == Stamps(s, info2)[k] {
      assert s[k] in s;
    }
  }

  lemma KeyLensWithout(s: seq<Key>, k: Key)
    requires k in s
    ensures Sum(KeyLens(s)) == Sum(KeyLens(Without(s, k))) + |k.d|
  {
    var i := Index(s, k);
    assert Without(s, k) == s[..i] + s[i + 1..];
    hide Without, Sum, KeyLens;
    SumAt(KeyLens(s), i, 0);
    KeyLensCut(s, i);
  }

  lemma KeyLensCut(s: seq<Key>, i: nat)
    requires i < |s|
    ensures KeyLens(s[..i] + s[i + 1..]) == KeyLens(s)[..i] + KeyLens(s)[i + 1..]
  {
  }

  ghost predicate Lists(v: View) {
    && NoDuplicates(v.live) && NoDuplicates(v.keys) && NoDuplicates(v.lru) && NoDuplicates(v.freed)
    && (forall it :: it in v.info ==> it in v.live) && (forall it :: it in v.live ==> it in v.info)
    && (forall k :: k in v.uses ==> k in v.keys) && (forall k :: k in v.keys ==> k in v.uses)
    && (forall it :: it in v.freed ==> it !in v.live)
  }

  /** The list of last use has exactly the items that are linked. */
  ghost predicate Linked(v: View)
    requires Lists(v)
  {
    && (forall it :: it in v.lru ==> it in v.live && !v.info[it].unlinked)
    && (forall it :: it in v.live && !v.info[it].unlinked ==> it in v.lru)
  }

  /** A key counts the live items that have it. */
  ghost predicate Counted(v: View)
    requires Lists(v)
  {
    && (forall it :: it in v.live ==> it.ckey in v.keys)
    && (forall k :: k in v.keys ==> v.uses[k] == Count(KeysOf(v.live), k) > 0)
  }

  /** A chain has items of one hash and one key. */
  ghost predicate ChainOf(v: View, h: nat, c: seq<Item>) {
    c != [] && NoDuplicates(c) && forall it :: it in c ==> it in v.lru && it.hash == h && it.ckey == c[0].ckey
  }

  /** The tree has exactly the items that are linked, each under its hash. */
  ghost predicate Indexed(v: View) {
    && (forall h :: h in v.tree ==> ChainOf(v, h, v.tree[h]))
    && (forall it :: it in v.lru ==> it.hash in v.tree && it in v.tree[it.hash])
  }

  /** The memory in use: the data of live items, and the keys, each once. */
  ghost predicate Accounted(v: View)
    requires Lists(v)
  {
    v.mem == Sum(Sizes(v.live, v.info)) + Sum(KeyLens(v.keys)) && v.len == |v.lru|
  }

  /** The list is in order of last use. */
  ghost predicate Ordered(v: View)
    requires Lists(v) && Linked(v)
  {
    && Increasing(Stamps(v.lru, v.info))
    && (forall it :: it in v.live ==> v.info[it].stamp < v.clock)
  }

  ghost predicate Sound(v: View) {
    Lists(v) && Linked(v) && Counted(v) && Indexed(v) && Accounted(v) && Ordered(v)
  }

  lemma SoundParts(v: View)
    requires Sound(v)
    ensures Lists(v) && Linked(v) && Counted(v) && Indexed(v) && Accounted(v) && Ordered(v)
  {
  }

  /** Nothing is kept that is neither linked nor referenced. */
  ghost predicate Held(v: View)
    requires Lists(v)
  {
    forall it :: it in v.live && v.info[it].unlinked ==> v.info[it].usage > 0
  }

  ghost predicate Steady(v: View) {
    Sound(v) && Held(v)
  }

  ghost predicate Bounded(v: View, conf: Conf) {
    && v.mem <= conf.memLimit && v.len <= conf.maxItems
    && (!conf.multi ==> forall h :: h in v.tree ==> |v.tree[h]| == 1)
  }

  ghost predicate Good(v: View, conf: Conf) {
    Steady(v) && Bounded(v, conf)
  }

  // ----- unlinking and freeing -----

  /** A tree without one item. */
  function Pruned(tree: map<nat, seq<Item>>, it: Item): map<nat, seq<Item>> {
    if it.hash !in tree then tree
    else if Without(tree[it.hash], it) == [] then tree - {it.hash}
    else tree[it.hash := Without(tree[it.hash], it)]
  }

  /** item_rlz, but for freeing what nobody refers to. */
  ghost function Unlink(v: View, it: Item): View
    requires it in v.info
  {
    v.(tree := Pruned(v.tree, it), lru := Without(v.lru, it), len := v.len - 1,
      info := v.info[it := v.info[it].(unlinked := true)])
  }

  /** item_fin */
  ghost function Free(v: View, it: Item): View
    requires it in v.info && it.ckey in v.uses
  {
    var k := it.ckey;
    var u := v.(live := Without(v.live, it), info := v.info - {it}, freed := v.freed + [it]);
    if v.uses[k] <= 1 then
      u.(keys := Without(v.keys, k), uses := v.uses - {k}, mem := v.mem - |k.d| - v.info[it].size)
    else
      u.(uses := v.uses[k := v.uses[k] - 1], mem := v.mem - v.info[it].size)
  }

  /** item_rlz */
  ghost function Release(v: View, it: Item): View
    requires it in v.info && it.ckey in v.uses
  {
    if v.info[it].usage == 0 then Free(Unlink(v, it), it) else Unlink(v, it)
  }

  lemma UnlinkIndexed(v: View, it: Item)
    requires Lists(v) && Indexed(v) && it in v.lru && it in v.info
    ensures Indexed(Unlink(v, it))
    ensures forall h :: h in Unlink(v, it).tree ==> h in v.tree && |Unlink(v, it).tree[h]| <= |v.tree[h]|
  {
    var u, c := Unlink(v, it), v.tree[it.hash];
    WithoutDistinct(v.lru, it);
    WithoutDistinct(c, it);
    forall h | h in u.tree ensures ChainOf(u, h, u.tree[h]) {
      assert ChainOf(v, h, v.tree[h]);
    }
    forall x | x in u.lru ensures x.hash in u.tree && x in u.tree[x.hash] {
      assert x in v.tree[x.hash];
    }
  }

  lemma UnlinkLists(v: View, it: Item)
    requires Lists(v) && Linked(v) && it in v.lru && it in v.info
    ensures Lists(Unlink(v, it)) && Linked(Unlink(v, it))
  {
    WithoutDistinct(v.lru, it);
  }

  lemma UnlinkOrdered(v: View, it: Item)
    requires Lists(v) && Linked(v) && Ordered(v) && it in v.lru && it in v.info
    requires Lists(Unlink(v, it)) && Linked(Unlink(v, it))
    ensures Ordered(Unlink(v, it))
  {
    WithoutDistinct(v.lru, it);
    hide Without, NoDuplicates, Stamps, Increasing, Pruned;
    StampsWithout(v.lru, it, v.info, v.info[it := v.info[it].(unlinked := true)]);
  }

  lemma UnlinkAccounted(v: View, it: Item)
    requires Lists(v) && Accounted(v) && it in v.lru && it in v.info && Lists(Unlink(v, it))
    ensures Accounted(Unlink(v, it))
  {
    WithoutDistinct(v.lru, it);
    hide Without, NoDuplicates, Sizes, Sum, KeyLens, Pruned;
    SizesSame(v.live, v.info, v.info[it := v.info[it].(unlinked := true)]);
  }

  lemma LruInfo(v: View, it: Item)
    requires Lists(v) && Linked(v) && it in v.lru
    ensures it in v.info && it in v.live && !v.info[it].unlinked
  {
  }

  lemma UnlinkSound(v: View, it: Item)
    requires Sound(v) && it in v.lru
    ensures it in v.info && Sound(Unlink(v, it))
    ensures forall h :: h in Unlink(v, it).tree ==> h in v.tree && |Unlink(v, it).tree[h]| <= |v.tree[h]|
  {
    hide Lists, Linked, Counted, Accounted, Ordered, Indexed, Unlink;
    LruInfo(v, it);
    UnlinkLists(v, it);
    UnlinkIndexed(v, it);
    UnlinkOrdered(v, it);
    UnlinkAccounted(v, it);
    UnlinkCounted(v, it);
  }

  lemma UnlinkCounted(v: View, it: Item)
    requires Lists(v) && Counted(v) && it in v.info && Lists(Unlink(v, it))
    ensures Counted(Unlink(v, it))
  {
  }

  lemma FreeLists(v: View, it: Item)
    requires Lists(v) && Linked(v) && it in v.live && v.info[it].unlinked && it.ckey in v.uses
    ensures Lists(Free(v, it)) && Linked(Free(v, it))
  {
    WithoutDistinct(v.live, it);
    if v.uses[it.ckey] <= 1 { WithoutDistinct(v.keys, it.ckey); }
  }

  lemma FreeCounts(v: View, it: Item, x: Key)
    requires it in v.live
    ensures Count(KeysOf(v.live), x) == Count(KeysOf(Without(v.live, it)), x) + (if x == it.ckey then 1 else 0)
  {
    var i := Index(v.live, it);
    CountAt(KeysOf(v.live), i, x);
    assert KeysOf(Without(v.live, it)) == KeysOf(v.live)[..i] + KeysOf(v.live)[i + 1..];
  }

  lemma CountedIn(s: seq<Item>, it: Item)
    requires it in s
    ensures Count(KeysOf(s), it.ckey) > 0
  {
    CountIn(KeysOf(s), it.ckey);
    var i :| 0 <= i < |s| && s[i] == it;
    assert KeysOf(s)[i] == it.ckey;
  }

  lemma FreeCounted(v: View, it: Item)
    requires Lists(v) && Counted(v) && it in v.live && it.ckey in v.uses && Lists(Free(v, it))
    ensures Counted(Free(v, it))
  {
    hide Lists, Without, NoDuplicates, Count, KeysOf;
    FreeMembers(v, it);
    var u, k := Free(v, it), it.ckey;
    FreeCounts(v, it, k);
    forall x | x in u.keys ensures u.uses[x] == Count(KeysOf(u.live), x) > 0 {
      FreeCounts(v, it, x);
    }
    forall x | x in u.live ensures x.ckey in u.keys {
      CountedIn(u.live, x);
    }
  }

  lemma FreeMembers(v: View, it: Item)
    requires Lists(v) && it in v.live && it.ckey in v.uses
    ensures it in v.info && it.ckey in v.keys
    ensures var u := Free(v, it);
      && u.live == Without(v.live, it) && (forall x :: x in u.live ==> x in v.live && x != it)
      && (forall x :: x in u.keys ==> x in v.keys && x in v.uses && (v.uses[it.ckey] <= 1 ==> x != it.ckey))
      && (forall x :: x in v.keys && (v.uses[it.ckey] <= 1 ==> x != it.ckey) ==> x in u.keys)
  {
    WithoutDistinct(v.live, it);
    if v.uses[it.ckey] <= 1 { WithoutDistinct(v.keys, it.ckey); }
    hide Without, NoDuplicates;
  }

  lemma FreeAccounted(v: View, it: Item)
    requires Lists(v) && Accounted(v) && it in v.live && it.ckey in v.keys && Lists(Free(v, it))
    ensures Accounted(Free(v, it))
  {
    WithoutDistinct(v.live, it);
    hide Without, NoDuplicates, Sum, Sizes, KeyLens;
    SizesWithout(v.live, it, v.info, v.info - {it});
    KeyLensWithout(v.keys, it.ckey);
  }

  lemma FreeOrdered(v: View, it: Item)
    requires Lists(v) && Linked(v) && Ordered(v) && it in v.live && v.info[it].unlinked && it.ckey in v.uses
    requires Lists(Free(v, it)) && Linked(Free(v, it))
    ensures Ordered(Free(v, it))
  {
    WithoutDistinct(v.live, it);
    hide Without, NoDuplicates, Stamps, Increasing;
    StampsSame(v.lru, v.info, v.info - {it});
  }

  lemma FreeIndexed(v: View, it: Item)
    requires Indexed(v) && it in v.info && it.ckey in v.uses
    ensures Indexed(Free(v, it))
    ensures Free(v, it).lru == v.lru && Free(v, it).tree == v.tree && Free(v, it).mem <= v.mem && Free(v, it).len == v.len
  {
    var u := Free(v, it);
    forall h | h in u.tree ensures ChainOf(u, h, u.tree[h]) { assert ChainOf(v, h, v.tree[h]); }
  }

  lemma KeyHeld(v: View, it: Item)
    requires Lists(v) && Counted(v) && it in v.live
    ensures it.ckey in v.keys && it.ckey in v.uses && it in v.info && v.uses[it.ckey] > 0
  {
  }

  lemma FreeSound(v: View, it: Item)
    requires Sound(v) && it in v.live && it in v.info && v.info[it].unlinked
    ensures it.ckey in v.uses && Sound(Free(v, it))
    ensures Free(v, it).lru == v.lru && Free(v, it).tree == v.tree && Free(v, it).mem <= v.mem && Free(v, it).len == v.len
  {
    hide Lists, Linked, Counted, Accounted, Ordered, Indexed, Free;
    KeyHeld(v, it);
    FreeLists(v, it);
    FreeCounted(v, it);
    FreeAccounted(v, it);
    FreeOrdered(v, it);
    FreeIndexed(v, it);
  }

  // ----- using, storing, updating -----

  /** A linked item has been used: its new data size and reference count, and its place at the end. */
  ghost function Refresh(v: View, it: Item, size: nat, usage: nat): View
    requires it in v.info
  {
    v.(info := v.info[it := Info(size, usage, false, v.clock)], lru := Without(v.lru, it) + [it],
      mem := v.mem - v.info[it].size + size, clock := v.clock + 1)
  }

  /** A new item, with a key that is new or that the chain of its hash has already. */
  ghost function Stored(v: View, it: Item, size: nat, usage: nat): View {
    var k := it.ckey;
    var u := v.(live := v.live + [it], info := v.info[it := Info(size, usage, false, v.clock)], lru := v.lru + [it],
      tree := v.tree[it.hash := (if it.hash in v.tree then v.tree[it.hash] else []) + [it]],
      len := v.len + 1, clock := v.clock + 1);
    if k in v.uses then u.(uses := v.uses[k := v.uses[k] + 1], mem := v.mem + size)
    else u.(keys := v.keys + [k], uses := v.uses[k := 1], mem := v.mem + |k.d| + size)
  }

  /** A change of the reference count alone. */
  ghost function Recounted(v: View, it: Item, usage: nat): View
    requires it in v.info
  {
    v.(info := v.info[it := v.info[it].(usage := usage)])
  }

  lemma RecountedSound(v: View, it: Item, usage: nat)
    requires Sound(v) && it in v.info
    ensures Sound(Recounted(v, it, usage))
  {
    hide Lists, Linked, Indexed, Counted, Accounted, Ordered;
    RecountedLists(v, it, usage);
    RecountedIndexed(v, it, usage);
    RecountedCounted(v, it, usage);
    RecountedAccounted(v, it, usage);
    RecountedOrdered(v, it, usage);
  }

  lemma RecountedCounted(v: View, it: Item, usage: nat)
    requires Lists(v) && Counted(v) && it in v.info && Lists(Recounted(v, it, usage))
    ensures Counted(Recounted(v, it, usage))
  {
    hide Lists, KeysOf, Count;
  }

  lemma RecountedAccounted(v: View, it: Item, usage: nat)
    requires Lists(v) && Accounted(v) && it in v.info && Lists(Recounted(v, it, usage))
    ensures Accounted(Recounted(v, it, usage))
  {
    hide NoDuplicates, Sizes, Sum, KeyLens;
    SizesSame(v.live, v.info, Recounted(v, it, usage).info);
  }

  lemma RecountedOrdered(v: View, it: Item, usage: nat)
    requires Lists(v) && Linked(v) && Ordered(v) && it in v.info
    requires Lists(Recounted(v, it, usage)) && Linked(Recounted(v, it, usage))
    ensures Ordered(Recounted(v, it, usage))
  {
    hide NoDuplicates, Stamps, Increasing;
    StampsSame(v.lru, v.info, Recounted(v, it, usage).info);
  }

  lemma RecountedLists(v: View, it: Item, usage: nat)
    requires Lists(v) && Linked(v) && it in v.info
    ensures Lists(Recounted(v, it, usage)) && Linked(Recounted(v, it, usage))
  {
    hide NoDuplicates;
  }

  lemma RecountedIndexed(v: View, it: Item, usage: nat)
    requires Indexed(v) && it in v.info
    ensures Indexed(Recounted(v, it, usage))
  {
    forall h | h in v.tree ensures ChainOf(Recounted(v, it, usage), h, v.tree[h]) { assert ChainOf(v, h, v.tree[h]); }
  }

  lemma MovedDistinct(s: seq<Item>, it: Item)
    requires NoDuplicates(s) && it in s
    ensures NoDuplicates(Without(s, it) + [it]) && |Without(s, it) + [it]| == |s|
    ensures forall x :: x in Without(s, it) + [it] <==> x in s
  {
    WithoutDistinct(s, it);
    hide Without;
  }

  lemma IncreasingAppend(s: seq<nat>, x: nat)
    requires Increasing(s) && forall i :: 0 <= i < |s| ==> s[i] < x
    ensures Increasing(s + [x])
  {
  }

  lemma MovedOrdered(v: View, it: Item, size: nat, usage: nat)
    requires Lists(v) && Linked(v) && Ordered(v) && it in v.lru && it in v.info
    requires Lists(Refresh(v, it, size, usage)) && Linked(Refresh(v, it, size, usage))
    ensures Ordered(Refresh(v, it, size, usage))
  {
    var u, r := Refresh(v, it, size, usage), Without(v.lru, it);
    WithoutDistinct(v.lru, it);
    hide Without, NoDuplicates, Increasing;
    StampsWithout(v.lru, it, v.info, u.info);
    var t := Stamps(r, u.info);
    forall i | 0 <= i < |t| ensures t[i] < v.clock { assert r[i] in r && r[i] in v.lru; }
    IncreasingAppend(t, v.clock);
    assert Stamps(r + [it], u.info) == t + [v.clock];
  }

  lemma SizesChanged(s: seq<Item>, it: Item, info: map<Item, Info>, info2: map<Item, Info>)
    requires NoDuplicates(s) && it in s && forall x :: x in s ==> x in info && x in info2
    requires forall x :: x in s && x != it ==> info2[x].size == info[x].size
    ensures Sum(Sizes(s, info2)) == Sum(Sizes(s, info)) - info[it].size + info2[it].size
  {
    WithoutDistinct(s, it);
    hide Without, NoDuplicates, Sum, Sizes;
    SizesWithout(s, it, info, info);
    SizesWithout(s, it, info2, info);
  }

  lemma RefreshLists(v: View, it: Item, size: nat, usage: nat)
    requires Lists(v) && Linked(v) && it in v.lru && it in v.info
    ensures Lists(Refresh(v, it, size, usage)) && Linked(Refresh(v, it, size, usage))
  {
    MovedDistinct(v.lru, it);
    hide Without, NoDuplicates;
  }

  lemma RefreshAccounted(v: View, it: Item, size: nat, usage: nat)
    requires Lists(v) && Accounted(v) && it in v.lru && it in v.live && it in v.info
    requires Lists(Refresh(v, it, size, usage))
    ensures Accounted(Refresh(v, it, size, usage))
  {
    MovedDistinct(v.lru, it);
    var u := Refresh(v, it, size, usage);
    hide Without, NoDuplicates, Sum, Sizes;
    SizesChanged(v.live, it, v.info, u.info);
  }

  lemma RefreshIndexed(v: View, it: Item, size: nat, usage: nat)
    requires Lists(v) && Indexed(v) && it in v.lru && it in v.info
    ensures Indexed(Refresh(v, it, size, usage))
  {
    MovedDistinct(v.lru, it);
    var u := Refresh(v, it, size, usage);
    hide Without;
    forall h | h in u.tree ensures ChainOf(u, h, u.tree[h]) { assert ChainOf(v, h, v.tree[h]); }
  }

  lemma RefreshSound(v: View, it: Item, size: nat, usage: nat)
    requires Sound(v) && it in v.lru
    ensures it in v.info && Sound(Refresh(v, it, size, usage))
  {
    hide Lists, Linked, Accounted, Ordered, Indexed;
    LruInfo(v, it);
    RefreshLists(v, it, size, usage);
    MovedOrdered(v, it, size, usage);
    RefreshAccounted(v, it, size, usage);
    RefreshIndexed(v, it, size, usage);
    assert Counted(Refresh(v, it, size, usage)) by { hide Without; }
  }

  /** An item that may be stored: new, and with the key of the chain it joins, or with a new key. */
  ghost predicate Storable(v: View, it: Item) {
    && it !in v.live && it !in v.freed
    && (it.hash in v.tree ==> v.tree[it.hash] != [] && it.ckey == v.tree[it.hash][0].ckey && it.ckey in v.keys)
    && (it.hash !in v.tree ==> it.ckey !in v.keys)
  }

  lemma StoredLists(v: View, it: Item, size: nat, usage: nat)
    requires Lists(v) && Linked(v) && Storable(v, it)
    ensures Lists(Stored(v, it, size, usage)) && Linked(Stored(v, it, size, usage))
  {
  }

  lemma StoredCounted(v: View, it: Item, size: nat, usage: nat)
    requires Lists(v) && Counted(v) && Storable(v, it) && Lists(Stored(v, it, size, usage))
    ensures Counted(Stored(v, it, size, usage))
  {
    var u, k := Stored(v, it, size, usage), it.ckey;
    if k !in v.keys { NoneCounted(v.live, k, v.keys); }
    hide NoDuplicates, KeysOf, Count;
    forall x | x in u.keys ensures u.uses[x] == Count(KeysOf(u.live), x) > 0 {
      CountPush(v.live, it, x);
    }
  }

  lemma CountPush(s: seq<Item>, it: Item, x: Key)
    ensures Count(KeysOf(s + [it]), x) == Count(KeysOf(s), x) + (if it.ckey == x then 1 else 0)
  {
    assert KeysOf(s + [it]) == KeysOf(s) + [it.ckey];
    assert (KeysOf(s) + [it.ckey])[..|s|] == KeysOf(s);
  }

  lemma SizesPush(s: seq<Item>, it: Item, info: map<Item, Info>)
    requires it in info && forall x :: x in s ==> x in info
    ensures Sum(Sizes(s + [it], info)) == Sum(Sizes(s, info)) + info[it].size
  {
    var t := Sizes(s, info);
    assert Sizes(s + [it], info) == t + [info[it].size];
    assert (t + [info[it].size])[..|t|] == t;
  }

  lemma KeyLensPush(s: seq<Key>, k: Key)
    ensures Sum(KeyLens(s + [k])) == Sum(KeyLens(s)) + |k.d|
  {
    var t := KeyLens(s);
    assert KeyLens(s + [k]) == t + [|k.d|];
    assert (t + [|k.d|])[..|t|] == t;
  }

  lemma {:induction false} NoneCounted(s: seq<Item>, k: Key, keys: seq<Key>)
    requires (forall it :: it in s ==> it.ckey in keys) && k !in keys
    ensures Count(KeysOf(s), k) == 0
  {
    CountIn(KeysOf(s), k);
    forall i | 0 <= i < |s| ensures KeysOf(s)[i] != k { assert s[i] in s; }
  }

  lemma LiveInfo(v: View)
    requires Lists(v)
    ensures forall x :: x in v.live ==> x in v.info
    ensures forall k :: k in v.keys <==> k in v.uses
  {
  }

  lemma StoredAccounted(v: View, it: Item, size: nat, usage: nat)
    requires Lists(v) && Linked(v) && Accounted(v) && Storable(v, it) && Lists(Stored(v, it, size, usage))
    ensures Accounted(Stored(v, it, size, usage))
  {
    hide Lists, Linked, NoDuplicates, Sum, Sizes, KeyLens;
    var u, k := Stored(v, it, size, usage), it.ckey;
    LiveInfo(v);
    SizesSame(v.live, v.info, u.info);
    SizesPush(v.live, it, u.info);
    KeyLensPush(v.keys, k);
  }

  lemma StoredOrdered(v: View, it: Item, size: nat, usage: nat)
    requires Lists(v) && Linked(v) && Ordered(v) && Storable(v, it)
    requires Lists(Stored(v, it, size, usage)) && Linked(Stored(v, it, size, usage))
    ensures Ordered(Stored(v, it, size, usage))
  {
    var u := Stored(v, it, size, usage);
    hide NoDuplicates, Increasing;
    StampsSame(v.lru, v.info, u.info);
    var t := Stamps(v.lru, u.info);
    forall i | 0 <= i < |t| ensures t[i] < v.clock { assert v.lru[i] in v.lru; }
    IncreasingAppend(t, v.clock);
    assert Stamps(v.lru + [it], u.info) == t + [v.clock];
  }

  lemma LruLive(v: View)
    requires Lists(v) && Linked(v)
    ensures forall x :: x in v.lru ==> x in v.live
  {
  }

  lemma StoredIndexed(v: View, it: Item, size: nat, usage: nat)
    requires Lists(v) && Linked(v) && Indexed(v) && Storable(v, it)
    ensures Indexed(Stored(v, it, size, usage))
  {
    var u := Stored(v, it, size, usage);
    LruLive(v);
    hide Lists, Linked;
    forall h | h in u.tree ensures ChainOf(u, h, u.tree[h]) {
      if h in v.tree { assert ChainOf(v, h, v.tree[h]); }
    }
    forall x | x in u.lru ensures x.hash in u.tree && x in u.tree[x.hash] {
      if x != it { assert x in v.tree[x.hash]; }
    }
  }

  lemma StoredSound(v: View, it: Item, size: nat, usage: nat)
    requires Sound(v) && Storable(v, it)
    ensures Sound(Stored(v, it, size, usage))
  {
    hide Lists, Linked, Counted, Accounted, Ordered, Indexed, Stored, Storable;
    StoredLists(v, it, size, usage);
    StoredCounted(v, it, size, usage);
    StoredAccounted(v, it, size, usage);
    StoredOrdered(v, it, size, usage);
    StoredIndexed(v, it, size, usage);
  }

  // ----- releasing and evicting -----

  /** No new items, no new links, no more memory. */
  ghost predicate Shrunk(v: View, u: View) {
    && u.mem <= v.mem && u.len <= v.len
    && (forall h :: h in u.tree ==> h in v.tree && |u.tree[h]| <= |v.tree[h]|)
  }

  /** Releasing keeps everything else as it is; what is freed is freed because nobody refers to it. */
  lemma ReleaseSound(v: View, it: Item)
    requires Sound(v) && Held(v) && it in v.lru
    ensures it in v.info && it.ckey in v.uses && it in v.live
    ensures
      var u := Release(v, it);
      && Sound(u) && Held(u) && Shrunk(v, u) && u.lru == Without(v.lru, it)
      && (if v.info[it].usage == 0 then u.freed == v.freed + [it] && u.live == Without(v.live, it) && u.info == v.info - {it}
          else u.freed == v.freed && u.live == v.live && u.info == v.info[it := v.info[it].(unlinked := true)])
  {
    hide Counted, Accounted, Ordered, Indexed, Linked, Pruned;
    LruInfo(v, it);
    KeyHeld(v, it);
    UnlinkSound(v, it);
    var u := Unlink(v, it);
    if v.info[it].usage == 0 {
      FreeSound(u, it);
      RestHeld(v, it);
    }
  }

  lemma RestHeld(v: View, it: Item)
    requires Lists(v) && Held(v) && it in v.live && it in v.info && it.ckey in v.uses
    requires var u := Unlink(v, it); Lists(u) && Lists(Free(u, it))
    ensures var u := Unlink(v, it); u.info - {it} == v.info - {it} && Held(Free(u, it))
  {
    FreeHeld(Unlink(v, it), it);
    assert Unlink(v, it).info - {it} == v.info - {it};
  }

  /** Items that nobody refers to. */
  ghost predicate Unused(v: View, it: Item) {
    it in v.info && v.info[it].usage == 0
  }

  /** rm_unused_one from the i-th item of the list on. */
  ghost function EvictOne(v: View, i: nat): (View, bool)
    requires Sound(v) && Held(v) && i <= |v.lru|
    decreases |v.lru| - i
  {
    if i == |v.lru| then (v, false)
    else if Unused(v, v.lru[i]) then
      ReleaseSound(v, v.lru[i]);
      (Release(v, v.lru[i]), true)
    else EvictOne(v, i + 1)
  }

  /** Of the items nobody refers to, the one used the longest ago. */
  ghost predicate Earliest(v: View, it: Item) {
    && it in v.lru && Unused(v, it)
    && forall x :: x in v.lru && Unused(v, x) ==> v.info[it].stamp <= v.info[x].stamp
  }

  lemma EarliestAt(v: View, i: nat)
    requires Lists(v) && Linked(v) && Ordered(v) && i < |v.lru| && Unused(v, v.lru[i])
    requires forall k :: 0 <= k < i ==> !Unused(v, v.lru[k])
    ensures Earliest(v, v.lru[i])
  {
    var it, t := v.lru[i], Stamps(v.lru, v.info);
    forall x | x in v.lru && Unused(v, x) ensures v.info[it].stamp <= v.info[x].stamp {
      var k :| 0 <= k < |v.lru| && v.lru[k] == x;
      assert t[i] == v.info[it].stamp && t[k] == v.info[x].stamp;
    }
  }

  lemma {:induction false} EvictOneEarliest(v: View, i: nat) returns (it: Item?)
    requires Sound(v) && Held(v) && i <= |v.lru|
    requires forall k :: 0 <= k < i ==> !Unused(v, v.lru[k])
    ensures EvictOne(v, i).1 ==> it != null && Earliest(v, it) && it.ckey in v.uses && EvictOne(v, i).0 == Release(v, it)
    ensures !EvictOne(v, i).1 ==> EvictOne(v, i).0 == v && forall x :: x in v.lru ==> !Unused(v, x)
    decreases |v.lru| - i
  {
    hide Release, Counted, Indexed, Accounted;
    if i == |v.lru| {
      it := null;
    } else if Unused(v, v.lru[i]) {
      it := v.lru[i];
      ReleaseSound(v, it);
      EarliestAt(v, i);
    } else {
      it := EvictOneEarliest(v, i + 1);
    }
  }

  /** rm_unused_mem from the i-th item on: release what nobody refers to until there is room. */
  ghost function EvictMem(v: View, i: nat, need: nat, limit: nat): (View, bool)
    requires Sound(v) && Held(v) && i <= |v.lru|
    decreases |v.lru| - i
  {
    if i == |v.lru| then (v, false)
    else if Unused(v, v.lru[i]) then
      ReleaseSound(v, v.lru[i]);
      WithoutDistinct(v.lru, v.lru[i]);
      var u := Release(v, v.lru[i]);
      if u.mem + need <= limit then (u, true) else EvictMem(u, i, need, limit)
    else EvictMem(v, i + 1, need, limit)
  }

  /**
   * The walk as it is written: after a release that is not enough it goes on through the link of the
   * item released, which has been cleared and freed.  None: it has come to that.
   */
  ghost function WalkedOnce(v: View, i: nat, need: nat, limit: nat): Option<(View, bool)>
    requires Sound(v) && Held(v) && i <= |v.lru|
    decreases |v.lru| - i
  {
    if i == |v.lru| then Some((v, false))
    else if Unused(v, v.lru[i]) then
      ReleaseSound(v, v.lru[i]);
      var u := Release(v, v.lru[i]);
      if u.mem + need <= limit then Some((u, true)) else None
    else WalkedOnce(v, i + 1, need, limit)
  }

  /** That happens if and only if the first item to be released does not make enough room; otherwise
      the walk does what is meant. */
  lemma {:induction false} WalkExact(v: View, i: nat, need: nat, limit: nat) returns (it: Item?)
    requires Sound(v) && Held(v) && i <= |v.lru|
    requires forall k :: 0 <= k < i ==> !Unused(v, v.lru[k])
    ensures it == null <==> forall x :: x in v.lru ==> !Unused(v, x)
    ensures it != null ==> Earliest(v, it) && it.ckey in v.uses
    ensures WalkedOnce(v, i, need, limit).None? <==> it != null && Release(v, it).mem + need > limit
    ensures WalkedOnce(v, i, need, limit).Some? ==> WalkedOnce(v, i, need, limit).value == EvictMem(v, i, need, limit)
    decreases |v.lru| - i
  {
    hide Counted, Accounted, Indexed, Release, Ordered;
    if i == |v.lru| {
      it := null;
    } else if Unused(v, v.lru[i]) {
      it := v.lru[i];
      EarliestAt(v, i);
      ReleaseSound(v, it);
    } else {
      it := WalkExact(v, i + 1, need, limit);
    }
  }

  /** Only items that nobody refers to are gone; the others are as they were. */
  ghost predicate Spared(v: View, u: View) {
    && (forall x :: x in u.live ==> x in v.live && x in v.info && x in u.info && u.info[x] == v.info[x])
    && (forall x :: x in v.live && !Unused(v, x) ==> x in u.live)
    && (forall x :: x in v.lru && !Unused(v, x) ==> x in u.lru) && (forall x :: x in u.lru ==> x in v.lru)
    && v.freed <= u.freed && u.clock == v.clock && (forall x :: x in u.freed ==> x in v.freed || x in v.live)
    && (forall x :: x in v.live ==> x in u.live || x in u.freed)
    && (forall k :: k in u.keys ==> k in v.keys)
  }

  lemma ReleaseSpares(v: View, it: Item)
    requires Sound(v) && Held(v) && it in v.lru && Unused(v, it)
    ensures it in v.info && it.ckey in v.uses
    ensures
      var u := Release(v, it);
      Sound(u) && Held(u) && Shrunk(v, u) && Spared(v, u) && u.lru == Without(v.lru, it) && |u.lru| == |v.lru| - 1
  {
    hide Counted, Accounted, Ordered, Indexed, Linked, Lists, Without, Release, Spared, Shrunk;
    ReleaseSound(v, it);
    UnusedUsage(v, it);
    ReleaseKeys(v, it);
    SparesOne(v, it, Release(v, it));
  }

  lemma UnusedUsage(v: View, it: Item)
    requires it in v.info
    ensures Unused(v, it) <==> v.info[it].usage == 0
  {
  }

  lemma SparesOne(v: View, it: Item, u: View)
    requires Lists(v) && it in v.lru && it in v.live && Unused(v, it)
    requires u.live == Without(v.live, it) && u.info == v.info - {it} && u.freed == v.freed + [it]
    requires u.lru == Without(v.lru, it) && u.clock == v.clock && forall k :: k in u.keys ==> k in v.keys
    ensures Spared(v, u) && |u.lru| == |v.lru| - 1
  {
    WithoutDistinct(v.lru, it);
    WithoutDistinct(v.live, it);
    hide Without, NoDuplicates;
  }

  lemma ReleaseKeys(v: View, it: Item)
    requires Lists(v) && it in v.info && it.ckey in v.uses
    ensures Release(v, it).clock == v.clock && forall k :: k in Release(v, it).keys ==> k in v.keys
  {
    hide Lists, NoDuplicates, Without, Pruned;
    WithoutFew(v.keys, it.ckey);
  }

  lemma WithoutFew(s: seq<Key>, k: Key)
    ensures forall x :: x in Without(s, k) ==> x in s
  {
  }

  lemma SparedTwice(v: View, u: View, w: View)
    requires Spared(v, u) && Spared(u, w) && Shrunk(v, u) && Shrunk(u, w) && Lists(v) && Lists(u)
    ensures Spared(v, w) && Shrunk(v, w)
  {
  }

  /** Items before the i-th are the same in a list without the i-th. */
  lemma WithoutPrefix(s: seq<Item>, i: nat)
    requires NoDuplicates(s) && i < |s|
    ensures Without(s, s[i]) == s[..i] + s[i + 1..]
  {
    assert Index(s, s[i]) == i;
  }

  lemma {:induction false} EvictMemRight(v: View, i: nat, need: nat, limit: nat)
    requires Sound(v) && Held(v) && i <= |v.lru|
    requires forall k :: 0 <= k < i ==> !Unused(v, v.lru[k])
    ensures
      var (u, enough) := EvictMem(v, i, need, limit);
      && Sound(u) && Held(u) && Shrunk(v, u) && Spared(v, u)
      && (enough ==> u.mem + need <= limit)
      && (!enough ==> forall x :: x in u.lru ==> !Unused(u, x))
    decreases |v.lru| - i
  {
    hide Counted, Accounted, Indexed, Release, Ordered;
    if i < |v.lru| {
      var it := v.lru[i];
      if Unused(v, it) {
        ReleaseSpares(v, it);
        WithoutPrefix(v.lru, i);
        var u := Release(v, it);
        if u.mem + need > limit {
          forall k | 0 <= k < i ensures !Unused(u, u.lru[k]) { assert u.lru[k] == v.lru[k]; }
          EvictMemRight(u, i, need, limit);
          SparedTwice(v, u, EvictMem(u, i, need, limit).0);
        }
      } else {
        EvictMemRight(v, i + 1, need, limit);
      }
    }
  }

  /** Nothing is evicted that need not be: before the last one goes there is not enough room. */
  lemma {:induction false} EvictMemNeeded(v: View, i: nat, need: nat, limit: nat) returns (w: View, it: Item?)
    requires Sound(v) && Held(v) && i <= |v.lru| && v.mem + need > limit
    requires forall k :: 0 <= k < i ==> !Unused(v, v.lru[k])
    ensures EvictMem(v, i, need, limit).1 ==>
      && Sound(w) && Held(w) && w.mem + need > limit
      && it != null && Earliest(w, it) && it.ckey in w.uses && EvictMem(v, i, need, limit).0 == Release(w, it)
    decreases |v.lru| - i
  {
    hide Counted, Accounted, Indexed, Release;
    w, it := v, null;
    if i < |v.lru| {
      it := v.lru[i];
      if Unused(v, it) {
        ReleaseSpares(v, it);
        WithoutPrefix(v.lru, i);
        var u := Release(v, it);
        if u.mem + need > limit {
          forall k | 0 <= k < i ensures !Unused(u, u.lru[k]) { assert u.lru[k] == v.lru[k]; }
          w, it := EvictMemNeeded(u, i, need, limit);
        } else {
          EarliestAt(v, i);
        }
      } else {
        w, it := EvictMemNeeded(v, i + 1, need, limit);
      }
    }
  }

  // ----- the cache -----

  ghost function Elems<T>(s: seq<T>): set<T> {
    set x | x in s
  }

  ghost function Infos(s: seq<Item>): map<Item, Info>
    reads s
  {
    map it | it in s :: if it in s then Info(|it.data|, it.usage, it.unlinked, it.stamp) else NoInfo
  }

  ghost function UsesOf(s: seq<Key>): map<Key, nat>
    reads s
  {
    map k | k in s :: if k in s then k.usage else 0
  }

  /** The next item of a chain, going round. */
  function NextIn(c: seq<Item>, it: Item): Item
    requires it in c
  {
    var i := Index(c, it) + 1;
    if i == |c| then c[0] else c[i]
  }

  class Cache {
    const conf: Conf
    var items: map<nat, seq<Item>>
    var len: int
    var lastused: seq<Item>
    var memsize: int
    var hits: nat
    var misses: nat
    ghost var live: seq<Item>
    ghost var keys: seq<Key>
    ghost var freed: seq<Item>
    ghost var clock: nat

    ghost function State(): View
      reads this, live, keys
    {
      View(live, keys, Infos(live), UsesOf(keys), lastused, items, memsize, len, freed, clock)
    }

    ghost predicate Valid()
      reads this, live, keys
    {
      Good(State(), conf)
    }

    /** ffcache_create */
    constructor (conf: Conf)
      ensures Valid() && this.conf == conf && live == [] && freed == [] && memsize == 0
    {
      this.conf := conf;
      items, lastused, len, memsize, hits, misses := map[], [], 0, 0, 0, 0;
      live, keys, freed, clock := [], [], [], 0;
    }

    /** Give up the reference to a key: the length of the key if it was the last one. */
    method KeyUnref(k: Key) returns (n: nat)
      requires k in keys && k.usage > 0
      modifies k`usage, this`keys
      ensures k.usage == old(k.usage) - 1
      ensures if old(k.usage) == 1 then n == |k.d| && keys == Without(old(keys), k) else n == 0 && keys == old(keys)
    {
      n := 0;
      k.usage := k.usage - 1;
      if k.usage == 0 {
        n := |k.d|;
        keys := Without(keys, k);
      }
    }

    /** item_fin */
    method ItemFin(cit: Item)
      requires Sound(State()) && cit in live && cit.unlinked && cit.usage == 0
      modifies this`memsize, this`live, this`freed, this`keys, cit.ckey`usage
      ensures cit.ckey in old(State()).uses && State() == Free(old(State()), cit)
    {
      hide Sound, Lists, Linked, Indexed, Accounted, Ordered, Counted, Without, NoDuplicates, Free;
      ghost var v := State();
      SoundParts(v);
      KeyHeld(v, cit);
      var n := KeyUnref(cit.ckey);
      memsize := memsize - (n + |cit.data|);
      live := Without(live, cit);
      freed := freed + [cit];
      FinState(v, State(), cit);
    }

    /** item_rlz */
    method ItemRlz(cit: Item)
      requires Sound(State()) && cit in lastused
      modifies this`memsize, this`live, this`freed, this`keys, this`items, this`lastused, this`len
      modifies cit`unlinked, cit.ckey`usage
      ensures cit in old(State()).info && cit.ckey in old(State()).uses
      ensures State() == Release(old(State()), cit)
    {
      hide Lists, Linked, Counted, Indexed, Accounted, Ordered, Without, NoDuplicates, Pruned, Free;
      ghost var v := State();
      LruInfo(v, cit);
      KeyHeld(v, cit);
      UnlinkSound(v, cit);
      items := Pruned(items, cit);
      len := len - 1;
      lastused := Without(lastused, cit);
      cit.unlinked := true;
      assert Infos(live) == v.info[cit := v.info[cit].(unlinked := true)];
      assert State() == Unlink(v, cit);
      if cit.usage == 0 {
        ItemFin(cit);
      }
    }

    /** rm_unused_one */
    method RmUnusedOne() returns (ok: bool)
      requires Sound(State()) && Held(State())
      modifies this, Elems(live)`unlinked, Elems(keys)`usage
      ensures (State(), ok) == EvictOne(old(State()), 0)
    {
      hide Sound, Held, Release, Unused;
      ghost var v := State();
      var i := 0;
      while i < |lastused|
        invariant 0 <= i <= |lastused| && State() == v && EvictOne(v, 0) == EvictOne(v, i)
      {
        var cit := lastused[i];
        SoundLru(v, cit);
        if cit.usage == 0 {
          ItemRlz(cit);
          return true;
        }
        i := i + 1;
      }
      ok := false;
    }

    /** rm_unused_mem, which takes the next link of an item before it releases the item. */
    method RmUnusedMem(need: nat) returns (ok: bool)
      requires Sound(State()) && Held(State())
      modifies this, Elems(live)`unlinked, Elems(keys)`usage
      ensures (State(), ok) == EvictMem(old(State()), 0, need, conf.memLimit)
      ensures Elems(live) <= Elems(old(live)) && Elems(keys) <= Elems(old(keys))
    {
      hide Sound, Held, Release, Unused, Spared;
      ghost var v := State();
      var i := 0;
      while i < |lastused|
        invariant 0 <= i <= |lastused| && Steady(State())
        invariant EvictMem(v, 0, need, conf.memLimit) == EvictMem(State(), i, need, conf.memLimit)
        invariant Elems(live) <= Elems(v.live) && Elems(keys) <= Elems(v.keys)
        decreases |lastused| - i
      {
        var cit := lastused[i];
        ghost var u := State();
        SoundLru(u, cit);
        if cit.usage == 0 {
          ReleaseSpares(u, cit);
          SparedParts(u, Release(u, cit));
          ItemRlz(cit);
          if memsize + need <= conf.memLimit {
            return true;
          }
        } else {
          i := i + 1;
        }
      }
      ok := false;
    }

    /** The item a fetch is about; the counters of a search by name. */
    method Find(id: Item?, key: string, hash: nat, next: bool) returns (er: Error, it: Item?)
      requires Valid() && (id != null ==> id in lastused || !next || !conf.multi)
      modifies this`hits, this`misses
      ensures (er, it) == Target(State(), conf, id, key, hash, next)
      ensures hits == old(hits) + (if !next && id == null && er == Ok then 1 else 0)
      ensures misses == old(misses) + (if !next && id == null && er != Ok then 1 else 0)
    {
      TargetLinked(State(), conf, id, key, hash, next);
      hide Steady, Bounded;
      if next {
        if !conf.multi || id == null {
          return ESys, null;
        }
        if |items[id.hash]| == 1 {
          return ENotFound, null;
        }
        return Ok, NextIn(items[id.hash], id);
      }
      if id != null {
        return Ok, id;
      }
      if hash !in items {
        misses := misses + 1;
        return ENotFound, null;
      }
      var found := items[hash][0];
      if !KeyEqual(found.ckey.d, key, conf.icase) {
        misses := misses + 1;
        return EColl, null;
      }
      hits := hits + 1;
      return Ok, found;
    }

    /** A fetch that takes the item out of the cache. */
    method Acquire(cit: Item) returns (er: Error)
      requires Valid() && cit in live && (cit in lastused || cit.usage != 0)
      modifies this`memsize, this`live, this`freed, this`keys, this`items, this`lastused, this`len
      modifies cit`usage, cit`unlinked, cit.ckey`usage
      ensures Valid() && cit in old(State()).info
      ensures
        var v := old(State());
        if v.info[cit].usage != 0 then er == ELocked && State() == v
        else er == Ok && State() == Unlink(Recounted(v, cit, 1), cit)
    {
      hide Sound, Held, Bounded, Release, Unlink, Recounted;
      ghost var v := State();
      LinkedOrUsed(v, conf, cit);
      if cit.usage != 0 {
        return ELocked;
      }
      AcquireGood(v, conf, cit);
      RecountedSound(v, cit, 1);
      SetUsage(cit, 1, v);
      RecountedLru(v, cit, 1);
      ItemRlz(cit);
      er := Ok;
    }

    /** A change of one reference count. */
    method SetUsage(cit: Item, usage: nat, ghost v: View)
      requires cit in live && v == State() && cit in v.info
      modifies cit`usage
      ensures State() == Recounted(v, cit, usage) && cit.usage == usage
    {
      cit.usage := usage;
      assert Infos(live) == v.info[cit := v.info[cit].(usage := usage)];
    }

    /** A fetch that refers to the item. */
    method Refer(cit: Item, refs: nat) returns (er: Error)
      requires Valid() && cit in live && (cit in lastused || refs == 0)
      modifies this`lastused, this`clock, cit`usage, cit`stamp
      ensures Valid() && cit in old(State()).info
      ensures
        var v := old(State());
        if refs == 0 then er == ESys && State() == v
        else er == Ok && State() == Refresh(v, cit, v.info[cit].size, v.info[cit].usage + refs)
    {
      hide Sound, Held, Bounded, Good, Infos, UsesOf, Refresh;
      ghost var v := State();
      GoodSound(v, conf);
      LinkedOrUsed(v, conf, cit);
      if refs == 0 {
        return ESys;
      }
      SoundLru(v, cit);
      SizeOf(cit);
      LinkedLru(v, cit);
      GoodMem(v, conf);
      RefreshGood(v, conf, cit, v.info[cit].size, v.info[cit].usage + refs);
      RefreshIs(v, cit, v.info[cit].size, v.info[cit].usage + refs);
      SetUsage(cit, cit.usage + refs, v);
      Touch(cit);
      assert State() == Refresh(v, cit, v.info[cit].size, v.info[cit].usage + refs);
      er := Ok;
    }

    /** ffcache_fetch; an item named by its identity is linked where its links are followed. */
    method Fetch(id: Item?, key: string, hash: nat, refs: nat, next: bool, acquire: bool) returns (er: Error, it: Item?)
      requires Valid() && MayFetch(State(), conf, id, refs, next, acquire)
      modifies this, Elems(live)`unlinked, Elems(live)`usage, Elems(live)`stamp, Elems(keys)`usage
      ensures Valid()
      ensures Fetched(old(State()), conf, Target(old(State()), conf, id, key, hash, next), refs, acquire, er, it, State())
      ensures
        var found := Target(old(State()), conf, id, key, hash, next).0 == Ok;
        && hits == old(hits) + (if !next && id == null && found then 1 else 0)
        && misses == old(misses) + (if !next && id == null && !found then 1 else 0)
    {
      hide Good, Release, Unlink, Recounted, Refresh, Target;
      ghost var v := State();
      er, it := Find(id, key, hash, next);
      if er != Ok {
        return er, null;
      }
      FoundLinked(v, conf, id, key, hash, refs, next, acquire);
      if acquire {
        er := Acquire(it);
      } else {
        er := Refer(it, refs);
      }
      if er != Ok {
        it := null;
      }
    }

    /** fflist_moveback on the list of last use. */
    method Touch(cit: Item)
      requires cit in live && !cit.unlinked
      modifies this`lastused, this`clock, cit`stamp
      ensures lastused == Without(old(lastused), cit) + [cit] && clock == old(clock) + 1
      ensures Infos(live) == old(Infos(live))[cit := Info(|cit.data|, cit.usage, false, old(clock))]
    {
      lastused := Without(lastused, cit) + [cit];
      cit.stamp := clock;
      clock := clock + 1;
    }

    /** Room for a key and data, by evicting what nobody refers to. */
    method MakeRoom(need: nat) returns (er: Error)
      requires Valid()
      modifies this, Elems(live)`unlinked, Elems(keys)`usage
      ensures Valid() && (er, State()) == Room(old(State()), conf, need)
      ensures Elems(live) <= Elems(old(live)) && Elems(keys) <= Elems(old(keys))
    {
      hide Sound, Held, Bounded, Release, Spared, Shrunk, EvictOne, EvictMem;
      ghost var v := State();
      RoomRight(v, conf, need);
      EvictOneKeeps(v, 0);
      SparedParts(v, Room(v, conf, need).1);
      if len == conf.maxItems {
        SparedParts(v, EvictOne(v, 0).0);
        var ok := RmUnusedOne();
        if !ok {
          return ENumLimit;
        }
        assert live == EvictOne(v, 0).0.live && keys == EvictOne(v, 0).0.keys;
      }
      assert Elems(live) <= Elems(v.live) && Elems(keys) <= Elems(v.keys);
      if memsize + need > conf.memLimit {
        var ok := RmUnusedMem(need);
        if !ok {
          return EMemLimit;
        }
      }
      er := Ok;
    }

    /** A new item goes into the tree, at the end of the chain of its hash, and into the list. */
    method Enter(it: Item)
      modifies this`items, this`lastused, this`len, this`memsize, this`live, this`clock
      ensures items == old(items)[it.hash := (if it.hash in old(items) then old(items)[it.hash] + [it] else [it])]
      ensures len == old(len) + 1 && memsize == old(memsize) + |it.data|
      ensures lastused == old(lastused) + [it] && live == old(live) + [it] && clock == old(clock) + 1
      ensures Infos(live) == old(Infos(live))[it := Info(|it.data|, it.usage, it.unlinked, it.stamp)]
    {
      InfosPush(live, it);
      hide Infos;
      items := items[it.hash := (if it.hash in items then items[it.hash] + [it] else [it])];
      len := len + 1;
      memsize := memsize + |it.data|;
      lastused := lastused + [it];
      live, clock := live + [it], clock + 1;
    }

    /** A new item with a new key. */
    method LinkNew(it: Item)
      requires Valid() && it !in live && it !in freed && it.hash !in items && it.ckey !in keys && it.ckey.usage == 1
      requires !it.unlinked && it.stamp == clock
      requires len < conf.maxItems && memsize + |it.ckey.d| + |it.data| <= conf.memLimit
      modifies this`items, this`lastused, this`len, this`memsize, this`live, this`keys, this`clock
      ensures Valid() && State() == Stored(old(State()), it, |it.data|, it.usage)
    {
      hide Good, Storable, Stored, Infos, UsesOf;
      ghost var v := State();
      MayStore(v, it);
      StoredGood(v, conf, it, |it.data|, it.usage);
      StoredIs(v, it, |it.data|, it.usage);
      UsesPush(keys, it.ckey);
      memsize := memsize + |it.ckey.d|;
      keys := keys + [it.ckey];
      Enter(it);
      assert State() == Stored(v, it, |it.data|, it.usage);
    }

    /** A new item joins the chain of its hash, and shares its key. */
    method LinkShared(it: Item)
      requires Valid() && it !in live && it !in freed && it.hash in items && conf.multi
      requires items[it.hash] != [] && it.ckey == items[it.hash][0].ckey && it.ckey in keys
      requires !it.unlinked && it.stamp == clock
      requires len < conf.maxItems && memsize + |it.ckey.d| + |it.data| <= conf.memLimit
      modifies this`items, this`lastused, this`len, this`memsize, this`live, this`clock, it.ckey`usage
      ensures Valid() && State() == Stored(old(State()), it, |it.data|, it.usage)
    {
      hide Good, Storable, Stored, Infos;
      ghost var v := State();
      MayStore(v, it);
      StoredGood(v, conf, it, |it.data|, it.usage);
      StoredIs(v, it, |it.data|, it.usage);
      it.ckey.usage := it.ckey.usage + 1;
      assert UsesOf(keys) == v.uses[it.ckey := v.uses[it.ckey] + 1];
      hide UsesOf;
      Enter(it);
      assert State() == Stored(v, it, |it.data|, it.usage);
    }

    /** The first item of a key. */
    method StoreNew(key: string, hash: nat, data: string, refs: nat) returns (it: Item)
      requires Valid() && hash !in items && len < conf.maxItems && memsize + |key| + |data| <= conf.memLimit
      modifies this`items, this`lastused, this`len, this`memsize, this`live, this`keys, this`clock
      ensures Valid() && State() == Stored(old(State()), it, |data|, refs)
      ensures fresh(it) && it.hash == hash && it.data == data && it.usage == refs && it !in old(live) && it !in old(freed)
      ensures fresh(it.ckey) && it.ckey !in old(keys) && it.ckey.d == (if conf.icase then Lower(key) else key)
    {
      hide Good, Stored, Lower;
      ghost var w := State();
      var k := new Key(if conf.icase then Lower(key) else key);
      it := new Item(hash, k, data, refs, clock);
      assert State() == w;
      LinkNew(it);
    }

    /** A further item of the key 'k'. */
    method StoreShared(k: Key, hash: nat, data: string, refs: nat) returns (it: Item)
      requires Valid() && hash in items && items[hash] != [] && k == items[hash][0].ckey && k in keys && conf.multi
      requires len < conf.maxItems && memsize + |k.d| + |data| <= conf.memLimit
      modifies this`items, this`lastused, this`len, this`memsize, this`live, this`clock, k`usage
      ensures Valid() && State() == Stored(old(State()), it, |data|, refs)
      ensures fresh(it) && it.hash == hash && it.data == data && it.usage == refs && it !in old(live) && it !in old(freed)
      ensures it.ckey == k
    {
      hide Good, Stored;
      ghost var w := State();
      it := new Item(hash, k, data, refs, clock);
      assert State() == w;
      LinkShared(it);
    }

    /** A store, once there is room. */
    method StoreInto(key: string, hash: nat, data: string, refs: nat) returns (er: Error, it: Item?)
      requires Valid() && len < conf.maxItems && memsize + |key| + |data| <= conf.memLimit
      modifies this, Elems(keys)`usage
      ensures Valid() && StoredInto(old(State()), conf, key, hash, data, refs, er, it, State())
      ensures er == Ok ==> it != null && fresh(it) && it.data == data && it.usage == refs
      ensures er == Ok && it != null ==> it.ckey in old(keys) || fresh(it.ckey)
    {
      hide Good, Stored, KeyEqual, Lower;
      ghost var w := State();
      if hash !in items {
        it := StoreNew(key, hash, data, refs);
        return Ok, it;
      }
      GoodSound(w, conf);
      ChainKey(w, hash);
      var found := items[hash][0];
      if !KeyEqual(found.ckey.d, key, conf.icase) {
        return EColl, null;
      }
      if !conf.multi {
        return EExists, null;
      }
      SameLength(found.ckey.d, key, conf.icase);
      it := StoreShared(found.ckey, hash, data, refs);
      er := Ok;
    }

    /** ffcache_store */
    method Store(key: string, hash: nat, data: string, refs: nat) returns (er: Error, it: Item?)
      requires Valid()
      modifies this, Elems(live)`unlinked, Elems(keys)`usage
      ensures Valid()
      ensures StoreOutcome(old(State()), conf, key, hash, data, refs, er, it, State())
      ensures er == Ok ==> it != null && fresh(it) && it.data == data && it.usage == refs
    {
      hide Good, Spared, Stored, Room, Shrunk, StoredInto;
      ghost var v := State();
      if |key| > MAX_KEYLEN {
        return ESzLimit, null;
      }
      if |data| > conf.maxData {
        return ESzLimit, null;
      }
      RoomRight(v, conf, |key| + |data|);
      er := MakeRoom(|key| + |data|);
      if er != Ok {
        return er, null;
      }
      er, it := StoreInto(key, hash, data, refs);
    }

    /** ffcache_update, of an item that has not been freed. */
    method Update(cit: Item, data: string) returns (er: Error)
      requires Valid() && cit in live
      modifies this, Elems(live)`unlinked, Elems(keys)`usage, cit`data, cit`stamp
      ensures Valid()
      ensures cit in old(State()).info && UpdateOutcome(old(State()), conf, cit, |data|, er, State())
      ensures cit in live && cit.data == if er == Ok then data else old(cit.data)
    {
      hide Sound, Held, Bounded, Refresh, EvictMem;
      GoodLive(State(), conf, cit);
      if |data| > conf.maxData {
        return ESzLimit;
      }
      if cit.unlinked {
        return ENotFound;
      }
      if cit.usage != 1 {
        return ELocked;
      }
      er := UpdateHeld(cit, data);
    }

    /** An update by the only one who refers to the item. */
    method UpdateHeld(cit: Item, data: string) returns (er: Error)
      requires Valid() && cit in lastused && cit.usage == 1
      modifies this, Elems(live)`unlinked, Elems(keys)`usage, cit`data, cit`stamp
      ensures Valid() && cit in live && cit in old(State()).info
      ensures Updated(old(State()), conf, cit, |data|, er, State())
      ensures cit.data == if er == Ok then data else old(cit.data)
    {
      hide Good, Sound, Held, Refresh, EvictMem, Release, Infos;
      ghost var v := State();
      GoodSound(v, conf);
      SoundLru(v, cit);
      SizeOf(cit);
      var delta := |data| - |cit.data|;
      if memsize + delta > conf.memLimit {
        er := UpdateEvict(cit, delta);
        if er != Ok {
          return;
        }
      }
      ghost var w := State();
      Replace(cit, data, delta);
      assert State() == Refresh(w, cit, |data|, 1);
      er := Ok;
      GoodSound(State(), conf);
      RefreshLive(w, cit, |data|);
    }

    lemma SizeOf(cit: Item)
      requires cit in live
      ensures cit in State().info && State().info[cit] == Info(|cit.data|, cit.usage, cit.unlinked, cit.stamp)
    {
    }

    /** Room for the longer data of an item. */
    method UpdateEvict(cit: Item, delta: int) returns (er: Error)
      requires Valid() && cit in lastused && cit.usage == 1 && memsize + delta > conf.memLimit
      modifies this, Elems(live)`unlinked, Elems(keys)`usage
      ensures Valid() && cit in lastused && cit in live && cit.usage == 1 && delta >= 0
      ensures cit in old(State()).info && cit in State().info && State().info[cit] == old(State()).info[cit]
      ensures State() == EvictMem(old(State()), 0, delta, conf.memLimit).0
      ensures er == if EvictMem(old(State()), 0, delta, conf.memLimit).1 then Ok else EMemLimit
      ensures er == Ok ==> memsize + delta <= conf.memLimit
    {
      ghost var v := State();
      GoodSound(v, conf);
      hide Good, Release, Spared, Sound;
      GoodMem(v, conf);
      SoundLru(v, cit);
      LinkedLru(v, cit);
      UpdateRoom(v, conf, cit, delta);
      var ok := RmUnusedMem(delta);
      er := if ok then Ok else EMemLimit;
    }

    /** item_copydata */
    method SetData(cit: Item, data: string)
      requires cit in live
      modifies cit`data
      ensures cit.data == data
      ensures Infos(live) == old(Infos(live))[cit := Info(|data|, cit.usage, cit.unlinked, old(cit.stamp))]
    {
      cit.data := data;
    }

    /** New data for a linked item. */
    method Replace(cit: Item, data: string, delta: int)
      requires Valid() && cit in lastused && cit.usage == 1 && delta == |data| - |cit.data|
      requires memsize + delta <= conf.memLimit
      modifies this`memsize, this`lastused, this`clock, cit`data, cit`stamp
      ensures Valid() && cit in old(State()).info && State() == Refresh(old(State()), cit, |data|, 1)
      ensures cit.data == data
    {
      hide Good, Sound, Steady, Refresh, Infos, UsesOf;
      ghost var v := State();
      GoodSound(v, conf);
      SoundLru(v, cit);
      LinkedLru(v, cit);
      SizeOf(cit);
      RefreshGood(v, conf, cit, |data|, 1);
      RefreshIs(v, cit, |data|, 1);
      SetData(cit, data);
      memsize := memsize + delta;
      Touch(cit);
      assert State() == Refresh(v, cit, |data|, 1);
    }

    /** ffcache_unref */
    method Unref(cit: Item, remove: bool)
      requires Valid() && cit in live && cit.usage != 0
      modifies this`memsize, this`live, this`freed, this`keys, this`items, this`lastused, this`len
      modifies cit`usage, cit`unlinked, cit.ckey`usage
      ensures Valid() && cit in old(State()).info && cit.ckey in old(State()).uses
      ensures State() == Unrefd(old(State()), cit, old(cit.usage) - 1, remove)
    {
      hide Good, Sound, Release, Free, Recounted;
      ghost var v := State();
      GoodSound(v, conf);
      UnrefdGood(v, conf, cit, cit.usage - 1, remove);
      UnlinkedLru(v, conf, cit, cit.usage - 1);
      SetUsage(cit, cit.usage - 1, v);
      if remove && !cit.unlinked {
        ItemRlz(cit);
        return;
      }
      if cit.unlinked && cit.usage == 0 {
        ItemFin(cit);
      }
    }

    /** item_onexpire */
    method Expire(cit: Item)
      requires Valid() && cit in lastused
      modifies this`memsize, this`live, this`freed, this`keys, this`items, this`lastused, this`len
      modifies cit`unlinked, cit.ckey`usage
      ensures Valid() && cit in old(State()).info && cit.ckey in old(State()).uses
      ensures State() == Release(old(State()), cit)
    {
      hide Good, Sound, Release;
      GoodSound(State(), conf);
      ExpiredGood(State(), conf, cit);
      ItemRlz(cit);
    }

    /**
     * ffcache_reset: hash by hash from the least, first the siblings of the tree's item and then the
     * item itself.  Only what somebody refers to is left, and nothing is linked.
     */
    method Reset()
      requires Valid()
      modifies this, Elems(live)`unlinked, Elems(keys)`usage
      ensures Valid() && lastused == [] && items == map[] && len == 0
      ensures Kept(old(State()), State()) && forall it :: it in live ==> it.usage > 0
    {
      hide Sound, Held, Bounded, Release, Kept, Good;
      ghost var v := State();
      GoodSound(v, conf);
      KeptSelf(v);
      while items != map[]
        invariant Valid() && Kept(v, State()) && Steady(State())
        invariant Elems(live) <= Elems(v.live) && Elems(keys) <= Elems(v.keys)
        decreases |lastused|
      {
        ghost var least := LeastHash(items.Keys);
        var h :| h in items && forall k :: k in items ==> h <= k;
        ghost var u := State();
        FirstOf(u, h);
        var cit := if |items[h]| > 1 then items[h][1] else items[h][0];
        ReleaseKept(u, cit);
        ExpiredGood(u, conf, cit);
        SoundLists(v);
        SoundLists(u);
        KeptTwice(v, u, Release(u, cit));
        KeptParts(u, Release(u, cit));
        ItemRlz(cit);
        GoodSound(State(), conf);
      }
      NothingLinked(State());
    }
  }

  lemma KeptSelf(v: View)
    requires Steady(v)
    ensures Kept(v, v)
  {
  }

  lemma KeptParts(v: View, u: View)
    requires Kept(v, u)
    ensures Elems(u.live) <= Elems(v.live) && Elems(u.keys) <= Elems(v.keys)
  {
  }

  lemma FirstOf(v: View, h: nat)
    requires Sound(v) && h in v.tree
    ensures v.tree[h] != [] && v.tree[h][0] in v.lru
    ensures |v.tree[h]| > 1 ==> v.tree[h][1] in v.lru
  {
    assert ChainOf(v, h, v.tree[h]);
  }

  lemma GoodLive(v: View, conf: Conf, it: Item)
    requires Good(v, conf) && it in v.live
    ensures it in v.info && (it in v.lru <==> !v.info[it].unlinked)
  {
  }

  lemma UnlinkedLru(v: View, conf: Conf, it: Item, usage: nat)
    requires Good(v, conf) && it in v.live && it in v.info
    ensures it in v.lru <==> !v.info[it].unlinked
    ensures Recounted(v, it, usage).lru == v.lru && Recounted(v, it, usage).live == v.live
    ensures Recounted(v, it, usage).keys == v.keys
  {
  }

  /** What a fetch is about: by link, by identity, or by name. */
  ghost function Target(v: View, conf: Conf, id: Item?, key: string, hash: nat, next: bool): (Error, Item?) {
    if next then
      if !conf.multi || id == null then (ESys, null)
      else if id.hash !in v.tree || id !in v.tree[id.hash] || |v.tree[id.hash]| == 1 then (ENotFound, null)
      else (Ok, NextIn(v.tree[id.hash], id))
    else if id != null then (Ok, id)
    else if hash !in v.tree || v.tree[hash] == [] then (ENotFound, null)
    else if !KeyEqual(v.tree[hash][0].ckey.d, key, conf.icase) then (EColl, null)
    else (Ok, v.tree[hash][0])
  }

  /** An item that is named by its identity is there, and linked where its links are followed. */
  ghost predicate MayFetch(v: View, conf: Conf, id: Item?, refs: nat, next: bool, acquire: bool) {
    id != null ==> id in v.lru || (id in v.live && if next then !conf.multi else acquire || refs == 0)
  }

  lemma TargetLinked(v: View, conf: Conf, id: Item?, key: string, hash: nat, next: bool)
    requires Sound(v) && (id != null ==> id in v.lru || !next || !conf.multi)
    ensures
      var (er, it) := Target(v, conf, id, key, hash, next);
      er == Ok ==> it != null && (it in v.lru || it == id)
    ensures id != null && id in v.lru ==> id.hash in v.tree && id in v.tree[id.hash]
    ensures hash in v.tree ==> v.tree[hash] != []
  {
    hide Lists, Linked, Counted, Accounted, Ordered;
    if id != null && id in v.lru { assert ChainOf(v, id.hash, v.tree[id.hash]); }
    if hash in v.tree { assert ChainOf(v, hash, v.tree[hash]); }
  }

  /** The outcome of a store into 'w', which has room. */
  ghost predicate StoredInto(w: View, conf: Conf, key: string, hash: nat, data: string, refs: nat,
      er: Error, it: Item?, u: View)
  {
    if hash !in w.tree then
      && er == Ok && it != null && it.hash == hash && it !in w.live && it !in w.freed && u == Stored(w, it, |data|, refs)
      && it.ckey !in w.keys && it.ckey.d == (if conf.icase then Lower(key) else key)
    else if w.tree[hash] == [] || !KeyEqual(w.tree[hash][0].ckey.d, key, conf.icase) then
      er == EColl && it == null && u == w
    else if !conf.multi then er == EExists && it == null && u == w
    else
      && er == Ok && it != null && it.hash == hash && it !in w.live && it !in w.freed && u == Stored(w, it, |data|, refs)
      && it.ckey == w.tree[hash][0].ckey
  }

  /** The outcome of a store. */
  ghost predicate StoreOutcome(v: View, conf: Conf, key: string, hash: nat, data: string, refs: nat,
      er: Error, it: Item?, u: View)
    requires Steady(v)
  {
    if |key| > MAX_KEYLEN || |data| > conf.maxData then er == ESzLimit && it == null && u == v
    else
      var (r, w) := Room(v, conf, |key| + |data|);
      if r != Ok then er == r && it == null && u == w
      else StoredInto(w, conf, key, hash, data, refs, er, it, u)
  }

  lemma SameLength(stored: string, key: string, icase: bool)
    requires KeyEqual(stored, key, icase)
    ensures |stored| == |key|
  {
  }

  lemma StoredGood(v: View, conf: Conf, it: Item, size: nat, usage: nat)
    requires Good(v, conf) && Storable(v, it) && v.len < conf.maxItems
    requires v.mem + |it.ckey.d| + size <= conf.memLimit && (it.hash in v.tree ==> conf.multi)
    ensures Good(Stored(v, it, size, usage), conf)
  {
    StoredSound(v, it, size, usage);
    hide Lists, Linked, Counted, Accounted, Ordered, Indexed;
    StoredHeld(v, it, size, usage);
  }

  lemma StoredHeld(v: View, it: Item, size: nat, usage: nat)
    requires Lists(v) && Held(v) && Lists(Stored(v, it, size, usage))
    ensures Held(Stored(v, it, size, usage))
  {
  }

  lemma MayStore(v: View, it: Item)
    requires it !in v.live && it !in v.freed
    requires it.hash in v.tree ==> v.tree[it.hash] != [] && it.ckey == v.tree[it.hash][0].ckey && it.ckey in v.keys
    requires it.hash !in v.tree ==> it.ckey !in v.keys
    ensures Storable(v, it)
  {
  }

  lemma InfosPush(s: seq<Item>, it: Item)
    ensures Infos(s + [it]) == Infos(s)[it := Info(|it.data|, it.usage, it.unlinked, it.stamp)]
  {
  }

  lemma UsesPush(s: seq<Key>, k: Key)
    ensures UsesOf(s + [k]) == UsesOf(s)[k := k.usage]
    ensures k in UsesOf(s) <==> k in s
  {
  }

  lemma StoredIs(v: View, it: Item, size: nat, usage: nat)
    ensures
      var info, tree, k := v.info[it := Info(size, usage, false, v.clock)],
        v.tree[it.hash := (if it.hash in v.tree then v.tree[it.hash] + [it] else [it])], it.ckey;
      Stored(v, it, size, usage) ==
        if k in v.uses then
          View(v.live + [it], v.keys, info, v.uses[k := v.uses[k] + 1], v.lru + [it], tree, v.mem + size, v.len + 1,
            v.freed, v.clock + 1)
        else
          View(v.live + [it], v.keys + [k], info, v.uses[k := 1], v.lru + [it], tree, v.mem + |k.d| + size, v.len + 1,
            v.freed, v.clock + 1)
  {
    assert [] + [it] == [it];
  }

  /** The outcome of an update of a linked item that only the caller refers to. */
  ghost predicate Updated(v: View, conf: Conf, it: Item, size: nat, er: Error, u: View)
    requires Steady(v) && it in v.info
  {
    var delta := size - v.info[it].size;
    if v.mem + delta <= conf.memLimit then er == Ok && u == Refresh(v, it, size, 1)
    else
      && delta >= 0
      && var (w, enough) := EvictMem(v, 0, delta, conf.memLimit);
         if !enough then er == EMemLimit && u == w
         else er == Ok && it in w.info && u == Refresh(w, it, size, 1)
  }

  /** The outcome of an update. */
  ghost predicate UpdateOutcome(v: View, conf: Conf, it: Item, size: nat, er: Error, u: View)
    requires Steady(v) && it in v.info
  {
    if size > conf.maxData then er == ESzLimit && u == v
    else if v.info[it].unlinked then er == ENotFound && u == v
    else if v.info[it].usage != 1 then er == ELocked && u == v
    else Updated(v, conf, it, size, er, u)
  }

  lemma RefreshLive(v: View, it: Item, size: nat)
    requires it in v.info
    ensures Refresh(v, it, size, 1).live == v.live
  {
  }

  /** An item that the caller refers to is still there when others have been evicted. */
  lemma UpdateRoom(v: View, conf: Conf, it: Item, delta: nat)
    requires Good(v, conf) && it in v.live && it in v.info && !v.info[it].unlinked && v.info[it].usage == 1
    ensures
      var (w, enough) := EvictMem(v, 0, delta, conf.memLimit);
      && Good(w, conf) && it in w.lru && it in w.live && it in w.info && w.info[it] == v.info[it]
      && (enough ==> w.mem + delta <= conf.memLimit)
  {
    hide Counted, Accounted, Ordered, Indexed, Release;
    EvictMemRight(v, 0, delta, conf.memLimit);
    ShrunkBounded(v, EvictMem(v, 0, delta, conf.memLimit).0, conf);
  }

  /** The item is freed exactly when its last reference is gone and it is not linked, or not any more. */
  lemma UnrefdFreed(v: View, conf: Conf, it: Item, usage: nat, remove: bool)
    requires Good(v, conf) && it in v.live
    ensures it in v.info && it.ckey in v.uses
    ensures
      var u := Unrefd(v, it, usage, remove);
      && (it in u.freed <==> usage == 0 && (v.info[it].unlinked || remove))
      && u.freed == (if it in u.freed then v.freed + [it] else v.freed)
      && u.live == (if it in u.freed then Without(v.live, it) else v.live)
  {
    KeyHeld(v, it);
    hide Counted, Accounted, Ordered, Indexed, Without, Pruned;
  }

  /** A reference given up: the item is freed if it was the last one and the item is not linked. */
  ghost function Unrefd(v: View, it: Item, usage: nat, remove: bool): View
    requires it in v.info && it.ckey in v.uses
  {
    var w := Recounted(v, it, usage);
    if remove && !v.info[it].unlinked then Release(w, it)
    else if v.info[it].unlinked && usage == 0 then Free(w, it)
    else w
  }

  lemma UnrefdGood(v: View, conf: Conf, it: Item, usage: nat, remove: bool)
    requires Good(v, conf) && it in v.live
    ensures it in v.info && it.ckey in v.uses && it.ckey in v.keys && Good(Unrefd(v, it, usage, remove), conf)
    ensures Sound(Recounted(v, it, usage))
    ensures it in Unrefd(v, it, usage, remove).freed <==> usage == 0 && (v.info[it].unlinked || remove)
  {
    KeyHeld(v, it);
    UnrefdFreed(v, conf, it, usage, remove);
    RecountedSound(v, it, usage);
    hide Counted, Accounted, Ordered, Indexed, Linked, Free, Unlink, Release, Recounted;
    if v.info[it].unlinked { UnlinkedGood(v, conf, it, usage); } else { LinkedGood(v, conf, it, usage, remove); }
  }

  lemma UnlinkedGood(v: View, conf: Conf, it: Item, usage: nat)
    requires Good(v, conf) && it in v.live && it in v.info && it.ckey in v.uses && v.info[it].unlinked
    requires Sound(Recounted(v, it, usage))
    ensures var w := Recounted(v, it, usage); Good(if usage == 0 then Free(w, it) else w, conf)
  {
    hide Counted, Accounted, Ordered, Indexed, Linked, Free;
    var w := Recounted(v, it, usage);
    if usage == 0 {
      FreeSound(w, it);
      FreeHeld(w, it);
      ShrunkBounded(w, Free(w, it), conf);
    }
  }

  lemma LinkedGood(v: View, conf: Conf, it: Item, usage: nat, remove: bool)
    requires Good(v, conf) && it in v.live && it in v.info && it.ckey in v.uses && !v.info[it].unlinked
    requires Sound(Recounted(v, it, usage))
    ensures var w := Recounted(v, it, usage); Good(if remove then Release(w, it) else w, conf)
  {
    assert it in v.lru;
    hide Counted, Accounted, Ordered, Indexed, Linked, Free, Unlink;
    var w := Recounted(v, it, usage);
    assert Held(w);
    if remove {
      ReleaseSound(w, it);
      ShrunkBounded(w, Release(w, it), conf);
    }
  }

  lemma FreeHeld(v: View, it: Item)
    requires Lists(v) && it in v.info && it.ckey in v.uses && it in v.live && Lists(Free(v, it))
    requires forall x :: x in v.live && x != it && v.info[x].unlinked ==> v.info[x].usage > 0
    ensures Held(Free(v, it))
  {
    WithoutDistinct(v.live, it);
  }

  lemma ExpiredGood(v: View, conf: Conf, it: Item)
    requires Good(v, conf) && it in v.lru
    ensures it in v.info && it.ckey in v.uses && it.ckey in v.keys && it in v.live && Good(Release(v, it), conf)
  {
    LruInfo(v, it);
    KeyHeld(v, it);
    ReleaseSound(v, it);
    ShrunkBounded(v, Release(v, it), conf);
  }

  /** Items that somebody refers to are still there, and nothing new is. */
  ghost predicate Kept(v: View, u: View) {
    && (forall x :: x in v.live && !Unused(v, x) ==> x in u.live)
    && (forall x :: x in u.live ==> x in v.live && x in v.info && x in u.info && u.info[x].usage == v.info[x].usage)
    && v.freed <= u.freed && (forall k :: k in u.keys ==> k in v.keys)
    && (forall x :: x in u.freed ==> x in v.freed || x in v.live) && (forall x :: x in v.live ==> x in u.live || x in u.freed)
  }

  lemma ReleaseKept(v: View, it: Item)
    requires Steady(v) && it in v.lru
    ensures it in v.info && it.ckey in v.uses && it in v.live && it.ckey in v.keys
    ensures Kept(v, Release(v, it)) && |Release(v, it).lru| < |v.lru|
  {
    hide Counted, Accounted, Ordered, Indexed, Linked, Lists, Without, Release, Kept, Sound, Held;
    ReleaseSound(v, it);
    SoundLru(v, it);
    SoundLists(v);
    ReleaseKeys(v, it);
    KeptOne(v, it, Release(v, it));
  }

  lemma KeptOne(v: View, it: Item, u: View)
    requires Lists(v) && it in v.lru && it in v.live && it in v.info
    requires u.lru == Without(v.lru, it) && forall k :: k in u.keys ==> k in v.keys
    requires if v.info[it].usage == 0 then u.freed == v.freed + [it] && u.live == Without(v.live, it) && u.info == v.info - {it}
      else u.freed == v.freed && u.live == v.live && u.info == v.info[it := v.info[it].(unlinked := true)]
    ensures Kept(v, u) && |u.lru| < |v.lru|
  {
    WithoutDistinct(v.lru, it);
    WithoutDistinct(v.live, it);
    hide Without, NoDuplicates;
  }

  lemma KeptTwice(v: View, u: View, w: View)
    requires Kept(v, u) && Kept(u, w) && Lists(v) && Lists(u)
    ensures Kept(v, w)
  {
  }

  /** With an empty tree nothing is linked, so only what somebody refers to is left. */
  lemma NothingLinked(v: View)
    requires Steady(v) && v.tree == map[]
    ensures v.lru == [] && v.len == 0
    ensures forall x :: x in v.live ==> x in v.info && v.info[x].usage > 0
  {
    HasFirst(v.lru);
  }

  lemma HasFirst(s: seq<Item>)
    ensures s != [] ==> exists x :: x in s
  {
    if s != [] { assert s[0] in s; }
  }

  /** The least hash. */
  lemma LeastHash(s: set<nat>) returns (h: nat)
    requires s != {}
    ensures h in s && forall k :: k in s ==> h <= k
  {
    h :| h in s;
    if s != {h} {
      assert s == {h} + (s - {h});
      var other := LeastHash(s - {h});
      if other < h { h := other; }
    }
  }

  /** What is known about the chain of a hash. */
  lemma ChainKey(v: View, h: nat)
    requires Sound(v) && h in v.tree
    ensures v.tree[h] != [] && v.tree[h][0] in v.live && v.tree[h][0].ckey in v.keys
  {
    assert ChainOf(v, h, v.tree[h]);
    LruInfo(v, v.tree[h][0]);
    KeyHeld(v, v.tree[h][0]);
  }

  lemma FoundLinked(v: View, conf: Conf, id: Item?, key: string, hash: nat, refs: nat, next: bool, acquire: bool)
    requires Good(v, conf) && MayFetch(v, conf, id, refs, next, acquire)
    ensures
      var (er, it) := Target(v, conf, id, key, hash, next);
      er == Ok ==>
        && it != null && it in v.live && it in v.info && it.ckey in v.keys
        && (it in v.lru || ((acquire || refs == 0) && v.info[it].usage > 0))
  {
    TargetLinked(v, conf, id, key, hash, next);
    var (er, it) := Target(v, conf, id, key, hash, next);
    if er == Ok { LinkedOrUsed(v, conf, it); }
  }

  /** What is there is linked or referenced. */
  lemma LinkedOrUsed(v: View, conf: Conf, x: Item)
    requires Good(v, conf)
    ensures x in v.live ==> x in v.info && x !in v.freed && x.ckey in v.keys && (x in v.lru || v.info[x].usage > 0)
    ensures x in v.lru ==> x in v.live
    ensures x in v.freed ==> x !in v.live
  {
    if x in v.live { KeyHeld(v, x); }
    hide Accounted, Ordered, Indexed, NoDuplicates;
  }

  /** The outcome of a fetch of the item that has been found, if one has been. */
  ghost predicate Fetched(v: View, conf: Conf, found: (Error, Item?), refs: nat, acquire: bool,
      er: Error, it: Item?, u: View)
  {
    var (e, t) := found;
    if e != Ok then er == e && it == null && u == v
    else
      && t != null && t in v.info
      && if acquire && v.info[t].usage != 0 then er == ELocked && it == null && u == v
         else if acquire then er == Ok && it == t && u == Unlink(Recounted(v, t, 1), t)
         else if refs == 0 then er == ESys && it == null && u == v
         else er == Ok && it == t && u == Refresh(v, t, v.info[t].size, v.info[t].usage + refs)
  }

  lemma RecountedLru(v: View, it: Item, usage: nat)
    requires it in v.info && it in v.lru
    ensures it in Recounted(v, it, usage).lru
  {
  }

  lemma LinkedLru(v: View, it: Item)
    requires Sound(v) && it in v.lru && it in v.info
    ensures !v.info[it].unlinked
  {
  }

  lemma RefreshIs(v: View, it: Item, size: nat, usage: nat)
    requires it in v.info
    ensures Refresh(v, it, size, usage) ==
      View(v.live, v.keys, v.info[it := Info(size, usage, false, v.clock)], v.uses, Without(v.lru, it) + [it], v.tree,
        v.mem - v.info[it].size + size, v.len, v.freed, v.clock + 1)
  {
  }

  lemma GoodSound(v: View, conf: Conf)
    requires Good(v, conf)
    ensures Sound(v) && Steady(v)
  {
  }

  lemma GoodMem(v: View, conf: Conf)
    requires Good(v, conf)
    ensures v.mem <= conf.memLimit && v.len <= conf.maxItems
  {
  }

  /** Used by the caller: moved to the end of the list, with more references. */
  lemma RefreshGood(v: View, conf: Conf, it: Item, size: nat, usage: nat)
    requires Good(v, conf) && it in v.lru
    requires it in v.info ==> v.mem - v.info[it].size + size <= conf.memLimit
    ensures it in v.info && Good(Refresh(v, it, size, usage), conf)
  {
    LruInfo(v, it);
    RefreshSound(v, it, size, usage);
    RefreshLists(v, it, size, usage);
    hide Linked, Counted, Accounted, Ordered, Indexed;
  }

  /** Taken by the caller: unlinked, with one reference. */
  lemma AcquireGood(v: View, conf: Conf, it: Item)
    requires Good(v, conf) && it in v.lru && Unused(v, it)
    ensures it in v.info && it.ckey in v.uses && Good(Release(Recounted(v, it, 1), it), conf)
    ensures Release(Recounted(v, it, 1), it) == Unlink(Recounted(v, it, 1), it)
  {
    LruInfo(v, it);
    KeyHeld(v, it);
    RecountedSound(v, it, 1);
    var w := Recounted(v, it, 1);
    assert Held(w);
    ReleaseSound(w, it);
    ShrunkBounded(w, Release(w, it), conf);
  }

  lemma SoundLru(v: View, it: Item)
    requires Sound(v) && it in v.lru
    ensures it in v.info && it in v.live && (Unused(v, it) <==> v.info[it].usage == 0) && it.ckey in v.keys
  {
    LruInfo(v, it);
    KeyHeld(v, it);
  }

  lemma SparedParts(v: View, u: View)
    requires Spared(v, u)
    ensures Elems(u.live) <= Elems(v.live) && Elems(u.keys) <= Elems(v.keys)
  {
  }

  /** What there is after making room for a key and data; the error if there cannot be enough. */
  ghost function Room(v: View, conf: Conf, need: nat): (Error, View)
    requires Sound(v) && Held(v)
  {
    EvictOneKeeps(v, 0);
    var (a, ok) := if v.len == conf.maxItems then EvictOne(v, 0) else (v, true);
    if !ok then (ENumLimit, v)
    else if a.mem + need <= conf.memLimit then (Ok, a)
    else
      var (b, enough) := EvictMem(a, 0, need, conf.memLimit);
      (if enough then Ok else EMemLimit, b)
  }

  lemma EvictOneKeeps(v: View, i: nat)
    requires Sound(v) && Held(v) && i <= |v.lru|
    ensures
      var (u, ok) := EvictOne(v, i);
      && Sound(u) && Held(u) && Shrunk(v, u) && Spared(v, u)
      && (!ok ==> u == v) && (ok ==> u.len == v.len - 1)
    decreases |v.lru| - i
  {
    hide Release, Counted, Indexed, Ordered;
    if i < |v.lru| {
      if Unused(v, v.lru[i]) { ReleaseSpares(v, v.lru[i]); } else { EvictOneKeeps(v, i + 1); }
    }
  }

  /** Making room frees only what nobody refers to, and then there is room. */
  lemma RoomRight(v: View, conf: Conf, need: nat)
    requires Good(v, conf)
    ensures
      var (er, u) := Room(v, conf, need);
      && Good(u, conf) && Spared(v, u) && Shrunk(v, u)
      && (er == Ok ==> u.len < conf.maxItems && u.mem + need <= conf.memLimit)
      && (er == ENumLimit ==> u == v && v.len == conf.maxItems && forall x :: x in v.lru ==> !Unused(v, x))
      && (er == EMemLimit ==> forall x :: x in u.lru ==> !Unused(u, x))
      && (er == Ok || er == ENumLimit || er == EMemLimit)
  {
    hide Sound, Held, Spared, Release, Unused;
    EvictOneKeeps(v, 0);
    var x := EvictOneEarliest(v, 0);
    var (a, ok) := if v.len == conf.maxItems then EvictOne(v, 0) else (v, true);
    if ok {
      if v.len != conf.maxItems { SparedSelf(v); }
      if a.mem + need > conf.memLimit {
        EvictMemRight(a, 0, need, conf.memLimit);
        SoundLists(v);
        SoundLists(a);
        SparedTwice(v, a, EvictMem(a, 0, need, conf.memLimit).0);
      }
      ShrunkBounded(v, Room(v, conf, need).1, conf);
    } else {
      SparedSelf(v);
    }
  }

  lemma ShrunkBounded(v: View, u: View, conf: Conf)
    requires Bounded(v, conf) && Shrunk(v, u) && Sound(u)
    ensures Bounded(u, conf)
  {
    forall h | h in u.tree ensures u.tree[h] != [] { assert ChainOf(u, h, u.tree[h]); }
  }

  lemma SoundLists(v: View)
    requires Sound(v)
    ensures Lists(v)
  {
  }

  lemma SparedSelf(v: View)
    requires Sound(v)
    ensures Spared(v, v) && Shrunk(v, v)
  {
  }

  /** What item_fin leaves. */
  lemma FinState(v: View, w: View, it: Item)
    requires Lists(v) && it in v.live && it in v.info && it.ckey in v.uses && v.uses[it.ckey] > 0
    requires w.live == Without(v.live, it) && w.freed == v.freed + [it]
    requires w.lru == v.lru && w.tree == v.tree && w.len == v.len && w.clock == v.clock
    requires w.keys == if v.uses[it.ckey] == 1 then Without(v.keys, it.ckey) else v.keys
    requires w.mem == v.mem - ((if v.uses[it.ckey] == 1 then |it.ckey.d| else 0) + v.info[it].size)
    requires (forall x :: x in w.info ==> x in w.live) && (forall x :: x in w.live ==> x in w.info)
    requires forall x :: x in w.info && x in v.info ==> w.info[x] == v.info[x]
    requires (forall x :: x in w.uses ==> x in w.keys) && (forall x :: x in w.keys ==> x in w.uses)
    requires forall x :: x in w.uses && x in v.uses ==> w.uses[x] == if x == it.ckey then v.uses[x] - 1 else v.uses[x]
    ensures w == Free(v, it)
  {
    InfosWithout(v, it, w.info);
    UsesWithout(v, it.ckey, w.uses, w.keys);
  }

  /** The fields of all live items but one. */
  lemma InfosWithout(v: View, it: Item, info: map<Item, Info>)
    requires Lists(v) && it in v.live
    requires forall x :: x in info ==> x in Without(v.live, it)
    requires forall x :: x in Without(v.live, it) ==> x in info
    requires forall x :: x in info && x in v.info ==> info[x] == v.info[x]
    ensures info == v.info - {it}
  {
    WithoutDistinct(v.live, it);
  }

  /** The reference counts of all keys, one less for one of them. */
  lemma UsesWithout(v: View, k: Key, uses: map<Key, nat>, keys: seq<Key>)
    requires Lists(v) && k in v.uses && v.uses[k] > 0
    requires keys == if v.uses[k] == 1 then Without(v.keys, k) else v.keys
    requires forall x :: x in uses ==> x in keys
    requires forall x :: x in keys ==> x in uses
    requires forall x :: x in uses && x in v.uses ==> uses[x] == if x == k then v.uses[x] - 1 else v.uses[x]
    ensures uses == if v.uses[k] <= 1 then v.uses - {k} else v.uses[k := v.uses[k] - 1]
  {
    WithoutDistinct(v.keys, k);
    hide NoDuplicates, Without;
    if v.uses[k] == 1 {
      SameUses(uses, v.uses - {k});
    } else {
      SameUses(uses, v.uses[k := v.uses[k] - 1]);
    }
  }

  lemma SameUses(a: map<Key, nat>, b: map<Key, nat>)
    requires (forall x :: x in a ==> x in b) && (forall x :: x in b ==> x in a) && forall x :: x in a && x in b ==> a[x] == b[x]
    ensures a == b
  {
  }
}
