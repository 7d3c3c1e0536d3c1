/**
 * The hash table with linear probing, against the list of everything ever inserted.
 */
module HashTab {
  import opened Modulo

  datatype Item = Item(hash: nat, busy: bool, val: int)

  datatype Entry = Entry(hash: nat, val: int)

  /** The slot 'k' probes after the home slot of 'hash'. */
  function Probe(hash: nat, k: nat, n: nat): nat
    requires n > 0
  {
    Mod(hash + k, n)
  }

  /**
   * 'at[i]' is the slot of the i-th entry.  Entries have slots of their own, and every slot that
   * was passed on the way to an entry's slot belongs to an earlier entry.
   */
  predicate Placed(slots: seq<Item>, log: seq<Entry>, at: seq<nat>, dist: seq<nat>) {
    && |slots| > 0 && |log| == |at| == |dist|
    && (forall i :: 0 <= i < |at| ==> PlacedAt(slots, log, at, dist, i))
    && (forall s :: 0 <= s < |slots| && slots[s].busy ==> s in at)
  }

  predicate PlacedAt(slots: seq<Item>, log: seq<Entry>, at: seq<nat>, dist: seq<nat>, i: nat)
    requires |slots| > 0 && |log| == |at| == |dist| && i < |at|
  {
    && at[i] < |slots| && slots[at[i]] == Item(log[i].hash, true, log[i].val)
    && dist[i] < |slots| && at[i] == Probe(log[i].hash, dist[i], |slots|)
    && (forall j :: 0 <= j < i ==> at[j] != at[i])
    && (forall k :: 0 <= k < dist[i] ==> Probe(log[i].hash, k, |slots|) in at[..i])
  }

  /** Two probes of one search are different slots. */
  lemma ProbesDiffer(hash: nat, j: nat, k: nat, n: nat)
    requires j < n && k < n && Probe(hash, j, n) == Probe(hash, k, n)
    ensures j == k
  {
    SameLap(hash + j, hash + k, n);
  }

  /** Every slot is probed, sooner or later. */
  lemma ProbeReaches(hash: nat, s: nat, n: nat) returns (k: nat)
    requires s < n
    ensures k < n && Probe(hash, k, n) == s
  {
    k := Mod(s - hash, n);
    ModAdd(s - hash, hash, n);
    ModSmall(s, n);
  }

  /** The slot after a probe is the next probe. */
  lemma ProbeNext(hash: nat, k: nat, n: nat)
    requires n > 0
    ensures Next(Probe(hash, k, n), n) == Probe(hash, k + 1, n)
  {
    AddMod(hash + k, 1, n);
  }

  /** With fewer entries than slots, some slot is free. */
  lemma FreeSlot(slots: seq<Item>, log: seq<Entry>, at: seq<nat>, dist: seq<nat>) returns (s: nat)
    requires Placed(slots, log, at, dist) && |at| < |slots|
    ensures s < |slots| && !slots[s].busy
  {
    s := Missing(at, |slots|);
    assert s !in at;
  }

  function Below(n: nat): (s: set<nat>)
    ensures |s| == n && forall x: nat :: x in s <==> x < n
  {
    if n == 0 then {} else Below(n - 1) + {n - 1}
  }

  function Elements(at: seq<nat>): (s: set<nat>)
    ensures |s| <= |at| && forall x: nat :: x in s <==> x in at
  {
    if at == [] then {} else
      assert at == at[..|at| - 1] + [at[|at| - 1]];
      Elements(at[..|at| - 1]) + {at[|at| - 1]}
  }

  lemma {:induction false} DistinctElements(at: seq<nat>)
    requires forall i, j :: 0 <= j < i < |at| ==> at[j] != at[i]
    ensures |Elements(at)| == |at|
  {
    if at != [] { DistinctElements(at[..|at| - 1]); }
  }

  lemma Missing(at: seq<nat>, n: nat) returns (s: nat)
    requires |at| < n
    ensures s < n && s !in at
  {
    if Below(n) <= Elements(at) { Subset(Below(n), Elements(at)); }
    s :| s in Below(n) && s !in Elements(at);
  }

  lemma {:induction false} Subset(a: set<nat>, b: set<nat>)
    requires a <= b
    ensures |a| <= |b|
  {
    if a != {} {
      var x :| x in a;
      Subset(a - {x}, b - {x});
    }
  }

  /** 'val' is under 'hash' and compares equal to 'key'. */
  predicate Matches(e: Entry, hash: nat, key: int, same: (int, int) -> bool) {
    e.hash == hash && same(e.val, key)
  }

  /** The first entry that matches, in order of insertion; -1 if there is none. */
  function FirstMatch(log: seq<Entry>, hash: nat, key: int, same: (int, int) -> bool): (i: int)
    ensures -1 <= i < |log|
    ensures i >= 0 ==> Matches(log[i], hash, key, same)
    ensures forall j :: 0 <= j < (if i < 0 then |log| else i) ==> !Matches(log[j], hash, key, same)
  {
    if log == [] then -1
    else
      var n := |log| - 1;
      var i := FirstMatch(log[..n], hash, key, same);
      if i >= 0 then i else if Matches(log[n], hash, key, same) then n else -1
  }

  function AlignPower2From(p: nat, n: nat): (r: nat)
    requires PowerOfTwo(p)
    ensures PowerOfTwo(r) && r >= n && r >= p && (r > p ==> r < 2 * n)
    decreases n - p
  {
    if p >= n then p else AlignPower2From(2 * p, n)
  }

  /** ff_align_power2: the least power of two not below 'n'. */
  function AlignPower2(n: nat): (r: nat)
    ensures PowerOfTwo(r) && r >= n && (r > 1 ==> r < 2 * n)
  {
    AlignPower2From(1, n)
  }

  class Table {
    var slots: array<Item>
    var len: nat
    ghost var log: seq<Entry>
    ghost var at: seq<nat>
    ghost var dist: seq<nat>

    ghost predicate Valid()
      reads this, slots
    {
      Placed(slots[..], log, at, dist) && len == |log|
    }

    /** ffhst_init: a table for 'items' entries always keeps a slot free. */
    constructor (items: nat)
      ensures Valid() && log == [] && fresh(slots)
      ensures items < slots.Length && PowerOfTwo(slots.Length)
    {
      var n := items + 1;
      var nslots := AlignPower2(n);
      if nslots * 75 / 100 < n {
        nslots := AlignPower2(nslots + 1);
      }
      slots := new Item[nslots](i => Item(0, false, 0));
      len := 0;
      log, at, dist := [], [], [];
    }

    /** ffhst_ins: fails exactly when there is no slot; else says how many slots were looked at. */
    method Insert(hash: nat, val: int) returns (r: int)
      requires Valid()
      modifies this`len, this`log, this`at, this`dist, slots
      ensures Valid() && slots == old(slots)
      ensures r < 0 <==> old(len) == slots.Length
      ensures r < 0 ==> log == old(log) && slots[..] == old(slots[..])
      ensures r >= 0 ==> log == old(log) + [Entry(hash, val)] && r == dist[|log| - 1] + 1
      ensures r >= 0 ==> at == old(at) + [Probe(hash, r - 1, slots.Length)]
    {
      hide Mod, Placed, PowerOfTwo, And, Next;
      ghost var before := slots[..];
      var n := slots.Length;
      NotEmpty(before, log, at, dist);
      if len + 1 > n {
        NoMore(before, log, at, dist);
        return -1;
      }
      ghost var free := FreeSlot(before, log, at, dist);
      ghost var far := ProbeReaches(hash, free, n);
      var slot := Mod(hash, n);
      r := 1;
      ghost var was, wasAt, wasDist := log, at, dist;
      while slots[slot].busy
        invariant 1 <= r <= far + 1 && slot < n && slot == Probe(hash, r - 1, n)
        invariant forall k :: 0 <= k < r - 1 ==> slots[Probe(hash, k, n)].busy
        invariant slots[..] == before && len == |log| && log == was && at == wasAt && dist == wasDist
        decreases far + 1 - r
      {
        ProbeNext(hash, r - 1, n);
        r := r + 1;
        slot := Next(slot, n);
      }
      slots[slot] := Item(hash, true, val);
      len := len + 1;
      ghost var after := slots[..];
      PlaceOne(before, after, log, at, dist, Entry(hash, val), slot, r - 1);
      log, at, dist := log + [Entry(hash, val)], at + [slot], dist + [r - 1];
      assert slots[..] == after;
    }

    /**
     * ffhst_find_el: the slot of the first entry, in order of insertion, with this hash and an equal
     * key, and -1 if there is none.  The search of a full table ends only if there is one.
     */
    method Find(hash: nat, key: int, same: (int, int) -> bool) returns (r: int)
      requires Valid()
      requires len < slots.Length || FirstMatch(log, hash, key, same) >= 0
      ensures
        var i := FirstMatch(log, hash, key, same);
        r == if i >= 0 then at[i] else -1
    {
      hide Mod, Placed, PowerOfTwo, And, Next;
      ghost var all := slots[..];
      NotEmpty(all, log, at, dist);
      var n := slots.Length;
      ghost var last := SearchEnds(all, log, at, dist, hash, key, same);
      var slot := Mod(hash, n);
      ghost var k := 0;
      while slots[slot].busy
        invariant 0 <= k <= last < n && slot == Probe(hash, k, n)
        invariant forall j :: 0 <= j < k ==> Passed(all[Probe(hash, j, n)], hash, key, same)
        decreases last - k
      {
        if slots[slot].hash == hash && same(slots[slot].val, key) {
          SearchFound(all, log, at, dist, hash, key, same, k);
          return slot;
        }
        assert all[slot] == slots[slot];
        ProbeNext(hash, k, n);
        k := k + 1;
        slot := Next(slot, n);
      }
      SearchMissed(all, log, at, dist, hash, key, same, k);
      r := -1;
    }
  }

  lemma NotEmpty(slots: seq<Item>, log: seq<Entry>, at: seq<nat>, dist: seq<nat>)
    requires Placed(slots, log, at, dist)
    ensures |slots| > 0 && |log| == |at| == |dist|
  {
  }

  /** There are never more entries than slots. */
  lemma NoMore(slots: seq<Item>, log: seq<Entry>, at: seq<nat>, dist: seq<nat>)
    requires Placed(slots, log, at, dist)
    ensures |at| <= |slots|
  {
    forall i | 0 <= i < |at| ensures at[i] < |slots| && forall j :: 0 <= j < i ==> at[j] != at[i] {
      assert PlacedAt(slots, log, at, dist, i);
    }
    DistinctElements(at);
    Subset(Elements(at), Below(|slots|));
  }

  /** A search goes past this slot. */
  predicate Passed(item: Item, hash: nat, key: int, same: (int, int) -> bool) {
    item.busy && !(item.hash == hash && same(item.val, key))
  }

  /** A probe at which the search stops. */
  lemma SearchEnds(slots: seq<Item>, log: seq<Entry>, at: seq<nat>, dist: seq<nat>, hash: nat, key: int, same: (int, int) -> bool)
    returns (k: nat)
    requires Placed(slots, log, at, dist) && (|log| < |slots| || FirstMatch(log, hash, key, same) >= 0)
    ensures k < |slots| && !Passed(slots[Probe(hash, k, |slots|)], hash, key, same)
  {
    hide Mod;
    var i := FirstMatch(log, hash, key, same);
    if i >= 0 {
      assert PlacedAt(slots, log, at, dist, i);
      k := dist[i];
    } else {
      var s := FreeSlot(slots, log, at, dist);
      k := ProbeReaches(hash, s, |slots|);
    }
  }

  lemma SearchFound(slots: seq<Item>, log: seq<Entry>, at: seq<nat>, dist: seq<nat>,
      hash: nat, key: int, same: (int, int) -> bool, k: nat)
    requires Placed(slots, log, at, dist) && k < |slots|
    requires slots[Probe(hash, k, |slots|)].busy && !Passed(slots[Probe(hash, k, |slots|)], hash, key, same)
    requires forall j :: 0 <= j < k ==> Passed(slots[Probe(hash, j, |slots|)], hash, key, same)
    ensures
      var i := FirstMatch(log, hash, key, same);
      i >= 0 && at[i] == Probe(hash, k, |slots|)
  {
    hide Mod;
    var s := Probe(hash, k, |slots|);
    var m :| 0 <= m < |at| && at[m] == s;
    assert PlacedAt(slots, log, at, dist, m);
    assert Matches(log[m], hash, key, same);
    var i := FirstMatch(log, hash, key, same);
    assert PlacedAt(slots, log, at, dist, i);
    ProbesDiffer(hash, k, dist[m], |slots|);
  }

  lemma SearchMissed(slots: seq<Item>, log: seq<Entry>, at: seq<nat>, dist: seq<nat>,
      hash: nat, key: int, same: (int, int) -> bool, k: nat)
    requires Placed(slots, log, at, dist) && k < |slots| && !slots[Probe(hash, k, |slots|)].busy
    requires forall j :: 0 <= j < k ==> Passed(slots[Probe(hash, j, |slots|)], hash, key, same)
    ensures FirstMatch(log, hash, key, same) == -1
  {
    hide Mod;
    var i := FirstMatch(log, hash, key, same);
    if i >= 0 {
      assert PlacedAt(slots, log, at, dist, i);
      forall m | 0 <= m < |at| ensures at[m] < |slots| && slots[at[m]].busy { assert PlacedAt(slots, log, at, dist, m); }
    }
  }

  /** In a full table without a match the search passes every slot, for ever. */
  lemma SearchNeverEnds(slots: seq<Item>, log: seq<Entry>, at: seq<nat>, dist: seq<nat>,
      hash: nat, key: int, same: (int, int) -> bool, k: nat)
    requires Placed(slots, log, at, dist) && |log| == |slots| && FirstMatch(log, hash, key, same) < 0
    ensures Passed(slots[Probe(hash, k, |slots|)], hash, key, same)
  {
    hide Mod;
    var s := Probe(hash, k, |slots|);
    if s !in at { AllTaken(slots, log, at, dist, s); }
    var m :| 0 <= m < |at| && at[m] == s;
    assert PlacedAt(slots, log, at, dist, m);
    assert !Matches(log[m], hash, key, same);
  }

  lemma AllTaken(slots: seq<Item>, log: seq<Entry>, at: seq<nat>, dist: seq<nat>, s: nat)
    requires Placed(slots, log, at, dist) && |log| == |slots| && s < |slots|
    ensures s in at
  {
    forall i | 0 <= i < |at| ensures at[i] < |slots| && forall j :: 0 <= j < i ==> at[j] != at[i] {
      assert PlacedAt(slots, log, at, dist, i);
    }
    DistinctElements(at);
    if s !in at { Subset(Elements(at), Below(|slots|) - {s}); }
  }

  lemma PlaceOne(before: seq<Item>, slots: seq<Item>, log: seq<Entry>, at: seq<nat>, dist: seq<nat>, e: Entry, s: nat, d: nat)
    requires Placed(before, log, at, dist)
    requires d < |before| && s == Probe(e.hash, d, |before|) && !before[s].busy
    requires slots == before[s := Item(e.hash, true, e.val)]
    requires forall k :: 0 <= k < d ==> before[Probe(e.hash, k, |before|)].busy
    ensures Placed(slots, log + [e], at + [s], dist + [d])
  {
    var log2, at2, dist2 := log + [e], at + [s], dist + [d];
    forall i | 0 <= i < |at2| ensures PlacedAt(slots, log2, at2, dist2, i) {
      if i < |at| {
        assert PlacedAt(before, log, at, dist, i);
        assert at2[..i] == at[..i];
      } else {
        assert at2[..i] == at;
        forall j | 0 <= j < i ensures at2[j] != s { assert PlacedAt(before, log, at, dist, j); }
      }
    }
    forall x | 0 <= x < |slots| && slots[x].busy ensures x in at2 {
      if x == s { assert at2[|at|] == s; } else { assert x in at; }
    }
  }

  // ----- what an insertion returns -----

  /** The earlier entries with the home slot of 'hash'. */
  function SameHome(log: seq<Entry>, hash: nat, n: nat): set<nat>
    requires n > 0
  {
    set i: nat | i < |log| && Mod(log[i].hash, n) == Mod(hash, n)
  }

  function Slots(at: seq<nat>, ks: set<nat>): set<nat>
    requires forall i :: i in ks ==> i < |at|
  {
    set i | i in ks :: at[i]
  }

  /** The slots passed on the way to the d-th probe. */
  function PassedSlots(hash: nat, d: nat, n: nat): set<nat>
    requires n > 0
  {
    set k: nat | k < d :: Probe(hash, k, n)
  }

  lemma {:induction false} SlotsCount(at: seq<nat>, ks: set<nat>)
    requires forall i :: i in ks ==> i < |at|
    requires forall i, j :: i in ks && j in ks && i != j ==> at[i] != at[j]
    ensures |Slots(at, ks)| == |ks|
    decreases |ks|
  {
    if ks != {} {
      var i :| i in ks;
      SlotsCount(at, ks - {i});
      assert Slots(at, ks) == Slots(at, ks - {i}) + {at[i]};
    }
  }

  lemma {:induction false} PassedCount(hash: nat, d: nat, n: nat)
    requires d <= n && n > 0
    ensures |PassedSlots(hash, d, n)| == d
  {
    if d > 0 {
      PassedCount(hash, d - 1, n);
      hide Mod;
      forall k: nat | k < d - 1 ensures Probe(hash, k, n) != Probe(hash, d - 1, n) {
        if Probe(hash, k, n) == Probe(hash, d - 1, n) { ProbesDiffer(hash, k, d - 1, n); }
      }
      assert PassedSlots(hash, d, n) == PassedSlots(hash, d - 1, n) + {Probe(hash, d - 1, n)};
    }
  }

  /** An entry with the same home slot was passed. */
  lemma SameHomePassed(slots: seq<Item>, log: seq<Entry>, at: seq<nat>, dist: seq<nat>, hash: nat, d: nat, i: nat)
    requires Placed(slots, log, at, dist) && d < |slots| && !slots[Probe(hash, d, |slots|)].busy
    requires i < |log| && Mod(log[i].hash, |slots|) == Mod(hash, |slots|)
    ensures at[i] in PassedSlots(hash, d, |slots|)
  {
    var n := |slots|;
    assert PlacedAt(slots, log, at, dist, i);
    forall k: nat ensures Probe(log[i].hash, k, n) == Probe(hash, k, n) {
      AddMod(log[i].hash, k, n);
      AddMod(hash, k, n);
    }
    hide Mod, Placed;
    BusyUpTo(slots, log, at, dist, i);
  }

  lemma BusyUpTo(slots: seq<Item>, log: seq<Entry>, at: seq<nat>, dist: seq<nat>, i: nat)
    requires Placed(slots, log, at, dist) && i < |log|
    ensures forall k :: 0 <= k <= dist[i] ==> slots[Probe(log[i].hash, k, |slots|)].busy
  {
    hide Mod;
    assert PlacedAt(slots, log, at, dist, i);
    forall k | 0 <= k < dist[i] ensures slots[Probe(log[i].hash, k, |slots|)].busy {
      var j :| 0 <= j < i && at[j] == Probe(log[i].hash, k, |slots|);
      assert PlacedAt(slots, log, at, dist, j);
    }
  }

  /**
   * The number of slots looked at is at least the number of items with the same home slot, the new
   * one included, and equal to it if and only if every slot that was passed holds one of them.
   */
  lemma ProbesAndItems(slots: seq<Item>, log: seq<Entry>, at: seq<nat>, dist: seq<nat>, hash: nat, d: nat)
    requires Placed(slots, log, at, dist) && d < |slots| && !slots[Probe(hash, d, |slots|)].busy
    requires forall k :: 0 <= k < d ==> slots[Probe(hash, k, |slots|)].busy
    ensures d + 1 >= |SameHome(log, hash, |slots|)| + 1
    ensures d + 1 == |SameHome(log, hash, |slots|)| + 1 <==>
      forall k :: 0 <= k < d ==> Mod(slots[Probe(hash, k, |slots|)].hash, |slots|) == Mod(hash, |slots|)
  {
    var n, home := |slots|, SameHome(log, hash, |slots|);
    var a, b := Slots(at, home), PassedSlots(hash, d, n);
    forall i | i in home ensures at[i] in b { SameHomePassed(slots, log, at, dist, hash, d, i); }
    forall i, j | i in home && j in home && i != j ensures at[i] != at[j] {
      assert PlacedAt(slots, log, at, dist, i) && PlacedAt(slots, log, at, dist, j);
    }
    SlotsCount(at, home);
    PassedCount(hash, d, n);
    Subset(a, b);
    SameHomeSlots(slots, log, at, dist, hash, d);
    if a == b {
    } else if |a| == |b| {
      Proper(a, b);
    }
  }

  lemma Proper(a: set<nat>, b: set<nat>)
    requires a <= b && a != b
    ensures |a| < |b|
  {
    var x :| x in b && x !in a;
    Subset(a, b - {x});
  }

  /** All the slots passed hold items of the same home slot. */
  lemma SameHomeSlots(slots: seq<Item>, log: seq<Entry>, at: seq<nat>, dist: seq<nat>, hash: nat, d: nat)
    requires Placed(slots, log, at, dist) && d < |slots|
    requires forall k :: 0 <= k < d ==> slots[Probe(hash, k, |slots|)].busy
    requires forall i :: i in SameHome(log, hash, |slots|) ==> at[i] in PassedSlots(hash, d, |slots|)
    ensures Slots(at, SameHome(log, hash, |slots|)) == PassedSlots(hash, d, |slots|) <==>
      forall k :: 0 <= k < d ==> Mod(slots[Probe(hash, k, |slots|)].hash, |slots|) == Mod(hash, |slots|)
  {
    hide Mod;
    var n := |slots|;
    var a, b := Slots(at, SameHome(log, hash, n)), PassedSlots(hash, d, n);
    forall k: nat | k < d ensures Probe(hash, k, n) in a <==> Mod(slots[Probe(hash, k, n)].hash, n) == Mod(hash, n) {
      var s := Probe(hash, k, n);
      var i :| 0 <= i < |at| && at[i] == s;
      assert PlacedAt(slots, log, at, dist, i);
      if s in a {
        var j :| j in SameHome(log, hash, n) && at[j] == s;
        assert PlacedAt(slots, log, at, dist, j);
      }
    }
  }

  /** An item that is the only one of its home slot, behind two others of another: 2 is returned. */
  method ProbesNotItems() returns (r: int)
    ensures r == 2
  {
    var t := new Table(3);
    var n := t.slots.Length;
    var first := t.Insert(0, 10);
    var second := t.Insert(0, 20);
    r := t.Insert(1, 30);
    ThreeEntries(t.slots[..], t.log, t.at, t.dist);
  }

  lemma ThreeEntries(slots: seq<Item>, log: seq<Entry>, at: seq<nat>, dist: seq<nat>)
    requires Placed(slots, log, at, dist) && |slots| > 3 && |log| == 3
    requires log[0].hash == 0 && log[1].hash == 0 && log[2].hash == 1
    ensures dist[2] == 1
  {
    ModSmall(0, |slots|);
    ModSmall(1, |slots|);
    ModSmall(2, |slots|);
    hide Mod;
    TwoEntries(slots, log, at, dist);
    assert PlacedAt(slots, log, at, dist, 2);
    assert at[..2] == [0, 1];
    assert Probe(1, 1, |slots|) == 2 && Probe(1, 0, |slots|) == 1;
  }

  lemma TwoEntries(slots: seq<Item>, log: seq<Entry>, at: seq<nat>, dist: seq<nat>)
    requires Placed(slots, log, at, dist) && |slots| > 3 && |log| == 3
    requires log[0].hash == 0 && log[1].hash == 0
    requires Mod(0, |slots|) == 0 && Mod(1, |slots|) == 1
    ensures at[0] == 0 && at[1] == 1
  {
    hide Mod;
    assert PlacedAt(slots, log, at, dist, 0) && PlacedAt(slots, log, at, dist, 1);
    assert at[..0] == [] && at[..1] == [at[0]];
    assert Probe(0, 0, |slots|) == 0 && Probe(0, 1, |slots|) == 1;
  }
}
