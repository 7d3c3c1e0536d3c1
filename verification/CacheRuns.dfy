/**
 * Whole runs of the cache: every sequence of calls keeps the invariant, and every item is freed
 * exactly once, by the call that leaves it neither linked nor referenced.
 */
module CacheRuns {
  import opened Wrappers
  import opened Cache

  /** A call and its result. */
  datatype Call =
    | Fetch(id: Item?, key: string, hash: nat, refs: nat, next: bool, acquire: bool, er: Error, it: Item?)
    | Store(skey: string, shash: nat, data: string, srefs: nat, ser: Error, sit: Item?)
    | Update(cit: Item, size: nat, uer: Error)
    | Unref(rit: Item, remove: bool)
    | Expire(xit: Item)
    | Reset

  /** What a call leads to, as the methods of the cache state it. */
  ghost predicate Does(v: View, conf: Conf, c: Call, u: View) {
    && Good(v, conf)
    && match c
       case Fetch(id, key, hash, refs, next, acquire, er, it) =>
         MayFetch(v, conf, id, refs, next, acquire) && Fetched(v, conf, Target(v, conf, id, key, hash, next), refs, acquire, er, it, u)
       case Store(key, hash, data, refs, er, it) => StoreOutcome(v, conf, key, hash, data, refs, er, it, u)
       case Update(it, size, er) => it in v.live && it in v.info && UpdateOutcome(v, conf, it, size, er, u)
       case Unref(it, remove) =>
         it in v.live && it in v.info && it.ckey in v.uses && v.info[it].usage > 0
         && u == Unrefd(v, it, v.info[it].usage - 1, remove)
       case Expire(it) => it in v.lru && it in v.info && it.ckey in v.uses && u == Release(v, it)
       case Reset => Good(u, conf) && Kept(v, u) && u.lru == []
  }

  /** The references to an item, when the call has given up the one it may give up. */
  ghost function LeftUsage(v: View, c: Call, x: Item): int
    requires x in v.info
  {
    if c.Unref? && c.rit == x then v.info[x].usage - 1 else v.info[x].usage
  }

  /** Items stay until they are freed, and nobody refers to those that are freed. */
  ghost predicate Lives(v: View, c: Call, u: View) {
    && v.freed <= u.freed
    && (forall x :: x in v.live ==> x in u.live || x in u.freed)
    && (forall x :: x in u.freed && x !in v.freed ==> x in v.live && x in v.info && LeftUsage(v, c, x) == 0)
  }

  lemma LivesSame(v: View, c: Call, u: View)
    requires u.live == v.live && u.freed == v.freed
    ensures Lives(v, c, u)
  {
  }

  lemma LivesSpared(v: View, c: Call, w: View, u: View)
    requires Lists(v) && Spared(v, w) && u.freed == w.freed && !c.Unref?
    requires forall x :: x in w.live ==> x in u.live
    requires forall x :: x in w.freed ==> x !in w.live
    ensures Lives(v, c, u)
  {
    forall x | x in u.freed && x !in v.freed ensures x in v.live && x in v.info && LeftUsage(v, c, x) == 0 {
      assert x in v.live;
    }
  }

  lemma LivesReleased(v: View, c: Call, it: Item)
    requires Sound(v) && Held(v) && it in v.lru && !c.Unref?
    ensures it in v.info && it.ckey in v.uses && Lives(v, c, Release(v, it))
  {
    hide Counted, Accounted, Ordered, Indexed, Linked, Release;
    ReleaseSound(v, it);
    WithoutDistinct(v.live, it);
    hide Lists, Without;
  }

  lemma FetchParts(v: View, conf: Conf, c: Call, u: View)
    requires c.Fetch? && Does(v, conf, c, u)
    ensures Good(v, conf) && MayFetch(v, conf, c.id, c.refs, c.next, c.acquire)
    ensures
      var (e, t) := Target(v, conf, c.id, c.key, c.hash, c.next);
      if e != Ok then u == v
      else
        && t != null && t in v.info
        && if c.acquire then u == v || (v.info[t].usage == 0 && u == Unlink(Recounted(v, t, 1), t))
           else u == v || (c.refs != 0 && u == Refresh(v, t, v.info[t].size, v.info[t].usage + c.refs))
    ensures
      var (e, t) := Target(v, conf, c.id, c.key, c.hash, c.next);
      e == Ok && t != null && t in v.info && v.info[t].usage > 0 && (c.acquire || c.refs == 0) ==> u == v
  {
    hide Good, MayFetch, Target, Unlink, Recounted, Refresh;
  }

  lemma FetchKeeps(v: View, conf: Conf, c: Call, u: View)
    requires c.Fetch? && Does(v, conf, c, u)
    ensures Good(u, conf) && Lives(v, c, u)
  {
    hide *;
    FetchParts(v, conf, c, u);
    FoundLinked(v, conf, c.id, c.key, c.hash, c.refs, c.next, c.acquire);
    var (e, t) := Target(v, conf, c.id, c.key, c.hash, c.next);
    if e == Ok {
      FetchOutcome(v, conf, c, u, t);
    } else {
      LivesSame(v, c, u);
    }
  }

  lemma FetchOutcome(v: View, conf: Conf, c: Call, u: View, t: Item)
    requires Good(v, conf) && t in v.info && (t in v.lru || u == v)
    requires
      if c.Fetch? && c.acquire then u == v || (v.info[t].usage == 0 && u == Unlink(Recounted(v, t, 1), t))
      else c.Fetch? && (u == v || u == Refresh(v, t, v.info[t].size, v.info[t].usage + c.refs))
    ensures Good(u, conf) && Lives(v, c, u)
  {
    hide Sound, Held, Bounded, Release;
    GoodSound(v, conf);
    GoodMem(v, conf);
    if u == v {
    } else if c.acquire {
      SoundLru(v, t);
      AcquireGood(v, conf, t);
    } else {
      RefreshGood(v, conf, t, v.info[t].size, v.info[t].usage + c.refs);
    }
    LivesSame(v, c, u);
  }

  lemma StoreKeeps(v: View, conf: Conf, c: Call, u: View)
    requires c.Store? && Does(v, conf, c, u)
    ensures Good(u, conf) && Lives(v, c, u)
  {
    hide Sound, Held, Bounded, Room, StoredInto, Spared, Stored, Lives;
    GoodSound(v, conf);
    SoundLists(v);
    if |c.skey| > MAX_KEYLEN || |c.data| > conf.maxData {
      LivesSame(v, c, u);
    } else {
      RoomRight(v, conf, |c.skey| + |c.data|);
      var (r, w) := Room(v, conf, |c.skey| + |c.data|);
      GoodSound(w, conf);
      FreedGone(w);
      if r != Ok {
        LivesSpared(v, c, w, u);
      } else {
        StoreInto(v, conf, c, w, u);
      }
    }
  }

  lemma FreedGone(v: View)
    requires Sound(v)
    ensures Lists(v) && forall x :: x in v.freed ==> x !in v.live
  {
  }

  lemma StoreInto(v: View, conf: Conf, c: Call, w: View, u: View)
    requires c.Store? && Good(w, conf) && Lists(v) && Spared(v, w) && (forall x :: x in w.freed ==> x !in w.live)
    requires w.len < conf.maxItems && w.mem + (|c.skey| + |c.data|) <= conf.memLimit
    requires StoredInto(w, conf, c.skey, c.shash, c.data, c.srefs, c.ser, c.sit, u)
    ensures Good(u, conf) && Lives(v, c, u)
  {
    hide Sound, Held, Bounded, Good, Spared, Stored, KeyEqual, Lower, Lists, Storable;
    GoodSound(w, conf);
    if c.ser == Ok {
      if c.shash in w.tree {
        ChainKey(w, c.shash);
        SameLength(w.tree[c.shash][0].ckey.d, c.skey, conf.icase);
      }
      MayStore(w, c.sit);
      StoredGood(w, conf, c.sit, |c.data|, c.srefs);
      StoredLive(w, c.sit, |c.data|, c.srefs);
    }
    LivesSpared(v, c, w, u);
  }

  lemma StoredLive(w: View, it: Item, size: nat, refs: nat)
    ensures Stored(w, it, size, refs).freed == w.freed
    ensures forall x :: x in w.live ==> x in Stored(w, it, size, refs).live
  {
  }

  lemma UpdateKeeps(v: View, conf: Conf, c: Call, u: View)
    requires c.Update? && Does(v, conf, c, u)
    ensures Good(u, conf) && Lives(v, c, u)
  {
    hide Sound, Held, Bounded, EvictMem, Spared, Lives;
    GoodSound(v, conf);
    GoodLive(v, conf, c.cit);
    if u == v {
      LivesSame(v, c, u);
    } else {
      UpdateLinked(v, conf, c, u);
    }
  }

  lemma UpdateLinked(v: View, conf: Conf, c: Call, u: View)
    requires c.Update? && Good(v, conf) && c.cit in v.live && c.cit in v.info && c.cit in v.lru
    requires !v.info[c.cit].unlinked && v.info[c.cit].usage == 1 && Updated(v, conf, c.cit, c.size, c.uer, u)
    ensures Good(u, conf) && Lives(v, c, u)
  {
    hide Sound, Held, Bounded, Good, EvictMem, Spared, Lives;
    GoodSound(v, conf);
    SoundLists(v);
    var delta := c.size - v.info[c.cit].size;
    if v.mem + delta <= conf.memLimit {
      RefreshGood(v, conf, c.cit, c.size, 1);
      LivesSame(v, c, u);
    } else {
      UpdateRoom(v, conf, c.cit, delta);
      Evicted(v, delta, conf.memLimit);
      var (w, enough) := EvictMem(v, 0, delta, conf.memLimit);
      GoodSound(w, conf);
      FreedGone(w);
      if enough { RefreshGood(w, conf, c.cit, c.size, 1); }
      LivesSpared(v, c, w, u);
    }
  }

  lemma Evicted(v: View, need: nat, limit: nat)
    requires Sound(v) && Held(v)
    ensures Spared(v, EvictMem(v, 0, need, limit).0)
  {
    hide Lists, Linked, Counted, Accounted, Ordered, Indexed, Held, Release;
    EvictMemRight(v, 0, need, limit);
  }

  lemma UnrefKeeps(v: View, conf: Conf, c: Call, u: View)
    requires c.Unref? && Does(v, conf, c, u)
    ensures Good(u, conf) && Lives(v, c, u)
  {
    hide Sound, Held, Bounded, Good, Unrefd, Lives, Lists;
    UnrefdGood(v, conf, c.rit, v.info[c.rit].usage - 1, c.remove);
    UnrefdFreed(v, conf, c.rit, v.info[c.rit].usage - 1, c.remove);
    GoodSound(v, conf);
    FreedGone(v);
    LivesUnref(v, c, u);
  }

  lemma LivesUnref(v: View, c: Call, u: View)
    requires Lists(v) && c.Unref? && c.rit in v.live && c.rit in v.info && (forall x :: x in v.freed ==> x !in v.live)
    requires u.freed == (if c.rit in u.freed then v.freed + [c.rit] else v.freed)
    requires u.live == (if c.rit in u.freed then Without(v.live, c.rit) else v.live)
    requires c.rit in u.freed ==> v.info[c.rit].usage == 1
    ensures Lives(v, c, u)
  {
    WithoutDistinct(v.live, c.rit);
    hide Lists, Without;
  }

  lemma ResetKeeps(v: View, conf: Conf, c: Call, u: View)
    requires c.Reset? && Does(v, conf, c, u)
    ensures Good(u, conf) && Lives(v, c, u)
  {
    GoodSound(u, conf);
    FreedGone(u);
    hide Sound, Held, Bounded, Good;
    forall x | x in u.freed && x !in v.freed ensures x in v.live && x in v.info && LeftUsage(v, c, x) == 0 {
      assert x !in u.live;
      LiveInfoOf(v, conf, x);
    }
  }

  lemma LiveInfoOf(v: View, conf: Conf, x: Item)
    requires Good(v, conf)
    ensures x in v.live ==> x in v.info
  {
    if x in v.live { GoodLive(v, conf, x); }
  }

  /** Every call keeps the invariant and both limits, and frees only what nobody refers to. */
  lemma CallKeeps(v: View, conf: Conf, c: Call, u: View)
    requires Does(v, conf, c, u)
    ensures Good(u, conf) && Lives(v, c, u)
  {
    match c
    case Fetch(_, _, _, _, _, _, _, _) => FetchKeeps(v, conf, c, u);
    case Store(_, _, _, _, _, _) => StoreKeeps(v, conf, c, u);
    case Update(_, _, _) => UpdateKeeps(v, conf, c, u);
    case Unref(_, _) => UnrefKeeps(v, conf, c, u);
    case Expire(it) =>
      GoodSound(v, conf);
      ExpiredGood(v, conf, it);
      LivesReleased(v, c, it);
    case Reset => ResetKeeps(v, conf, c, u);
  }

  // ----- runs -----

  /** The states of a run, one more than its calls. */
  ghost predicate Run(vs: seq<View>, conf: Conf, calls: seq<Call>) {
    && |vs| == |calls| + 1 && Good(vs[0], conf)
    && forall i :: 0 <= i < |calls| ==> Does(vs[i], conf, calls[i], vs[i + 1])
  }

  lemma {:induction false} RunGood(vs: seq<View>, conf: Conf, calls: seq<Call>, i: nat)
    requires Run(vs, conf, calls) && i < |vs|
    ensures Good(vs[i], conf)
  {
    hide Good;
    if i > 0 {
      RunGood(vs, conf, calls, i - 1);
      CallKeeps(vs[i - 1], conf, calls[i - 1], vs[i]);
    }
  }

  /** How often an item has been freed. */
  ghost function TimesFreed(s: seq<Item>, x: Item): nat {
    if s == [] then 0 else TimesFreed(s[..|s| - 1], x) + if s[|s| - 1] == x then 1 else 0
  }

  lemma {:induction false} FreedAtMostOnce(s: seq<Item>, x: Item)
    requires NoDuplicates(s)
    ensures TimesFreed(s, x) == if x in s then 1 else 0
  {
    if s != [] {
      var n := |s| - 1;
      assert s == s[..n] + [s[n]];
      FreedAtMostOnce(s[..n], x);
    }
  }

  /** From any state on: an item that is there stays until it is freed, once and for all. */
  lemma {:induction false} OnceFreed(vs: seq<View>, conf: Conf, calls: seq<Call>, i: nat, j: nat, x: Item)
    requires Run(vs, conf, calls) && i <= j < |vs| && (x in vs[i].live || x in vs[i].freed)
    ensures TimesFreed(vs[j].freed, x) == if x in vs[j].live then 0 else 1
    ensures x in vs[i].freed ==> x in vs[j].freed
  {
    hide Good, Does, Lives;
    StaysOrFreed(vs, conf, calls, i, j, x);
    RunGood(vs, conf, calls, j);
    FreedDiffer(vs[j], conf);
    FreedAtMostOnce(vs[j].freed, x);
  }

  lemma FreedDiffer(v: View, conf: Conf)
    requires Good(v, conf)
    ensures NoDuplicates(v.freed) && forall x :: x in v.freed ==> x !in v.live
  {
  }

  lemma {:induction false} StaysOrFreed(vs: seq<View>, conf: Conf, calls: seq<Call>, i: nat, j: nat, x: Item)
    requires Run(vs, conf, calls) && i <= j < |vs| && (x in vs[i].live || x in vs[i].freed)
    ensures x in vs[j].live || x in vs[j].freed
    ensures x in vs[i].freed ==> x in vs[j].freed
    decreases j
  {
    hide Good, Does;
    if i < j {
      StaysOrFreed(vs, conf, calls, i, j - 1, x);
      CallKeeps(vs[j - 1], conf, calls[j - 1], vs[j]);
    }
  }

  /**
   * An item is freed by the call that leaves it neither linked nor referenced: before, it was linked or
   * referenced, and in every state what is there and not freed is linked or referenced.
   */
  lemma FreedInTime(vs: seq<View>, conf: Conf, calls: seq<Call>, i: nat, x: Item)
    requires Run(vs, conf, calls) && i < |calls| && x in vs[i].live
    ensures x in vs[i].info && (x in vs[i].lru || vs[i].info[x].usage > 0)
    ensures x in vs[i + 1].freed ==> LeftUsage(vs[i], calls[i], x) == 0 && x !in vs[i + 1].lru
    ensures x !in vs[i + 1].freed ==>
      x in vs[i + 1].live && x in vs[i + 1].info && (x in vs[i + 1].lru || vs[i + 1].info[x].usage > 0)
  {
    hide Does;
    RunGood(vs, conf, calls, i);
    RunGood(vs, conf, calls, i + 1);
    CallKeeps(vs[i], conf, calls[i], vs[i + 1]);
    LinkedOrUsed(vs[i], conf, x);
    LinkedOrUsed(vs[i + 1], conf, x);
    hide Good;
  }
}
