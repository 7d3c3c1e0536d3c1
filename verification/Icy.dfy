/**
 * The ICY stream demultiplexer: media data with blocks of metadata in between, cut into buffers
 * anyhow, against the stream taken as a whole.
 */
module Icy {
  type Bytes = seq<bv8>

  const NO_META := 0xFFFF_FFFF
  const MAX_META := 1 + 0xFF * 16

  /** What a stream holds: its data, and the metadata blocks that are complete. */
  datatype Content = Content(data: Bytes, metas: seq<Bytes>)

  function Then(a: Content, b: Content): Content {
    Content(a.data + b.data, a.metas + b.metas)
  }

  const NOTHING := Content([], [])

  /** fficy_metasize */
  function MetaSize(nmeta: bv8): (n: nat)
    ensures n < MAX_META
  {
    nmeta as nat * 16
  }

  /**
   * The stream as a whole: 'interval' bytes of data, a byte that counts the 16-byte units of the
   * metadata, the metadata, and so on.
   */
  function Demux(interval: nat, s: Bytes): Content
    decreases |s|
  {
    if interval == NO_META || |s| <= interval then Content(s, [])
    else
      var n, rest := MetaSize(s[interval]), s[interval + 1..];
      if |rest| < n then Content(s[..interval], [])
      else Then(Content(s[..interval], if n == 0 then [] else [rest[..n]]), Demux(interval, rest[n..]))
  }

  /** In the middle of a stream: so much data or metadata to come, and metadata got so far. */
  datatype State = State(interval: nat, datasize: nat, metasize: nat, got: Bytes)

  predicate Fine(st: State) {
    && st.datasize <= st.interval <= NO_META
    && (st.interval == NO_META ==> st.datasize == NO_META)
    && (st.metasize > 0 ==> st.datasize == 0 && |st.got| + st.metasize < MAX_META)
    && (st.metasize == 0 ==> st.got == [])
  }

  function InData(st: State): State {
    State(st.interval, st.interval, 0, [])
  }

  /** What is left of a stream in the middle of which we are. */
  function From(st: State, s: Bytes): Content
    requires Fine(st)
    decreases |s|, st.datasize
  {
    if st.interval == NO_META then Content(s, [])
    else if s == [] then NOTHING
    else if st.datasize > 0 then
      if |s| <= st.datasize then Content(s, [])
      else Then(Content(s[..st.datasize], []), From(State(st.interval, 0, 0, []), s[st.datasize..]))
    else if st.metasize == 0 then
      From(if MetaSize(s[0]) == 0 then InData(st) else State(st.interval, 0, MetaSize(s[0]), []), s[1..])
    else if |s| < st.metasize then NOTHING
    else Then(Content([], [st.got + s[..st.metasize]]), From(InData(st), s[st.metasize..]))
  }

  datatype Code = MetaChunk | Meta | Data

  /** One call: what it returns, how much it takes, and where it leaves the stream. */
  datatype Taken = Taken(code: Code, n: nat, dst: Bytes, st: State)

  function Emitted(t: Taken): Content {
    match t.code
    case MetaChunk => NOTHING
    case Meta => Content([], [t.dst])
    case Data => Content(t.dst, [])
  }

  function Min(a: int, b: int): int {
    if a < b then a else b
  }

  function TakeData(st: State, s: Bytes, from: nat): Taken
    requires from <= |s|
  {
    var n := Min(st.datasize, |s| - from);
    Taken(Data, from + n, s[from..from + n],
      if st.interval == NO_META then st else State(st.interval, st.datasize - n, 0, []))
  }

  function TakeMeta(st: State, s: Bytes, from: nat): Taken
    requires from <= |s|
  {
    var n := Min(st.metasize, |s| - from);
    var got := st.got + s[from..from + n];
    if n == st.metasize then Taken(Meta, from + n, got, InData(st))
    else Taken(MetaChunk, from + n, s[from..from + n], State(st.interval, 0, st.metasize - n, got))
  }

  function Take(st: State, s: Bytes): (t: Taken)
    requires Fine(st)
    ensures Fine(t.st) && t.n <= |s| && t.st.interval == st.interval
    ensures s != [] ==> t.n > 0
  {
    if st.datasize != 0 then TakeData(st, s, 0)
    else if st.metasize != 0 then TakeMeta(st, s, 0)
    else if s == [] then Taken(MetaChunk, 0, [], st)
    else if MetaSize(s[0]) == 0 then TakeData(InData(st), s, 1)
    else TakeMeta(State(st.interval, 0, MetaSize(s[0]), []), s, 1)
  }

  lemma ThenAssoc(a: Content, b: Content, c: Content)
    ensures Then(Then(a, b), c) == Then(a, Then(b, c))
    ensures Then(NOTHING, a) == a && Then(a, NOTHING) == a
  {
    assert (a.data + b.data) + c.data == a.data + (b.data + c.data);
    assert (a.metas + b.metas) + c.metas == a.metas + (b.metas + c.metas);
  }

  lemma FromData(st: State, s: Bytes)
    requires Fine(st) && st.metasize == 0 && (st.interval == NO_META || st.datasize > 0)
    ensures From(st, s) ==
      if st.interval == NO_META || |s| <= st.datasize then Content(s, [])
      else Then(Content(s[..st.datasize], []), From(State(st.interval, 0, 0, []), s[st.datasize..]))
  {
  }

  lemma FromNothing(st: State)
    requires Fine(st)
    ensures From(st, []) == NOTHING
  {
  }

  /** Data at the front comes out first. */
  lemma DataFirst(st: State, x: Bytes, y: Bytes)
    requires Fine(st) && st.metasize == 0 && |x| <= st.datasize
    ensures
      var next := if st.interval == NO_META then st else State(st.interval, st.datasize - |x|, 0, []);
      From(st, x + y) == Then(Content(x, []), From(next, y))
  {
    hide From;
    var s, d := x + y, st.datasize;
    if st.interval == NO_META {
      FromData(st, s);
      FromData(st, y);
    } else if d == 0 {
      assert s == y;
      ThenAssoc(From(st, y), NOTHING, NOTHING);
    } else if d == |x| {
      FromData(st, s);
      assert s[..d] == x && s[d..] == y;
      if y == [] { FromNothing(State(st.interval, 0, 0, [])); }
    } else {
      DataPart(st, x, y);
    }
  }

  lemma DataPart(st: State, x: Bytes, y: Bytes)
    requires Fine(st) && st.metasize == 0 && |x| < st.datasize && st.interval != NO_META
    ensures From(st, x + y) == Then(Content(x, []), From(State(st.interval, st.datasize - |x|, 0, []), y))
  {
    hide From;
    var s, k := x + y, st.datasize - |x|;
    FromData(st, s);
    FromData(State(st.interval, k, 0, []), y);
    if |y| > k {
      Cut(x, y, k);
      ThenAssoc(Content(x, []), Content(y[..k], []), From(State(st.interval, 0, 0, []), y[k..]));
    }
  }

  lemma Cut(x: Bytes, y: Bytes, k: nat)
    requires k <= |y|
    ensures (x + y)[..|x| + k] == x + y[..k] && (x + y)[|x| + k..] == y[k..]
  {
  }

  /** Metadata at the front is gathered. */
  lemma MetaFirst(st: State, x: Bytes, y: Bytes)
    requires Fine(st) && 0 < st.metasize && |x| <= st.metasize && st.interval != NO_META
    ensures |x| < st.metasize ==> From(st, x + y) == From(State(st.interval, 0, st.metasize - |x|, st.got + x), y)
    ensures |x| == st.metasize ==> From(st, x + y) == Then(Content([], [st.got + x]), From(InData(st), y))
  {
    var s, m := x + y, st.metasize;
    if |s| >= m {
      assert s[..m] == x + y[..m - |x|] && s[m..] == y[m - |x|..];
      assert st.got + s[..m] == (st.got + x) + y[..m - |x|];
      if m == |x| { assert y[0..] == y && y[..0] == []; }
    }
  }

  /** The byte that counts the metadata. */
  lemma CountFirst(st: State, b: bv8, y: Bytes)
    requires Fine(st) && st.datasize == 0 && st.metasize == 0
    ensures From(st, [b] + y) == From(if MetaSize(b) == 0 then InData(st) else State(st.interval, 0, MetaSize(b), []), y)
  {
    assert ([b] + y)[1..] == y;
  }

  /** What a call returns is the first of what is left, whatever follows the buffer. */
  lemma TakeRight(st: State, s: Bytes, more: Bytes)
    requires Fine(st)
    ensures
      var t := Take(st, s);
      From(st, s + more) == Then(Emitted(t), From(t.st, s[t.n..] + more))
  {
    hide From, MetaSize;
    if st.datasize != 0 {
      TakeDataRight(st, s, 0, more);
    } else if st.metasize != 0 {
      TakeMetaRight(st, s, 0, more);
    } else if s != [] {
      assert s + more == [s[0]] + (s[1..] + more);
      CountFirst(st, s[0], s[1..] + more);
      if MetaSize(s[0]) == 0 {
        TakeDataRight(InData(st), s, 1, more);
      } else {
        TakeMetaRight(State(st.interval, 0, MetaSize(s[0]), []), s, 1, more);
      }
    } else {
      ThenAssoc(From(st, s + more), NOTHING, NOTHING);
      assert s[0..] == s;
    }
    assert s[0..] == s;
  }

  lemma TakeDataRight(st: State, s: Bytes, from: nat, more: Bytes)
    requires Fine(st) && st.metasize == 0 && from <= |s|
    ensures
      var t := TakeData(st, s, from);
      && from <= t.n <= |s| && Fine(t.st)
      && From(st, s[from..] + more) == Then(Emitted(t), From(t.st, s[t.n..] + more))
  {
    hide From;
    var t := TakeData(st, s, from);
    assert s[from..] + more == t.dst + (s[t.n..] + more);
    DataFirst(st, t.dst, s[t.n..] + more);
  }

  lemma TakeMetaRight(st: State, s: Bytes, from: nat, more: Bytes)
    requires Fine(st) && st.metasize > 0 && st.interval != NO_META && from <= |s|
    ensures
      var t := TakeMeta(st, s, from);
      && from <= t.n <= |s| && Fine(t.st)
      && From(st, s[from..] + more) == Then(Emitted(t), From(t.st, s[t.n..] + more))
  {
    hide From;
    var t := TakeMeta(st, s, from);
    var x, rest := s[from..t.n], s[t.n..] + more;
    assert s[from..] + more == x + rest;
    MetaFirst(st, x, rest);
    ThenAssoc(From(t.st, rest), NOTHING, NOTHING);
  }

  // ----- buffers -----

  /** A buffer, handed over again until nothing of it is left. */
  function Feed(st: State, s: Bytes): (State, Content)
    requires Fine(st)
    ensures Fine(Feed(st, s).0) && Feed(st, s).0.interval == st.interval
    decreases |s|
  {
    if s == [] then (st, NOTHING)
    else
      var t := Take(st, s);
      var r := Feed(t.st, s[t.n..]);
      (r.0, Then(Emitted(t), r.1))
  }

  function FeedAll(st: State, buffers: seq<Bytes>): Content
    requires Fine(st)
    decreases |buffers|
  {
    if buffers == [] then NOTHING
    else
      var r := Feed(st, buffers[0]);
      Then(r.1, FeedAll(r.0, buffers[1..]))
  }

  function Flat(buffers: seq<Bytes>): Bytes {
    if buffers == [] then [] else buffers[0] + Flat(buffers[1..])
  }

  lemma {:induction false} FeedRight(st: State, s: Bytes, more: Bytes)
    requires Fine(st)
    ensures
      var r := Feed(st, s);
      From(st, s + more) == Then(r.1, From(r.0, more))
    decreases |s|
  {
    if s == [] {
      assert s + more == more;
      ThenAssoc(From(st, more), NOTHING, NOTHING);
    } else {
      hide From, Take;
      var t := Take(st, s);
      TakeRight(st, s, more);
      FeedRight(t.st, s[t.n..], more);
      var r := Feed(t.st, s[t.n..]);
      ThenAssoc(Emitted(t), r.1, From(r.0, more));
    }
  }

  lemma {:induction false} FeedAllRight(st: State, buffers: seq<Bytes>)
    requires Fine(st)
    ensures FeedAll(st, buffers) == From(st, Flat(buffers))
    decreases |buffers|
  {
    if buffers != [] {
      FeedRight(st, buffers[0], Flat(buffers[1..]));
      FeedAllRight(Feed(st, buffers[0]).0, buffers[1..]);
    }
  }

  /** fficy_parseinit */
  function Start(interval: nat): (st: State)
    requires interval <= NO_META
    ensures Fine(st)
  {
    State(interval, interval, 0, [])
  }

  /** From the start, what is left is the whole stream. */
  lemma {:induction false} FromStart(interval: nat, s: Bytes)
    requires interval <= NO_META
    ensures From(Start(interval), s) == Demux(interval, s)
    decreases |s|
  {
    hide From;
    var st := Start(interval);
    if interval == NO_META || |s| <= interval {
      if interval == 0 { FromNothing(st); } else { FromData(st, s); }
    } else {
      var x, b, rest := s[..interval], s[interval], s[interval + 1..];
      var n := MetaSize(b);
      assert s == x + ([b] + rest);
      DataFirst(st, x, [b] + rest);
      CountFirst(State(interval, 0, 0, []), b, rest);
      if n <= |rest| { FromStart(interval, rest[n..]); }
      if n > 0 { FromBlock(interval, n, rest); }
      if n <= |rest| && n > 0 {
        ThenAssoc(Content(x, []), Content([], [rest[..n]]), Demux(interval, rest[n..]));
        assert Then(Content(x, []), Content([], [rest[..n]])) == Content(x, [rest[..n]]);
      } else if n == 0 {
        assert rest[0..] == rest;
      } else {
        ThenAssoc(Content(x, []), NOTHING, NOTHING);
      }
    }
  }

  lemma FromBlock(interval: nat, n: nat, rest: Bytes)
    requires interval < NO_META && 0 < n < MAX_META
    ensures From(State(interval, 0, n, []), rest) ==
      if |rest| < n then NOTHING else Then(Content([], [rest[..n]]), From(Start(interval), rest[n..]))
  {
    if |rest| >= n { assert [] + rest[..n] == rest[..n]; }
  }

  /** However the stream is cut into buffers, its data and its metadata come out the same. */
  lemma AnyBuffers(interval: nat, buffers: seq<Bytes>)
    requires interval <= NO_META
    ensures FeedAll(Start(interval), buffers) == Demux(interval, Flat(buffers))
  {
    FeedAllRight(Start(interval), buffers);
    FromStart(interval, Flat(buffers));
  }

  // ----- the parser -----

  class Parser {
    const interval: nat
    var datasize: nat
    var metasize: nat
    var metaLen: nat
    const meta: array<bv8>

    /** Where in the stream the parser is; the buffer counts only while metadata is being gathered. */
    ghost function Where(): State
      requires metaLen <= meta.Length
      reads this, meta
    {
      State(interval, datasize, metasize, if metasize == 0 then [] else meta[..metaLen])
    }

    ghost predicate Valid()
      reads this, meta
    {
      meta.Length == MAX_META && metaLen <= meta.Length && Fine(Where())
    }

    /** fficy_parseinit */
    constructor (interval: nat)
      requires interval <= NO_META
      ensures Valid() && Where() == Start(interval)
    {
      this.interval, datasize, metasize, metaLen := interval, interval, 0, 0;
      meta := new bv8[MAX_META];
    }

    /** fficy_parse: the next piece of the stream, of which 'n' bytes are taken. */
    method Parse(data: Bytes) returns (code: Code, n: nat, dst: Bytes)
      requires Valid()
      modifies this, meta
      ensures Valid()
      ensures Taken(code, n, dst, Where()) == Take(old(Where()), data)
    {
      var d := 0;
      if datasize == 0 {
        if metasize == 0 {
          if d == |data| {
            return MetaChunk, 0, [];
          }
          metasize := MetaSize(data[d]);
          d := d + 1;
          metaLen := 0;
        }
        if metasize == 0 {
          datasize := interval;
        } else {
          code, n, dst := GatherMeta(data, d);
          return;
        }
      }
      var k := Min(datasize, |data| - d);
      dst := data[d..d + k];
      n := d + k;
      if interval != NO_META {
        datasize := datasize - k;
      }
      code := Data;
    }

    /** The part of a call that gathers metadata, once its size is known. */
    method GatherMeta(data: Bytes, d: nat) returns (code: Code, n: nat, dst: Bytes)
      requires Valid() && d <= |data| && metasize > 0
      modifies this, meta
      ensures Valid()
      ensures Taken(code, n, dst, Where()) == TakeMeta(old(Where()), data, d)
    {
      ghost var got := meta[..metaLen];
      var k := Min(metasize, |data| - d);
      dst := data[d..d + k];
      n := d + k;
      metasize := metasize - k;
      if metasize != 0 || metaLen != 0 {
        forall i | 0 <= i < k {
          meta[metaLen + i] := dst[i];
        }
        metaLen := metaLen + k;
        assert meta[..metaLen] == got + dst;
        if metasize == 0 {
          dst := meta[..metaLen];
        }
      } else {
        assert got + dst == dst;
      }
      if metasize == 0 {
        datasize := interval;
        return Meta, n, dst;
      }
      code := MetaChunk;
    }

    /** A reader of the stream: the buffer is handed over until nothing is left of it. */
    method Read(buffer: Bytes) returns (out: Content)
      requires Valid()
      modifies this, meta
      ensures Valid()
      ensures (Where(), out) == Feed(old(Where()), buffer)
      decreases |buffer|
    {
      if buffer == [] {
        return NOTHING;
      }
      var code, n, dst := Parse(buffer);
      var more := Read(buffer[n..]);
      out := Then(match code case MetaChunk => NOTHING case Meta => Content([], [dst]) case Data => Content(dst, []), more);
    }
  }
}
