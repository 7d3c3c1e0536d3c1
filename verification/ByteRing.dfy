/**
 * The byte ring: reads and writes of any length, from any position, against one queue of at most
 * cap - 1 bytes.
 */
module ByteRing {
  import opened Modulo

  function Min(a: int, b: int): (m: int)
    ensures m <= a && m <= b && (m == a || m == b)
  {
    if a < b then a else b
  }

  /** 'n' bytes from index 'r' on, going round. */
  function Window(d: seq<bv8>, r: nat, n: nat): (q: seq<bv8>)
    requires |d| > 0
    ensures |q| == n
    ensures forall k :: 0 <= k < n ==> q[k] == d[Mod(r + k, |d|)]
  {
    seq(n, k requires 0 <= k < n => d[Mod(r + k, |d|)])
  }

  /** 'src' has been put at index 'w', going round, and nothing else has changed. */
  predicate Stored(d: seq<bv8>, w: nat, src: seq<bv8>, d2: seq<bv8>) {
    && |d2| == |d| > 0 && |src| <= |d|
    && forall k :: 0 <= k < |d| ==> d2[Mod(w + k, |d|)] == StoredAt(d, w, src, k)
  }

  function StoredAt(d: seq<bv8>, w: nat, src: seq<bv8>, k: nat): bv8
    requires |d| > 0
  {
    if k < |src| then src[k] else d[Mod(w + k, |d|)]
  }

  lemma StoredStraight(d: seq<bv8>, w: nat, src: seq<bv8>)
    requires w + |src| <= |d| && w < |d|
    ensures Stored(d, w, src, d[..w] + src + d[w + |src|..])
  {
    hide Mod;
    forall k | 0 <= k < |d| ensures (d[..w] + src + d[w + |src|..])[Mod(w + k, |d|)] == StoredAt(d, w, src, k) {
      ModSmall(w + k, |d|);
    }
  }

  lemma StoredRound(d: seq<bv8>, w: nat, src: seq<bv8>)
    requires w < |d| < w + |src| && |src| <= |d|
    ensures
      var n := |d| - w;
      Stored(d, w, src, src[n..] + d[|src| - n..w] + src[..n])
  {
    hide Mod;
    var n := |d| - w;
    forall k | 0 <= k < |d| ensures (src[n..] + d[|src| - n..w] + src[..n])[Mod(w + k, |d|)] == StoredAt(d, w, src, k) {
      ModSmall(w + k, |d|);
    }
  }

  /** Storing where the window ends, and going on until at most one round is done. */
  lemma StoredWindow(d: seq<bv8>, r: nat, used: nat, src: seq<bv8>, d2: seq<bv8>, drop: nat)
    requires r < |d| && used < |d| && Stored(d, Mod(r + used, |d|), src, d2)
    requires drop <= used + |src| <= |d| + drop
    ensures Window(d2, Mod(r + drop, |d|), used + |src| - drop) == (Window(d, r, used) + src)[drop..]
  {
    hide Mod;
    var cap, w, n := |d|, Mod(r + used, |d|), used + |src| - drop;
    var got, want := Window(d2, Mod(r + drop, cap), n), (Window(d, r, used) + src)[drop..];
    forall k | 0 <= k < n ensures got[k] == want[k] {
      var x := drop + k;
      ModAdd(r + drop, k, cap);
      if x < used {
        ModAdd(r + used, x - used + cap, cap);
        ModRound(r + x, cap);
        assert d2[Mod(w + (x - used + cap), cap)] == StoredAt(d, w, src, x - used + cap);
      } else {
        ModAdd(r + used, x - used, cap);
        assert d2[Mod(w + (x - used), cap)] == StoredAt(d, w, src, x - used);
      }
    }
  }

  /** Taking what lies in sequence, then the rest. */
  lemma WindowSplit(d: seq<bv8>, r: nat, used: nat, n: nat)
    requires r + n <= |d| && n <= used && r < |d|
    ensures Window(d, r, used) == d[r..r + n] + Window(d, Mod(r + n, |d|), used - n)
  {
    hide Mod;
    var one, two := Window(d, r, used), d[r..r + n] + Window(d, Mod(r + n, |d|), used - n);
    forall k | 0 <= k < used ensures one[k] == two[k] {
      if k < n { ModSmall(r + k, |d|); } else { WindowShift(d, r, n, used - n, k - n); }
    }
  }

  lemma WindowShift(d: seq<bv8>, r: nat, n: nat, m: nat, j: nat)
    requires |d| > 0 && j < m
    ensures Window(d, Mod(r + n, |d|), m)[j] == d[Mod(r + n + j, |d|)]
  {
    hide Mod;
    ModAdd(r + n, j, |d|);
  }

  /** The last of a long input, after what was there. */
  lemma Tail(q: seq<bv8>, src: seq<bv8>, from: nat, over: nat, room: nat)
    requires |q| <= room && from == (if |src| > room then |src| - room else 0)
    requires over == if |src| - from > room - |q| then |src| - from - (room - |q|) else 0
    ensures (q + src[from..])[over..] == if |q + src| <= room then q + src else (q + src)[|q + src| - room..]
  {
  }

  class Buffer {
    const data: array<bv8>
    var r: nat
    var w: nat

    ghost predicate Valid()
      reads this
    {
      data.Length > 0 && r < data.Length && w < data.Length
    }

    /** What a reader will get, oldest byte first. */
    ghost function Contents(): (q: seq<bv8>)
      requires Valid()
      reads this, data
      ensures |q| < data.Length
    {
      Window(data[..], r, CanRead())
    }

    /** ffringbuf_init */
    constructor (d: array<bv8>)
      requires d.Length > 0
      ensures Valid() && data == d && Contents() == []
    {
      data := d;
      r, w := 0, 0;
    }

    /** ffringbuf_reset */
    method Reset()
      requires Valid()
      modifies this
      ensures Valid() && Contents() == []
    {
      r, w := 0, 0;
    }

    function CanRead(): (n: nat)
      requires Valid()
      reads this
      ensures n < data.Length
      ensures Mod(r + n, data.Length) == w
    {
      ModAdd(w - r, r, data.Length);
      ModSmall(w, data.Length);
      Mod(w - r, data.Length)
    }

    function CanReadSeq(): (n: nat)
      requires Valid()
      reads this
    {
      if w >= r then w - r else data.Length - r
    }

    function CanWrite(): (n: nat)
      requires Valid()
      reads this
      ensures n == data.Length - 1 - CanRead()
    {
      var x := Mod(r - w - 1, data.Length);
      Room(r, w, data.Length);
      x
    }

    function CanWriteSeq(): (n: nat)
      requires Valid()
      reads this
    {
      if r > w then r - w - 1 else if r == 0 then data.Length - w - 1 else data.Length - w
    }

    predicate Full()
      requires Valid()
      reads this
      ensures Full() <==> CanRead() == data.Length - 1
    {
      assert Next(w, data.Length) == r <==> CanRead() == data.Length - 1 by { FullIff(r, w, data.Length); }
      Next(w, data.Length) == r
    }

    predicate Empty()
      requires Valid()
      reads this
      ensures Empty() <==> CanRead() == 0
    {
      Used(r, w, data.Length);
      r == w
    }

    /** Append until the end of the sequential space. */
    method WriteSeq(src: seq<bv8>) returns (n: nat)
      requires Valid()
      modifies this`w, data
      ensures Valid() && r == old(r)
      ensures n == Min(old(CanWriteSeq()), |src|) <= old(CanWrite())
      ensures Contents() == old(Contents()) + src[..n]
      ensures w == Mod(old(w) + n, data.Length)
    {
      hide Mod;
      ghost var d, used := data[..], CanRead();
      n := Min(CanWriteSeq(), |src|);
      SeqRoom(r, w, data.Length);
      forall i | 0 <= i < n {
        data[w + i] := src[i];
      }
      assert data[..] == d[..w] + src[..n] + d[w + n..];
      StoredStraight(d, w, src[..n]);
      StoredWindow(d, r, used, src[..n], data[..], 0);
      ModAdd(r + used, n, data.Length);
      w := Mod(w + n, data.Length);
      UsedIs(r, w, used + n, data.Length);
      ModSmall(r, data.Length);
      assert (Window(d, r, used) + src[..n])[0..] == Window(d, r, used) + src[..n];
    }

    /** Append as much as there is room for. */
    method Write(src: seq<bv8>) returns (n: nat)
      requires Valid()
      modifies this`w, data
      ensures Valid() && r == old(r)
      ensures n == Min(|src|, data.Length - 1 - |old(Contents())|)
      ensures Contents() == old(Contents()) + src[..n]
    {
      hide Mod, Window;
      ghost var q := Contents();
      SeqRoom(r, w, data.Length);
      n := WriteSeq(src);
      if n != |src| {
        ghost var n0 := n;
        SeqRoom(r, w, data.Length);
        var m := WriteSeq(src[n..]);
        n := n + m;
        Regroup(q, src, n0, m);
      }
    }

    /** The two copies of an overwrite: up to the end of the buffer, then from its start. */
    method Copy(part: seq<bv8>)
      requires Valid() && |part| <= data.Length
      modifies data
      ensures Stored(old(data[..]), w, part, data[..])
    {
      hide Mod;
      var len := |part|;
      var n := Min(data.Length - w, len);
      forall i | 0 <= i < n {
        data[w + i] := part[i];
      }
      if len != n {
        forall i | 0 <= i < len - n {
          data[i] := part[n + i];
        }
        assert data[..] == part[n..] + old(data[..])[len - n..w] + part[..n];
        StoredRound(old(data[..]), w, part);
      } else {
        assert data[..] == old(data[..])[..w] + part + old(data[..])[w + len..];
        StoredStraight(old(data[..]), w, part);
      }
    }

    /** Keep the last bytes only, when not everything fits. */
    method Overwrite(src: seq<bv8>)
      requires Valid()
      modifies this, data
      ensures Valid()
      ensures
        var all := old(Contents()) + src;
        Contents() == if |all| < data.Length then all else all[|all| - (data.Length - 1)..]
    {
      hide Mod, Window, Stored;
      ghost var d, used := data[..], CanRead();
      var len, from := |src|, 0;
      if len >= data.Length {
        from := len - (data.Length - 1);
        len := data.Length - 1;
      }
      var part := src[from..];
      Copy(part);
      var over := if len > CanWrite() then len - CanWrite() else 0;
      OverwriteResult(d, r, used, w, src, from, over, data[..]);
      w := Mod(w + len, data.Length);
      r := Mod(r + over, data.Length);
    }

    /** Take what lies in sequence from the reading index. */
    method ReadSeq(len: nat) returns (dst: seq<bv8>)
      requires Valid()
      modifies this`r
      ensures Valid() && w == old(w)
      ensures |dst| == Min(len, old(CanReadSeq())) <= old(CanRead())
      ensures old(Contents()) == dst + Contents()
      ensures r == Mod(old(r) + |dst|, data.Length)
    {
      hide Mod, Window;
      ghost var used := CanRead();
      var n := Min(len, CanReadSeq());
      Used(r, w, data.Length);
      dst := data[r..r + n];
      WindowSplit(data[..], r, used, n);
      ModAdd(r + n, used - n, data.Length);
      r := Mod(r + n, data.Length);
      UsedIs(r, w, used - n, data.Length);
    }

    /** Take as much as there is. */
    method Read(len: nat) returns (dst: seq<bv8>)
      requires Valid()
      modifies this`r
      ensures Valid() && w == old(w)
      ensures |dst| == Min(len, |old(Contents())|)
      ensures old(Contents()) == dst + Contents()
    {
      hide Mod, Window;
      ghost var q := Contents();
      Used(r, w, data.Length);
      dst := ReadSeq(len);
      if |dst| != len {
        Used(r, w, data.Length);
        var more := ReadSeq(len - |dst|);
        assert q == (dst + more) + Contents();
        dst := dst + more;
      }
    }
  }

  lemma Regroup(q: seq<bv8>, src: seq<bv8>, n: nat, m: nat)
    requires n + m <= |src|
    ensures q + src[..n] + src[n..][..m] == q + src[..n + m]
  {
    assert src[..n] + src[n..][..m] == src[..n + m];
  }

  lemma SeqRoom(r: nat, w: nat, cap: nat)
    requires r < cap && w < cap
    ensures
      var n := if r > w then r - w - 1 else if r == 0 then cap - w - 1 else cap - w;
      n <= cap - 1 - Mod(w - r, cap) && w + n <= cap && (r > w || r == 0 ==> n == cap - 1 - Mod(w - r, cap))
  {
    hide Mod;
    Used(r, w, cap);
  }

  /** How far apart the indices are after 'len' more bytes, 'over' of them over old ones. */
  lemma Advance(r: nat, used: nat, w: nat, len: nat, over: nat, r2: nat, w2: nat, cap: nat)
    requires r < cap && over <= used + len < cap + over
    requires w == Mod(r + used, cap) && w2 == Mod(w + len, cap) && r2 == Mod(r + over, cap)
    ensures Mod(w2 - r2, cap) == used + len - over
  {
    hide Mod;
    var n := used + len - over;
    ModAdd(r + over, n, cap);
    ModAdd(r + used, len, cap);
    UsedIs(r2, w2, n, cap);
  }

  /** The queue after an overwrite. */
  lemma OverwriteResult(d: seq<bv8>, r: nat, used: nat, w: nat, src: seq<bv8>, from: nat, over: nat, d2: seq<bv8>)
    requires r < |d| && used < |d| && w == Mod(r + used, |d|) && from <= |src|
    requires Stored(d, w, src[from..], d2)
    requires from == (if |src| >= |d| then |src| - (|d| - 1) else 0)
    requires over == if |src| - from > |d| - 1 - used then |src| - from - (|d| - 1 - used) else 0
    ensures
      var r2, w2 := Mod(r + over, |d|), Mod(w + |src| - from, |d|);
      var all := Window(d, r, used) + src;
      Window(d2, r2, Mod(w2 - r2, |d|)) == if |all| < |d| then all else all[|all| - (|d| - 1)..]
  {
    hide Mod, Window, Stored;
    var part := src[from..];
    StoredWindow(d, r, used, part, d2, over);
    Tail(Window(d, r, used), src, from, over, |d| - 1);
    Advance(r, used, w, |part|, over, Mod(r + over, |d|), Mod(w + |part|, |d|), |d|);
  }

  lemma UsedIs(r: nat, w: nat, n: nat, cap: nat)
    requires r < cap && w < cap && n < cap && Mod(r + n, cap) == w
    ensures Mod(w - r, cap) == n
  {
    hide Mod;
    ModSmall(w - r, cap);
    ModSmall(r + n, cap);
  }

  lemma Used(r: nat, w: nat, cap: nat)
    requires r < cap && w < cap
    ensures Mod(w - r, cap) == if w >= r then w - r else w - r + cap
  {
    ModSmall(w - r, cap);
  }

  lemma Room(r: nat, w: nat, cap: nat)
    requires r < cap && w < cap
    ensures Mod(r - w - 1, cap) == cap - 1 - Mod(w - r, cap)
  {
    hide Mod;
    ModSmall(w - r, cap);
    ModSmall(r - w - 1, cap);
  }

  lemma FullIff(r: nat, w: nat, cap: nat)
    requires r < cap && w < cap
    ensures Next(w, cap) == r <==> Mod(w - r, cap) == cap - 1
  {
    ModSmall(w - r, cap);
    ModSmall(w + 1, cap);
  }
}
