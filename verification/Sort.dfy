/**
 * The stable sort: merging through one shared temporary buffer, and insertion for pieces that fit
 * in a cache line, against inserting the elements one by one.
 */
module Sort {
  /** A comparator; its elements are integers of 4 or 8 bytes. */
  type Cmp = (int, int) -> int

  /** What a comparator has to be: total and transitive. */
  ghost predicate Preorder(cmp: Cmp) {
    && (forall a, b :: cmp(a, b) <= 0 || cmp(b, a) <= 0)
    && (forall a, b, c :: cmp(a, b) <= 0 && cmp(b, c) <= 0 ==> cmp(a, c) <= 0)
  }

  lemma Total(cmp: Cmp, a: int, b: int)
    requires Preorder(cmp)
    ensures cmp(a, b) <= 0 || cmp(b, a) <= 0
  {
  }

  lemma Trans(cmp: Cmp, a: int, b: int, c: int)
    requires Preorder(cmp) && cmp(a, b) <= 0 && cmp(b, c) <= 0
    ensures cmp(a, c) <= 0
  {
  }

  ghost predicate Sorted(cmp: Cmp, s: seq<int>) {
    forall i, j :: 0 <= i < j < |s| ==> cmp(s[i], s[j]) <= 0
  }

  predicate Same(cmp: Cmp, a: int, b: int) {
    cmp(a, b) <= 0 && cmp(b, a) <= 0
  }

  /** The elements that compare equal to 'x', in order. */
  function Class(cmp: Cmp, x: int, s: seq<int>): seq<int> {
    if s == [] then [] else Class(cmp, x, s[..|s| - 1]) + (if Same(cmp, x, s[|s| - 1]) then [s[|s| - 1]] else [])
  }

  /** 'x' goes after every element that is not greater. */
  function Insert(cmp: Cmp, s: seq<int>, x: int): (r: seq<int>)
    ensures |r| == |s| + 1
  {
    if s == [] || cmp(s[|s| - 1], x) <= 0 then s + [x]
    else Insert(cmp, s[..|s| - 1], x) + [s[|s| - 1]]
  }

  /** The elements, inserted one by one. */
  function StableSort(cmp: Cmp, s: seq<int>): (r: seq<int>)
    ensures |r| == |s|
  {
    if s == [] then [] else Insert(cmp, StableSort(cmp, s[..|s| - 1]), s[|s| - 1])
  }

  /** Of equal elements, those of 'l' go first. */
  function Merge(cmp: Cmp, l: seq<int>, r: seq<int>): (m: seq<int>)
    ensures |m| == |l| + |r|
    decreases |l| + |r|
  {
    if l == [] then r
    else if r == [] then l
    else if cmp(l[0], r[0]) <= 0 then [l[0]] + Merge(cmp, l[1..], r)
    else [r[0]] + Merge(cmp, l, r[1..])
  }

  // ----- what StableSort is -----

  lemma {:induction false} InsertKeeps(cmp: Cmp, s: seq<int>, x: int)
    requires Preorder(cmp) && Sorted(cmp, s)
    ensures Sorted(cmp, Insert(cmp, s, x))
    ensures multiset(Insert(cmp, s, x)) == multiset(s) + multiset{x}
  {
    hide Preorder;
    if s == [] || cmp(s[|s| - 1], x) <= 0 {
      forall i | 0 <= i < |s| ensures cmp(s[i], x) <= 0 {
        if i < |s| - 1 { Trans(cmp, s[i], s[|s| - 1], x); }
      }
    } else {
      var n := |s| - 1;
      InsertKeeps(cmp, s[..n], x);
      assert s == s[..n] + [s[n]];
      Total(cmp, s[n], x);
      AppendSorted(cmp, Insert(cmp, s[..n], x), s[n], s[..n] + [x]);
    }
  }

  lemma AppendSorted(cmp: Cmp, r: seq<int>, z: int, s: seq<int>)
    requires Sorted(cmp, r) && multiset(r) == multiset(s) && forall i :: 0 <= i < |s| ==> cmp(s[i], z) <= 0
    ensures Sorted(cmp, r + [z])
  {
    forall i | 0 <= i < |r| ensures cmp(r[i], z) <= 0 {
      assert r[i] in multiset(r);
      assert r[i] in s;
    }
  }

  lemma PrependSorted(cmp: Cmp, z: int, r: seq<int>, s: seq<int>)
    requires Sorted(cmp, r) && multiset(r) == multiset(s) && forall i :: 0 <= i < |s| ==> cmp(z, s[i]) <= 0
    ensures Sorted(cmp, [z] + r)
  {
    forall i | 0 <= i < |r| ensures cmp(z, r[i]) <= 0 {
      assert r[i] in multiset(r);
      assert r[i] in s;
    }
  }

  lemma {:induction false} InsertClass(cmp: Cmp, s: seq<int>, x: int, y: int)
    requires Preorder(cmp) && Sorted(cmp, s)
    ensures Class(cmp, y, Insert(cmp, s, x)) == Class(cmp, y, s + [x])
  {
    hide Preorder;
    if s == [] || cmp(s[|s| - 1], x) <= 0 {
    } else {
      var n := |s| - 1;
      var z := s[n];
      InsertClass(cmp, s[..n], x, y);
      var r := Insert(cmp, s[..n], x);
      assert (r + [z])[..|r|] == r;
      assert (s + [x])[..|s|] == s && (s[..n] + [x])[..n] == s[..n];
      if Same(cmp, y, x) && Same(cmp, y, z) { Trans(cmp, z, y, x); }
    }
  }

  lemma {:induction false} SortSorts(cmp: Cmp, s: seq<int>)
    requires Preorder(cmp)
    ensures Sorted(cmp, StableSort(cmp, s))
    ensures multiset(StableSort(cmp, s)) == multiset(s)
  {
    if s != [] {
      var n := |s| - 1;
      SortSorts(cmp, s[..n]);
      InsertKeeps(cmp, StableSort(cmp, s[..n]), s[n]);
      assert s == s[..n] + [s[n]];
    }
  }

  /** Elements that compare equal keep their order. */
  lemma {:induction false} SortStable(cmp: Cmp, s: seq<int>, y: int)
    requires Preorder(cmp)
    ensures Class(cmp, y, StableSort(cmp, s)) == Class(cmp, y, s)
  {
    if s != [] {
      var n := |s| - 1;
      var t := StableSort(cmp, s[..n]);
      SortStable(cmp, s[..n], y);
      SortSorts(cmp, s[..n]);
      InsertClass(cmp, t, s[n], y);
      assert (t + [s[n]])[..|t|] == t;
    }
  }

  lemma {:induction false} ClassAppend(cmp: Cmp, y: int, s: seq<int>, t: seq<int>)
    ensures Class(cmp, y, s + t) == Class(cmp, y, s) + Class(cmp, y, t)
  {
    if t == [] {
      assert s + t == s;
    } else {
      var n := |t| - 1;
      assert (s + t)[..|s + t| - 1] == s + t[..n];
      ClassAppend(cmp, y, s, t[..n]);
    }
  }

  /** Sorted, and with the same elements in every class, leaves no choice. */
  lemma {:induction false} OneStableSort(cmp: Cmp, s: seq<int>, t: seq<int>)
    requires Preorder(cmp) && Sorted(cmp, s) && Sorted(cmp, t)
    requires forall y :: Class(cmp, y, s) == Class(cmp, y, t)
    ensures s == t
  {
    hide Preorder, Sorted;
    if s == [] {
      if t != [] { ClassOfLast(cmp, t); }
    } else if t == [] {
      ClassOfLast(cmp, s);
    } else {
      var m, n := |s| - 1, |t| - 1;
      var x, y := s[m], t[n];
      LastIsGreatest(cmp, s, t);
      LastIsGreatest(cmp, t, s);
      ClassOfLast(cmp, s);
      SameLast(Class(cmp, x, s[..m]), x, Class(cmp, x, t[..n]), y);
      forall z ensures Class(cmp, z, s[..m]) == Class(cmp, z, t[..n]) {
        assert Class(cmp, z, s) == Class(cmp, z, t);
        Cancel(Class(cmp, z, s[..m]), Class(cmp, z, t[..n]), if Same(cmp, z, x) then [x] else []);
      }
      assert Sorted(cmp, s[..m]) && Sorted(cmp, t[..n]) by { PrefixSorted(cmp, s); PrefixSorted(cmp, t); }
      OneStableSort(cmp, s[..m], t[..n]);
      assert s == s[..m] + [x] && t == t[..n] + [x];
    }
  }

  lemma Cancel(a: seq<int>, b: seq<int>, c: seq<int>)
    requires a + c == b + c
    ensures a == b
  {
    assert |a| == |b|;
    assert a == (a + c)[..|a|] && b == (b + c)[..|b|];
  }

  lemma SameLast(a: seq<int>, x: int, b: seq<int>, y: int)
    requires a + [x] == b + [y]
    ensures x == y
  {
    assert (a + [x])[|a + [x]| - 1] == x && (b + [y])[|b + [y]| - 1] == y;
  }

  lemma PrefixSorted(cmp: Cmp, s: seq<int>)
    requires s != [] && Sorted(cmp, s)
    ensures Sorted(cmp, s[..|s| - 1])
  {
  }

  lemma ClassOfLast(cmp: Cmp, s: seq<int>)
    requires Preorder(cmp) && s != []
    ensures Class(cmp, s[|s| - 1], s) != [] && Class(cmp, s[|s| - 1], s) == Class(cmp, s[|s| - 1], s[..|s| - 1]) + [s[|s| - 1]]
  {
    Total(cmp, s[|s| - 1], s[|s| - 1]);
  }

  lemma LastIsGreatest(cmp: Cmp, s: seq<int>, t: seq<int>)
    requires Preorder(cmp) && Sorted(cmp, t) && s != [] && t != []
    requires Class(cmp, s[|s| - 1], s) == Class(cmp, s[|s| - 1], t)
    ensures cmp(s[|s| - 1], t[|t| - 1]) <= 0
  {
    hide Preorder;
    var x := s[|s| - 1];
    ClassOfLast(cmp, s);
    var i := ClassMember(cmp, x, t);
    if i < |t| - 1 { Trans(cmp, x, t[i], t[|t| - 1]); }
  }

  lemma {:induction false} ClassMember(cmp: Cmp, x: int, t: seq<int>) returns (i: nat)
    requires Class(cmp, x, t) != []
    ensures i < |t| && Same(cmp, x, t[i])
  {
    i := |t| - 1;
    if !Same(cmp, x, t[i]) { i := ClassMember(cmp, x, t[..i]); }
  }

  // ----- merging -----

  lemma {:induction false} MergePermutes(cmp: Cmp, l: seq<int>, r: seq<int>)
    ensures multiset(Merge(cmp, l, r)) == multiset(l + r)
    decreases |l| + |r|
  {
    if l == [] {
      assert l + r == r;
    } else if r == [] {
      assert l + r == l;
    } else if cmp(l[0], r[0]) <= 0 {
      MergePermutes(cmp, l[1..], r);
      assert l + r == [l[0]] + (l[1..] + r);
    } else {
      MergePermutes(cmp, l, r[1..]);
      assert r == [r[0]] + r[1..];
      assert multiset(l + r) == multiset{r[0]} + multiset(l + r[1..]);
    }
  }

  lemma {:induction false} MergeSorted(cmp: Cmp, l: seq<int>, r: seq<int>)
    requires Preorder(cmp) && Sorted(cmp, l) && Sorted(cmp, r)
    ensures Sorted(cmp, Merge(cmp, l, r))
    decreases |l| + |r|
  {
    hide Preorder;
    if l != [] && r != [] {
      if cmp(l[0], r[0]) <= 0 {
        MergeSorted(cmp, l[1..], r);
        MergePermutes(cmp, l[1..], r);
        forall i | 0 < i < |r| ensures cmp(l[0], r[i]) <= 0 { Trans(cmp, l[0], r[0], r[i]); }
        PrependSorted(cmp, l[0], Merge(cmp, l[1..], r), l[1..] + r);
      } else {
        MergeSorted(cmp, l, r[1..]);
        MergePermutes(cmp, l, r[1..]);
        Total(cmp, l[0], r[0]);
        forall i | 0 < i < |l| ensures cmp(r[0], l[i]) <= 0 { Trans(cmp, r[0], l[0], l[i]); }
        PrependSorted(cmp, r[0], Merge(cmp, l, r[1..]), l + r[1..]);
      }
    }
  }

  lemma {:induction false} MergeClass(cmp: Cmp, l: seq<int>, r: seq<int>, y: int)
    requires Preorder(cmp) && Sorted(cmp, l) && Sorted(cmp, r)
    ensures Class(cmp, y, Merge(cmp, l, r)) == Class(cmp, y, l) + Class(cmp, y, r)
    decreases |l| + |r|
  {
    hide Preorder, Class, Same;
    if l == [] || r == [] {
      assert Class(cmp, y, []) == [] by { NoClass(cmp, y, []); }
    } else if cmp(l[0], r[0]) <= 0 {
      MergeClass(cmp, l[1..], r, y);
      ClassAppend(cmp, y, [l[0]], Merge(cmp, l[1..], r));
      ClassAppend(cmp, y, [l[0]], l[1..]);
      assert l == [l[0]] + l[1..];
    } else {
      MergeClass(cmp, l, r[1..], y);
      ClassAppend(cmp, y, [r[0]], Merge(cmp, l, r[1..]));
      ClassAppend(cmp, y, [r[0]], r[1..]);
      assert r == [r[0]] + r[1..];
      LaterClass(cmp, y, l, r[0]);
    }
  }

  /** What is less than the first of 'l' is in no class with an element of 'l'. */
  lemma LaterClass(cmp: Cmp, y: int, l: seq<int>, z: int)
    requires Preorder(cmp) && Sorted(cmp, l) && l != [] && cmp(l[0], z) > 0
    ensures Class(cmp, y, [z]) == [] || Class(cmp, y, l) == []
  {
    hide Preorder;
    if Same(cmp, y, z) {
      forall i | 0 <= i < |l| ensures !Same(cmp, y, l[i]) {
        if Same(cmp, y, l[i]) {
          Trans(cmp, l[i], y, z);
          if i > 0 { Trans(cmp, l[0], l[i], z); }
        }
      }
      NoClass(cmp, y, l);
    } else {
      NoClass(cmp, y, [z]);
    }
  }

  lemma {:induction false} NoClass(cmp: Cmp, y: int, l: seq<int>)
    requires forall i :: 0 <= i < |l| ==> !Same(cmp, y, l[i])
    ensures Class(cmp, y, l) == []
  {
    if l != [] { NoClass(cmp, y, l[..|l| - 1]); }
  }

  /** Sorting the halves and merging them sorts the whole, stably. */
  lemma MergeSorts(cmp: Cmp, s: seq<int>, t: seq<int>)
    requires Preorder(cmp)
    ensures Merge(cmp, StableSort(cmp, s), StableSort(cmp, t)) == StableSort(cmp, s + t)
  {
    hide Preorder, Sorted, StableSort, Merge, Class;
    var a, b := StableSort(cmp, s), StableSort(cmp, t);
    SortSorts(cmp, s);
    SortSorts(cmp, t);
    SortSorts(cmp, s + t);
    MergeSorted(cmp, a, b);
    forall y ensures Class(cmp, y, Merge(cmp, a, b)) == Class(cmp, y, StableSort(cmp, s + t)) {
      SortStable(cmp, s, y);
      SortStable(cmp, t, y);
      SortStable(cmp, s + t, y);
      MergeClass(cmp, a, b, y);
      ClassAppend(cmp, y, s, t);
    }
    OneStableSort(cmp, Merge(cmp, a, b), StableSort(cmp, s + t));
  }

  // ----- the sort in place -----

  /** Only 'd[lo..lo + n]' has changed, to 'part'. */
  predicate Replaced(was: seq<int>, now: seq<int>, lo: nat, part: seq<int>) {
    lo + |part| <= |was| && now == was[..lo] + part + was[lo + |part|..]
  }

  /** 'now' is 'was' with the 'n' elements from 'lo' on sorted. */
  predicate SortsPart(cmp: Cmp, was: seq<int>, now: seq<int>, lo: nat, n: nat) {
    lo + n <= |was| && Replaced(was, now, lo, StableSort(cmp, was[lo..lo + n]))
  }

  /** 'now' is 'was' with the 'n' elements from 'lo' on merged with the 'm' elements that follow. */
  predicate MergesPart(cmp: Cmp, was: seq<int>, now: seq<int>, lo: nat, n: nat, m: nat) {
    lo + n + m <= |was| && Replaced(was, now, lo, Merge(cmp, was[lo..lo + n], was[lo + n..lo + n + m]))
  }

  lemma {:induction false} InsertAt(cmp: Cmp, s: seq<int>, x: int, k: nat)
    requires k <= |s| && (k > 0 ==> cmp(s[k - 1], x) <= 0)
    requires forall i :: k <= i < |s| ==> cmp(s[i], x) > 0
    ensures Insert(cmp, s, x) == s[..k] + [x] + s[k..]
  {
    var n := |s| - 1;
    if k <= n {
      InsertAt(cmp, s[..n], x, k);
      assert s[..n][..k] == s[..k] && s[k..] == s[..n][k..] + [s[n]];
    }
  }

  /** One round of the insertion sort: the element after the first 'i' moves down to its place. */
  method InsertNext(cmp: Cmp, d: array<int>, lo: nat, i: nat, tmp: array<int>)
    requires lo + i < d.Length && 1 <= tmp.Length && d != tmp
    modifies d, tmp
    ensures Replaced(old(d[..]), d[..], lo, Insert(cmp, old(d[lo..lo + i]), old(d[lo + i])))
  {
    ghost var was, x := d[..], d[lo + i];
    tmp[0] := d[lo + i];
    var j := i - 1;
    while j >= 0
      invariant -1 <= j < i && tmp[0] == x
      invariant forall k :: lo + j < k < lo + i ==> cmp(was[k], x) > 0
      invariant forall k :: 0 <= k <= lo + j + 1 || lo + i < k < d.Length ==> d[k] == was[k]
      invariant forall k :: lo + j + 1 < k <= lo + i ==> d[k] == was[k - 1]
    {
      if cmp(d[lo + j], tmp[0]) <= 0 {
        break;
      }
      d[lo + j + 1] := d[lo + j];
      j := j - 1;
    }
    d[lo + j + 1] := tmp[0];
    InsertDone(cmp, was, d[..], lo, i, j);
  }

  lemma InsertDone(cmp: Cmp, was: seq<int>, now: seq<int>, lo: nat, i: nat, j: int)
    requires -1 <= j < i && lo + i < |was| == |now|
    requires j >= 0 ==> cmp(was[lo + j], was[lo + i]) <= 0
    requires forall k :: lo + j < k < lo + i ==> cmp(was[k], was[lo + i]) > 0
    requires forall k :: 0 <= k <= lo + j || lo + i < k < |was| ==> now[k] == was[k]
    requires now[lo + j + 1] == was[lo + i]
    requires forall k :: lo + j + 1 < k <= lo + i ==> now[k] == was[k - 1]
    ensures Replaced(was, now, lo, Insert(cmp, was[lo..lo + i], was[lo + i]))
  {
    var s, x := was[lo..lo + i], was[lo + i];
    InsertAt(cmp, s, x, j + 1);
    var part := s[..j + 1] + [x] + s[j + 1..];
    assert now == was[..lo] + part + was[lo + i + 1..];
  }

  method InsertionSort(cmp: Cmp, d: array<int>, lo: nat, n: nat, tmp: array<int>)
    requires lo + n <= d.Length && 1 <= tmp.Length && d != tmp
    modifies d, tmp
    ensures SortsPart(cmp, old(d[..]), d[..], lo, n)
  {
    ghost var was := d[..];
    var i := 0;
    assert was[lo..lo] == [];
    while i != n
      invariant 0 <= i <= n
      invariant SortsPart(cmp, was, d[..], lo, i)
    {
      ghost var at := d[..];
      InsertNext(cmp, d, lo, i, tmp);
      SortNext(cmp, was, at, d[..], lo, i);
      i := i + 1;
    }
  }

  lemma SortNext(cmp: Cmp, was: seq<int>, at: seq<int>, now: seq<int>, lo: nat, i: nat)
    requires lo + i < |was| && |at| == |was|
    requires SortsPart(cmp, was, at, lo, i)
    requires Replaced(at, now, lo, Insert(cmp, at[lo..lo + i], at[lo + i]))
    ensures SortsPart(cmp, was, now, lo, i + 1)
  {
    var part := was[lo..lo + i + 1];
    assert part[..i] == was[lo..lo + i];
    assert at[lo..lo + i] == StableSort(cmp, part[..i]) && at[lo + i] == part[i];
    assert at[lo + i + 1..] == was[lo + i + 1..] && at[..lo] == was[..lo];
  }

  predicate Fits(n: nat, size: nat, line: nat) {
    n * size <= line
  }

  method MergeSort(cmp: Cmp, d: array<int>, lo: nat, n: nat, tmp: array<int>, size: nat, line: nat)
    requires Preorder(cmp) && lo + n <= d.Length && n <= tmp.Length && d != tmp
    modifies d, tmp
    ensures SortsPart(cmp, old(d[..]), d[..], lo, n)
    decreases n
  {
    hide *;
    ghost var was := d[..];
    if n <= 1 {
      FewSorted(cmp, was, lo, n);
      return;
    }
    if Fits(n, size, line) {
      InsertionSort(cmp, d, lo, n, tmp);
      return;
    }
    var nL := n / 2;
    var nR := n - nL;
    MergeSort(cmp, d, lo, nL, tmp, size, line);
    ghost var left := d[..];
    MergeSort(cmp, d, lo + nL, nR, tmp, size, line);
    ghost var right := d[..];
    MergeHalves(cmp, d, lo, nL, nR, tmp);
    HalvesSort(cmp, was, left, right, d[..], lo, nL, nR);
  }

  lemma SortOne(cmp: Cmp, s: seq<int>)
    requires |s| <= 1
    ensures StableSort(cmp, s) == s
  {
    var none: seq<int> := [];
    if |s| == 0 {
      assert s == none;
    } else {
      assert s[..|s| - 1] == none && StableSort(cmp, none) == none;
      assert StableSort(cmp, s) == none + [s[0]] == s;
    }
  }

  lemma FewSorted(cmp: Cmp, s: seq<int>, lo: nat, n: nat)
    requires n <= 1 && lo + n <= |s|
    ensures SortsPart(cmp, s, s, lo, n)
  {
    SortOne(cmp, s[lo..lo + n]);
    assert s == s[..lo] + s[lo..lo + n] + s[lo + n..];
  }

  lemma HalvesSort(cmp: Cmp, was: seq<int>, left: seq<int>, right: seq<int>, now: seq<int>, lo: nat, n: nat, m: nat)
    requires Preorder(cmp) && lo + n + m <= |was| == |left| == |right|
    requires SortsPart(cmp, was, left, lo, n) && SortsPart(cmp, left, right, lo + n, m)
    requires MergesPart(cmp, right, now, lo, n, m)
    ensures SortsPart(cmp, was, now, lo, n + m)
  {
    hide Preorder, StableSort, Merge, Replaced;
    var s, t := was[lo..lo + n], was[lo + n..lo + n + m];
    Parts(was, left, lo, StableSort(cmp, s));
    FirstHalf(was, left, lo, n, m);
    Parts(left, right, lo + n, StableSort(cmp, t));
    SecondHalf(left, right, lo, n, m);
    MergeSorts(cmp, s, t);
    assert was[lo..lo + n + m] == s + t;
    Rebuilt(was, right, now, lo, n + m, Merge(cmp, StableSort(cmp, s), StableSort(cmp, t)));
  }

  /** Sorting the first half leaves the second half and what follows. */
  lemma FirstHalf(was: seq<int>, left: seq<int>, lo: nat, n: nat, m: nat)
    requires lo + n + m <= |was| == |left| && left[lo + n..] == was[lo + n..]
    ensures left[lo + n..lo + n + m] == was[lo + n..lo + n + m] && left[lo + n + m..] == was[lo + n + m..]
  {
    Within(left, lo + n, lo + n, lo + n + m);
    Within(was, lo + n, lo + n, lo + n + m);
    assert left[lo + n + m..] == left[lo + n..][m..] && was[lo + n + m..] == was[lo + n..][m..];
  }

  lemma SecondHalf(left: seq<int>, right: seq<int>, lo: nat, n: nat, m: nat)
    requires lo + n + m <= |left| == |right| && right[..lo + n] == left[..lo + n]
    ensures right[..lo] == left[..lo] && right[lo..lo + n] == left[lo..lo + n]
  {
    assert right[..lo] == right[..lo + n][..lo] && left[..lo] == left[..lo + n][..lo];
    assert right[lo..lo + n] == right[..lo + n][lo..] && left[lo..lo + n] == left[..lo + n][lo..];
  }

  lemma Rebuilt(was: seq<int>, right: seq<int>, now: seq<int>, lo: nat, n: nat, part: seq<int>)
    requires lo + n <= |was| == |right| && |part| == n && Replaced(right, now, lo, part)
    requires right[..lo] == was[..lo] && right[lo + n..] == was[lo + n..]
    ensures Replaced(was, now, lo, part)
  {
  }

  lemma Parts(was: seq<int>, now: seq<int>, lo: nat, part: seq<int>)
    requires Replaced(was, now, lo, part)
    ensures |now| == |was| && now[..lo] == was[..lo] && now[lo..lo + |part|] == part
    ensures now[lo + |part|..] == was[lo + |part|..]
  {
  }

  lemma Within(s: seq<int>, k: nat, i: nat, j: nat)
    requires k <= i <= j <= |s|
    ensures s[i..j] == s[k..][i - k..j - k]
  {
  }

  /** The merge into temporary storage, until one of the halves has run out. */
  method MergeLoop(cmp: Cmp, d: array<int>, lo: nat, n: nat, m: nat, tmp: array<int>) returns (nL: nat, nR: nat)
    requires lo + n + m <= d.Length && n + m <= tmp.Length && d != tmp
    modifies tmp
    ensures nL <= n && nR <= m && (nL == 0 || nR == 0)
    ensures Merged(cmp, d[lo..lo + n], d[lo + n..lo + n + m], n - nL, m - nR, tmp[..n - nL + m - nR])
  {
    hide Merge, Merged;
    ghost var a, b := d[lo..lo + n], d[lo + n..lo + n + m];
    var l, r, t := lo, lo + n, 0;
    nL, nR := n, m;
    MergedNone(cmp, a, b, tmp[..0]);
    while nL != 0 && nR != 0
      invariant nL <= n && nR <= m && l == lo + n - nL && r == lo + n + m - nR && t == n - nL + m - nR
      invariant Merged(cmp, a, b, n - nL, m - nR, tmp[..t])
    {
      ghost var out := tmp[..t];
      assert d[l] == a[n - nL] && d[r] == b[m - nR];
      if cmp(d[l], d[r]) <= 0 {
        tmp[t] := d[l];
        MergedStep(cmp, a, b, n - nL, m - nR, out, tmp[..t + 1]);
        t, l, nL := t + 1, l + 1, nL - 1;
      } else {
        tmp[t] := d[r];
        MergedStep(cmp, a, b, n - nL, m - nR, out, tmp[..t + 1]);
        t, r, nR := t + 1, r + 1, nR - 1;
      }
    }
  }

  /** 'out' is the merge of the first 'i' of 'a' and the first 'j' of 'b', and comes first. */
  predicate Merged(cmp: Cmp, a: seq<int>, b: seq<int>, i: nat, j: nat, out: seq<int>) {
    i <= |a| && j <= |b| && |out| == i + j && Merge(cmp, a, b) == out + Merge(cmp, a[i..], b[j..])
  }

  lemma MergedNone(cmp: Cmp, a: seq<int>, b: seq<int>, out: seq<int>)
    requires out == []
    ensures Merged(cmp, a, b, 0, 0, out)
  {
    assert a[0..] == a && b[0..] == b;
  }

  lemma MergedStep(cmp: Cmp, a: seq<int>, b: seq<int>, i: nat, j: nat, out: seq<int>, more: seq<int>)
    requires Merged(cmp, a, b, i, j, out) && i < |a| && j < |b|
    requires more == out + [if cmp(a[i], b[j]) <= 0 then a[i] else b[j]]
    ensures if cmp(a[i], b[j]) <= 0 then Merged(cmp, a, b, i + 1, j, more) else Merged(cmp, a, b, i, j + 1, more)
  {
    MergeStep(cmp, a, b, i, j);
    hide Merge;
    if cmp(a[i], b[j]) <= 0 {
      Move(out, a[i], more, Merge(cmp, a[i + 1..], b[j..]));
    } else {
      Move(out, b[j], more, Merge(cmp, a[i..], b[j + 1..]));
    }
  }

  lemma MergedEnd(cmp: Cmp, a: seq<int>, b: seq<int>, i: nat, j: nat, out: seq<int>)
    requires Merged(cmp, a, b, i, j, out) && (i == |a| || j == |b|)
    ensures Merge(cmp, a, b) == out + (a[i..] + b[j..])
  {
    MergeRest(cmp, a[i..], b[j..]);
  }

  lemma MergeStep(cmp: Cmp, a: seq<int>, b: seq<int>, i: nat, j: nat)
    requires i < |a| && j < |b|
    ensures Merge(cmp, a[i..], b[j..]) ==
      if cmp(a[i], b[j]) <= 0 then [a[i]] + Merge(cmp, a[i + 1..], b[j..]) else [b[j]] + Merge(cmp, a[i..], b[j + 1..])
  {
    assert a[i..][1..] == a[i + 1..] && b[j..][1..] == b[j + 1..];
  }

  lemma MergeRest(cmp: Cmp, a: seq<int>, b: seq<int>)
    requires a == [] || b == []
    ensures Merge(cmp, a, b) == a + b
  {
    if a == [] { assert a + b == b; } else { assert a + b == a; }
  }

  lemma Move(out: seq<int>, x: int, more: seq<int>, rest: seq<int>)
    requires more == out + [x]
    ensures out + ([x] + rest) == more + rest
  {
  }

  method MergeHalves(cmp: Cmp, d: array<int>, lo: nat, n: nat, m: nat, tmp: array<int>)
    requires lo + n + m <= d.Length && n + m <= tmp.Length && d != tmp
    modifies d, tmp
    ensures MergesPart(cmp, old(d[..]), d[..], lo, n, m)
  {
    hide Merge, Merged;
    ghost var was := d[..];
    var nL, nR := MergeLoop(cmp, d, lo, n, m, tmp);
    var l, t := lo + n - nL, n - nL + m - nR;
    ghost var out := tmp[..t];
    /* the left tail goes to temporary storage */
    if nL != 0 {
      forall i | 0 <= i < nL {
        tmp[t + i] := d[l + i];
      }
    }
    /* all but the right tail comes back */
    assert tmp[..n + m - nR] == out + was[l..l + nL];
    forall i | 0 <= i < n + m - nR {
      d[lo + i] := tmp[i];
    }
    assert d[lo..lo + n + m - nR] == tmp[..n + m - nR];
    CopyDone(cmp, was, d[..], lo, n, m, nL, nR, out);
  }

  lemma CopyDone(cmp: Cmp, was: seq<int>, now: seq<int>, lo: nat, n: nat, m: nat, nL: nat, nR: nat, out: seq<int>)
    requires lo + n + m <= |was| == |now| && nL <= n && nR <= m && (nL == 0 || nR == 0)
    requires Merged(cmp, was[lo..lo + n], was[lo + n..lo + n + m], n - nL, m - nR, out)
    requires now[..lo] == was[..lo] && now[lo + n + m - nR..] == was[lo + n + m - nR..]
    requires now[lo..lo + n + m - nR] == out + was[lo + n - nL..lo + n]
    ensures MergesPart(cmp, was, now, lo, n, m)
  {
    hide Merge, Merged, Replaced;
    var a, b := was[lo..lo + n], was[lo + n..lo + n + m];
    var la, rb := was[lo + n - nL..lo + n], was[lo + n + m - nR..lo + n + m];
    MergedEnd(cmp, a, b, n - nL, m - nR, out);
    assert a[n - nL..] == la && b[m - nR..] == rb;
    Paste(was, now, lo, lo + n + m - nR, lo + n + m, out, la, rb);
  }

  lemma Paste(was: seq<int>, now: seq<int>, lo: nat, e: nat, end: nat, out: seq<int>, la: seq<int>, rb: seq<int>)
    requires lo <= e <= end <= |was| == |now| && rb == was[e..end]
    requires now[..lo] == was[..lo] && now[lo..e] == out + la && now[e..] == was[e..]
    ensures Replaced(was, now, lo, out + (la + rb))
  {
    assert was[e..] == rb + was[end..];
    Around(now, lo, e);
    Regroup(was[..lo], out, la, rb, was[end..]);
  }

  lemma Around(s: seq<int>, i: nat, j: nat)
    requires i <= j <= |s|
    ensures s == s[..i] + (s[i..j] + s[j..])
  {
  }

  lemma Regroup(a: seq<int>, b: seq<int>, c: seq<int>, d: seq<int>, e: seq<int>)
    ensures a + ((b + c) + (d + e)) == a + (b + (c + d)) + e
  {
  }

  /** ffsort: 'size' is the size of an element, 'line' that of a cache line. */
  method Sort(cmp: Cmp, d: array<int>, size: nat, line: nat)
    requires Preorder(cmp)
    modifies d
    ensures d[..] == StableSort(cmp, old(d[..]))
  {
    var tmp := new int[d.Length];
    assert d[0..d.Length] == d[..];
    MergeSort(cmp, d, 0, d.Length, tmp, size, line);
  }
}
