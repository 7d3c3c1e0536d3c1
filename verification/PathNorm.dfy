/**
 * Path normalisation with '/' and the default flags: one pass that writes and rewinds its output,
 * against a stack of path parts.
 */
module PathNorm {
  import opened Wrappers

  /** A name and whether a slash follows it. */
  datatype Part = Part(name: string, slash: bool)

  /** The first 'c' at or after 'from', or the length. */
  function Find(s: string, c: char, from: nat): (i: nat)
    requires from <= |s|
    ensures from <= i <= |s|
    ensures forall k :: from <= k < i ==> s[k] != c
    ensures i < |s| ==> s[i] == c
    decreases |s| - from
  {
    if from == |s| || s[from] == c then from else Find(s, c, from + 1)
  }

  function Parts(s: string): seq<Part>
    decreases |s|
  {
    var k := Find(s, '/', 0);
    if s == "" then []
    else if k == |s| then [Part(s, false)]
    else [Part(s[..k], true)] + Parts(s[k + 1..])
  }

  function Text(p: Part): string {
    p.name + (if p.slash then "/" else "")
  }

  function Join(st: seq<Part>): string {
    if st == [] then "" else Join(st[..|st| - 1]) + Text(st[|st| - 1])
  }

  /** How many more normal parts than ".." the stack has. */
  function Level(st: seq<Part>): int {
    if st == [] then 0
    else Level(st[..|st| - 1]) + (var n := st[|st| - 1].name; if n == "" then 0 else if n == ".." then -1 else 1)
  }

  /**
   * One part of the path: "." and all but the first empty part are dropped; ".." takes a normal
   * part off the stack, does nothing at the root, and is kept in a relative path that has no more
   * normal parts than kept ".."; a name may not have a NUL in it.
   */
  function Step(abs: bool, st: seq<Part>, p: Part, first: bool): Option<seq<Part>> {
    if (p.name == "" && !first) || p.name == "." then Some(st)
    else if p.name == ".." then
      if Level(st) > 0 && st != [] then Some(st[..|st| - 1])
      else if abs then Some(st)
      else Some(st + [p])
    else if '\0' in p.name then None
    else Some(st + [p])
  }

  function Walk(abs: bool, st: seq<Part>, parts: seq<Part>, first: bool): Option<seq<Part>>
    decreases |parts|
  {
    if parts == [] then Some(st)
    else
      var next := Step(abs, st, parts[0], first);
      if next.None? then None else Walk(abs, next.value, parts[1..], false)
  }

  predicate Absolute(path: string) {
    path != "" && path[0] == '/'
  }

  function Show(st: seq<Part>, path: string): string {
    if st == [] && path != "" then "." else Join(st)
  }

  /** The normal form of a path, if its names are good. */
  function Norm(path: string): Option<string> {
    var st := Walk(Absolute(path), [], Parts(path), true);
    if st.None? then None else Some(Show(st.value, path))
  }

  /** What is kept of a path on the way never exceeds 'cap'. */
  predicate Fits(abs: bool, st: seq<Part>, parts: seq<Part>, first: bool, cap: int)
    decreases |parts|
  {
    parts == [] ||
    var next := Step(abs, st, parts[0], first);
    next.None? || ((|next.value| > |st| ==> |Join(next.value)| <= cap) && Fits(abs, next.value, parts[1..], false, cap))
  }

  // ----- normal stacks -----

  /** What the walk leaves on the stack. */
  predicate Normal(abs: bool, st: seq<Part>) {
    forall i :: 0 <= i < |st| ==> NormalAt(abs, st, i)
  }

  predicate NormalAt(abs: bool, st: seq<Part>, i: int)
    requires 0 <= i < |st|
  {
    && '/' !in st[i].name && '\0' !in st[i].name && st[i].name != "."
    && (st[i].name == "" ==> i == 0 && abs)
    && (st[i].name == ".." ==> !abs && Level(st[..i]) <= 0)
    && (i < |st| - 1 ==> st[i].slash)
    && (abs && i == 0 ==> st[i] == Part("", true))
  }

  /** What the parts of a path are. */
  predicate Plain(parts: seq<Part>) {
    forall i :: 0 <= i < |parts| ==>
      '/' !in parts[i].name && (i < |parts| - 1 || parts[i].name == "" ==> parts[i].slash)
  }

  lemma {:induction false} PartsPlain(s: string)
    ensures Plain(Parts(s))
    ensures Absolute(s) ==> Parts(s) != [] && Parts(s)[0] == Part("", true)
    ensures s != "" && !Absolute(s) ==> Parts(s) != [] && Parts(s)[0].name != ""
    decreases |s|
  {
    var k := Find(s, '/', 0);
    if s != "" && k < |s| { PartsPlain(s[k + 1..]); }
  }

  /** The stack may still grow. */
  predicate Open(st: seq<Part>) {
    forall i :: 0 <= i < |st| ==> st[i].slash
  }

  /** The first part of an absolute path, and only that, is the root. */
  predicate Begun(abs: bool, st: seq<Part>, p: Part, first: bool) {
    && (first ==> st == [] && (if abs then p == Part("", true) else p.name != ""))
    && (!first && abs ==> st != [])
  }

  lemma {:induction false} AbsoluteLevel(st: seq<Part>)
    requires Normal(true, st) && st != []
    ensures Level(st) == |st| - 1
  {
    assert NormalAt(true, st, |st| - 1);
    if |st| > 1 {
      PrefixNormal(true, st);
      AbsoluteLevel(st[..|st| - 1]);
    } else {
      assert Level(st[..0]) == 0;
    }
  }

  lemma PrefixNormal(abs: bool, st: seq<Part>)
    requires Normal(abs, st) && st != []
    ensures Normal(abs, st[..|st| - 1]) && Open(st[..|st| - 1])
  {
    var pre := st[..|st| - 1];
    forall i | 0 <= i < |pre| ensures NormalAt(abs, pre, i) && pre[i].slash {
      assert NormalAt(abs, st, i) && pre[..i] == st[..i];
    }
  }

  lemma PushNormal(abs: bool, st: seq<Part>, p: Part)
    requires Normal(abs, st) && Open(st)
    requires NormalAt(abs, st + [p], |st|)
    ensures Normal(abs, st + [p])
  {
    var st2 := st + [p];
    forall i | 0 <= i < |st2| ensures NormalAt(abs, st2, i) {
      if i < |st| { assert NormalAt(abs, st, i) && st2[..i] == st[..i]; }
    }
  }

  lemma StepNormal(abs: bool, st: seq<Part>, p: Part, first: bool)
    requires Normal(abs, st) && Open(st) && Begun(abs, st, p, first) && '/' !in p.name
    ensures
      var r := Step(abs, st, p, first);
      r.Some? ==> Normal(abs, r.value) && (p.slash ==> Open(r.value)) && (abs ==> r.value != [])
  {
    var r := Step(abs, st, p, first);
    assert (st + [p])[..|st|] == st;
    if r.Some? && r.value == st + [p] {
      PushNormal(abs, st, p);
    } else if r.Some? && st != [] && r.value == st[..|st| - 1] {
      PrefixNormal(abs, st);
      if abs { AbsoluteLevel(st); }
    }
  }

  lemma {:induction false} WalkNormal(abs: bool, st: seq<Part>, parts: seq<Part>, first: bool)
    requires Normal(abs, st) && Open(st) && Plain(parts)
    requires parts != [] ==> Begun(abs, st, parts[0], first)
    ensures
      var r := Walk(abs, st, parts, first);
      r.Some? ==> Normal(abs, r.value) && (abs && parts != [] ==> r.value != [])
    decreases |parts|
  {
    if parts != [] {
      StepNormal(abs, st, parts[0], first);
      var next := Step(abs, st, parts[0], first);
      if next.Some? && |parts| > 1 { WalkNormal(abs, next.value, parts[1..], false); }
    }
  }

  // ----- text and parts -----

  lemma {:induction false} JoinFirst(p: Part, st: seq<Part>)
    ensures Join([p] + st) == Text(p) + Join(st)
  {
    if st == [] {
      assert [p] + st == [p] && [p][..0] == [];
    } else {
      var n := |st| - 1;
      JoinFirst(p, st[..n]);
      assert ([p] + st)[..n + 1] == [p] + st[..n];
    }
  }

  lemma FindText(name: string, rest: string)
    requires '/' !in name
    ensures Find(name + "/" + rest, '/', 0) == |name| && Find(name, '/', 0) == |name|
  {
    var s := name + "/" + rest;
    var k := Find(s, '/', 0);
    assert s[|name|] == '/';
    assert forall i :: 0 <= i < |name| ==> s[i] == name[i];
  }

  /** The parts of a normal stack's text are the stack. */
  lemma {:induction false} PartsOfJoin(st: seq<Part>)
    requires Plain(st)
    ensures Parts(Join(st)) == st
  {
    if st != [] {
      var p, rest := st[0], st[1..];
      assert st == [p] + rest;
      PartsOfJoin(rest);
      JoinFirst(p, rest);
      FindText(p.name, Join(rest));
      if p.slash {
        var s := p.name + "/" + Join(rest);
        assert Join(st) == s && s[..|p.name|] == p.name && s[|p.name| + 1..] == Join(rest);
      } else {
        assert rest == [] && Join(st) == p.name;
      }
    }
  }

  lemma NormalPlain(abs: bool, st: seq<Part>)
    requires Normal(abs, st)
    ensures Plain(st)
  {
    forall i | 0 <= i < |st|
      ensures '/' !in st[i].name && (i < |st| - 1 || st[i].name == "" ==> st[i].slash) {
      assert NormalAt(abs, st, i);
    }
  }

  lemma NormalText(abs: bool, st: seq<Part>)
    requires Normal(abs, st) && (abs ==> st != [])
    ensures Absolute(Join(st)) <==> abs
    ensures Join(st) == "" <==> st == []
  {
    if st != [] {
      assert NormalAt(abs, st, 0);
      assert st == [st[0]] + st[1..];
      JoinFirst(st[0], st[1..]);
    }
  }

  // ----- the normal form is normal -----

  /** Walking over a normal stack puts it back. */
  lemma {:induction false} Rewalk(abs: bool, st: seq<Part>, i: nat)
    requires Normal(abs, st) && i <= |st|
    ensures Walk(abs, st[..i], st[i..], i == 0) == Some(st)
    decreases |st| - i
  {
    if i == |st| {
      assert st[..i] == st && st[i..] == [];
    } else {
      assert NormalAt(abs, st, i);
      assert st[..i] + [st[i]] == st[..i + 1] && st[i..][1..] == st[i + 1..];
      Rewalk(abs, st, i + 1);
    }
  }

  /** Normalising twice is normalising once. */
  lemma NormIdempotent(path: string)
    ensures Norm(path).Some? ==> Norm(Norm(path).value) == Norm(path)
  {
    var abs, st := Absolute(path), Walk(Absolute(path), [], Parts(path), true);
    PartsPlain(path);
    WalkNormal(abs, [], Parts(path), true);
    if st.Some? {
      NormalPlain(abs, st.value);
      NormalText(abs, st.value);
      PartsOfJoin(st.value);
      Rewalk(abs, st.value, 0);
      assert st.value[..0] == [] && st.value[0..] == st.value;
      if st.value == [] && path != "" { DotNorm(); }
    }
  }

  lemma DotNorm()
    ensures Parts(".") == [Part(".", false)] && Norm(".") == Some(".")
  {
    assert Find(".", '/', 0) == 1;
    assert Walk(false, [], [Part(".", false)], true) == Walk(false, [], [Part(".", false)][1..], false);
  }

  // ----- the normal form means the same -----

  /** Going from a directory, a list of names from the root, to another. */
  function Enter(dir: seq<string>, name: string): seq<string> {
    if name == "" || name == "." then dir
    else if name == ".." then (if dir == [] then [] else dir[..|dir| - 1])
    else dir + [name]
  }

  function Go(dir: seq<string>, parts: seq<Part>): seq<string> {
    if parts == [] then dir else Enter(Go(dir, parts[..|parts| - 1]), parts[|parts| - 1].name)
  }

  /** Where a path leads from a directory. */
  function Place(dir: seq<string>, path: string): seq<string> {
    Go(if Absolute(path) then [] else dir, Parts(path))
  }

  lemma StepMeans(abs: bool, st: seq<Part>, p: Part, first: bool, dir: seq<string>)
    requires Normal(abs, st) && Begun(abs, st, p, first) && (abs ==> dir == [])
    ensures
      var r := Step(abs, st, p, first);
      r.Some? ==> Go(dir, r.value) == Enter(Go(dir, st), p.name)
  {
    assert (st + [p])[..|st|] == st;
    if p.name == ".." {
      if Level(st) > 0 && st != [] {
        assert NormalAt(abs, st, |st| - 1);
      } else if abs {
        AbsoluteLevel(st);
        assert NormalAt(abs, st, 0);
        assert st[..0] == [];
      }
    }
  }

  lemma {:induction false} WalkMeans(abs: bool, st: seq<Part>, parts: seq<Part>, first: bool, dir: seq<string>, done: seq<Part>)
    requires Normal(abs, st) && Open(st) && Plain(parts) && (abs ==> dir == [])
    requires parts != [] ==> Begun(abs, st, parts[0], first)
    requires Go(dir, st) == Go(dir, done)
    ensures
      var r := Walk(abs, st, parts, first);
      r.Some? ==> Go(dir, r.value) == Go(dir, done + parts)
    decreases |parts|
  {
    if parts == [] {
      assert done + parts == done;
    } else {
      var p, next := parts[0], Step(abs, st, parts[0], first);
      StepNormal(abs, st, p, first);
      StepMeans(abs, st, p, first, dir);
      assert (done + [p])[..|done|] == done;
      assert done + parts == (done + [p]) + parts[1..];
      if next.Some? && |parts| > 1 {
        WalkMeans(abs, next.value, parts[1..], false, dir, done + [p]);
      } else {
        assert (done + [p]) + [] == done + [p];
      }
    }
  }

  /** From whatever directory: the normal form leads where the path leads. */
  lemma NormMeans(path: string, dir: seq<string>)
    ensures Norm(path).Some? ==> Place(dir, Norm(path).value) == Place(dir, path)
  {
    var abs, st := Absolute(path), Walk(Absolute(path), [], Parts(path), true);
    var base := if abs then [] else dir;
    PartsPlain(path);
    WalkNormal(abs, [], Parts(path), true);
    WalkMeans(abs, [], Parts(path), true, base, []);
    assert [] + Parts(path) == Parts(path);
    if st.Some? {
      NormalPlain(abs, st.value);
      NormalText(abs, st.value);
      PartsOfJoin(st.value);
      if st.value == [] && path != "" {
        DotNorm();
        assert Go(base, [Part(".", false)]) == Enter(Go(base, [Part(".", false)][..0]), ".");
      }
    }
  }

  // ----- length -----

  lemma {:induction false} JoinAppend(a: seq<Part>, b: seq<Part>)
    ensures Join(a + b) == Join(a) + Join(b)
  {
    if b == [] {
      assert a + b == a;
    } else {
      hide Text;
      var n := |b| - 1;
      assert (a + b)[..|a| + n] == a + b[..n];
      JoinAppend(a, b[..n]);
      assert (Join(a) + Join(b[..n])) + Text(b[n]) == Join(a) + (Join(b[..n]) + Text(b[n]));
    }
  }

  /** The parts of a path are all of it. */
  lemma {:induction false} JoinOfParts(s: string)
    ensures Join(Parts(s)) == s
    decreases |s|
  {
    if s == "" {
      assert Parts(s) == [];
    } else {
      hide Parts, Join, Find, PartAt, Text;
      PartsStep(s, 0);
      RestStep(s, 0);
      var rest := Rest(s, Find(s, '/', 0) + 1);
      assert Rest(s, 0) == s;
      JoinOfParts(rest);
      JoinFirst(PartAt(s, 0), Parts(rest));
    }
  }

  /** The walk never keeps more than it has seen. */
  lemma {:induction false} WalkShort(abs: bool, st: seq<Part>, parts: seq<Part>, first: bool, cap: int)
    requires |Join(st + parts)| <= cap
    ensures Fits(abs, st, parts, first, cap)
    ensures
      var r := Walk(abs, st, parts, first);
      r.Some? ==> |Join(r.value)| <= |Join(st + parts)|
    decreases |parts|
  {
    if parts == [] {
      assert st + parts == st;
    } else {
      hide Step, Join;
      var next := Step(abs, st, parts[0], first);
      StepShort(abs, st, parts, first);
      if next.Some? { WalkShort(abs, next.value, parts[1..], false, cap); }
    }
  }

  lemma StepShort(abs: bool, st: seq<Part>, parts: seq<Part>, first: bool)
    requires parts != []
    ensures
      var next := Step(abs, st, parts[0], first);
      next.Some? ==>
        && |Join(next.value + parts[1..])| <= |Join(st + parts)|
        && |Join(next.value)| <= |Join(next.value + parts[1..])|
  {
    var p, rest, next := parts[0], parts[1..], Step(abs, st, parts[0], first);
    assert st + parts == (st + [p]) + rest;
    JoinAppend(st + [p], rest);
    Pushed(st, p);
    if next.Some? {
      JoinAppend(next.value, rest);
      StepLength(abs, st, p, first);
    }
  }

  /** A path is never longer in normal form; as many bytes as it has are always enough. */
  lemma NormShort(path: string, cap: int)
    requires |path| <= cap
    ensures Fits(Absolute(path), [], Parts(path), true, cap)
    ensures Norm(path).Some? ==> |Norm(path).value| <= |path|
  {
    JoinOfParts(path);
    assert [] + Parts(path) == Parts(path);
    WalkShort(Absolute(path), [], Parts(path), true, cap);
  }

  // ----- the pass over the text -----

  lemma {:induction false} FindShift(s: string, c: char, p: nat, k: nat)
    requires p + k <= |s|
    ensures Find(s[p..], c, k) == Find(s, c, p + k) - p
    decreases |s| - p - k
  {
    if p + k < |s| { FindShift(s, c, p, k + 1); }
  }

  /** What is left of a path from 'p' on. */
  function Rest(s: string, p: nat): string {
    if p <= |s| then s[p..] else ""
  }

  /** The part that begins at 'p'. */
  function PartAt(s: string, p: nat): Part
    requires p < |s|
  {
    var k := Find(s, '/', p);
    Part(s[p..k], k < |s|)
  }

  lemma PartsStep(s: string, p: nat)
    requires p < |s|
    ensures Parts(Rest(s, p)) == [PartAt(s, p)] + Parts(Rest(s, Find(s, '/', p) + 1))
  {
    hide Parts, Find;
    FindShift(s, '/', p, 0);
    var k := Find(s, '/', p);
    if k < |s| { SlashStep(s, p, k, s[p..]); } else { LastStep(s, p, s[p..]); }
  }

  lemma SlashStep(s: string, p: nat, k: nat, t: string)
    requires p <= k < |s| && t == s[p..] && Find(t, '/', 0) == k - p
    ensures Parts(t) == [Part(s[p..k], true)] + Parts(s[k + 1..])
  {
    assert t[..k - p] == s[p..k];
    assert t[k - p + 1..] == s[k + 1..];
  }

  lemma LastStep(s: string, p: nat, t: string)
    requires p < |s| && t == s[p..] && Find(t, '/', 0) == |t|
    ensures Parts(t) == [Part(s[p..|s|], false)] + Parts("")
  {
    hide Parts, Find;
    NoSlash(t);
    NoText();
    assert s[p..|s|] == t;
  }

  lemma NoSlash(t: string)
    requires t != "" && Find(t, '/', 0) == |t|
    ensures Parts(t) == [Part(t, false)]
  {
  }

  lemma NoText()
    ensures Parts("") == []
  {
  }

  lemma RestStep(s: string, p: nat)
    requires p < |s|
    ensures Rest(s, p) == Text(PartAt(s, p)) + Rest(s, Find(s, '/', p) + 1)
  {
    hide Find;
  }

  /** ffs_find */
  method FindIn(a: array<char>, from: nat, to: nat, c: char) returns (i: nat)
    requires from <= to <= a.Length
    ensures from <= i <= to && i == Find(a[..to], c, from)
  {
    i := from;
    while i < to && a[i] != c
      invariant from <= i <= to && Find(a[..to], c, from) == Find(a[..to], c, i)
    {
      i := i + 1;
    }
  }

  /** ffs_rfind: the last 'c' of the first 'n', or 'n'. */
  method FindLast(a: array<char>, n: nat, c: char) returns (i: nat)
    requires n <= a.Length
    ensures i <= n && (i < n ==> a[i] == c) && forall k :: 0 <= k < n && (i == n || i < k) ==> a[k] != c
  {
    i := n;
    while i != 0
      invariant 0 <= i <= n
      invariant forall k :: i <= k < n ==> a[k] != c
    {
      i := i - 1;
      if a[i] == c { return; }
    }
    i := n;
  }

  lemma LastSlash(pre: string, name: string, slash: nat)
    requires '/' !in name && (pre != "" ==> pre[|pre| - 1] == '/')
    requires
      var (s, n) := (pre + name + "/", |pre| + |name|);
      && slash <= n && (slash < n ==> s[slash] == '/')
      && forall k :: 0 <= k < n && (slash == n || slash < k) ==> s[k] != '/'
    ensures |pre| == if slash == |pre| + |name| then 0 else slash + 1
  {
    var s := pre + name + "/";
    assert forall k :: |pre| <= k < |pre| + |name| ==> s[k] == name[k - |pre|];
    if pre != "" { assert s[|pre| - 1] == '/'; }
  }

  lemma OpenText(abs: bool, st: seq<Part>)
    requires Normal(abs, st) && Open(st) && st != []
    ensures Join(st)[|Join(st)| - 1..] == "/"
    ensures Join(st) == Join(st[..|st| - 1]) + st[|st| - 1].name + "/" && '/' !in st[|st| - 1].name
  {
    assert NormalAt(abs, st, |st| - 1);
  }

  /** Where the output ends once its last part is gone. */
  lemma PopText(abs: bool, st: seq<Part>, slash: nat)
    requires Normal(abs, st) && Open(st) && st != []
    requires
      var n := |Join(st)| - 1;
      && 0 <= slash <= n && (slash < n ==> Join(st)[slash] == '/')
      && forall k :: 0 <= k < n && (slash == n || slash < k) ==> Join(st)[k] != '/'
    ensures |Join(st)| > 0
    ensures |Join(st[..|st| - 1])| == if slash == |Join(st)| - 1 then 0 else slash + 1
    ensures Join(st[..|st| - 1]) <= Join(st)
  {
    var m := |st| - 1;
    OpenText(abs, st);
    PrefixNormal(abs, st);
    if m > 0 { OpenText(abs, st[..m]); }
    hide Join, Normal, Open;
    LastSlash(Join(st[..m]), st[m].name, slash);
  }

  /** What is left to walk decides the outcome. */
  predicate Ahead(was: string, cap: int, p: nat, st: seq<Part>) {
    var abs, parts := Absolute(was), Parts(Rest(was, p));
    && Walk(abs, [], Parts(was), true) == Walk(abs, st, parts, p == 0)
    && (Fits(abs, [], Parts(was), true, cap) <==> Fits(abs, st, parts, p == 0, cap))
  }

  /** What has been kept of the first 'p'. */
  predicate Kept(was: string, p: nat, st: seq<Part>) {
    var abs := Absolute(was);
    && Normal(abs, st) && |Join(st)| <= p && |Join(st)| <= |was|
    && (p < |was| ==> Open(st)) && (p == 0 ==> st == []) && (abs && p > 0 ==> st != [])
  }

  /** Where the pass is: 'st' has been kept of the first 'p' of 'was', and is in 'out'. */
  predicate At(was: string, cap: int, p: nat, st: seq<Part>, out: string) {
    Ahead(was, cap, p, st) && Kept(was, p, st) && Join(st) == out
  }

  lemma AtStart(was: string, cap: int)
    ensures At(was, cap, 0, [], "") && Level([]) == 0
  {
    assert Rest(was, 0) == was;
  }

  /** The next part is in order. */
  lemma AtPart(was: string, cap: int, p: nat, st: seq<Part>, out: string)
    requires At(was, cap, p, st, out) && p < |was|
    ensures Begun(Absolute(was), st, PartAt(was, p), p == 0) && '/' !in PartAt(was, p).name
    ensures |Text(PartAt(was, p))| == Find(was, '/', p) - p + (if Find(was, '/', p) < |was| then 1 else 0)
  {
    hide Walk, Fits, Parts, Join, Level, Normal;
    var k := Find(was, '/', p);
    assert p == 0 && Absolute(was) ==> k == 0;
  }

  /** The walk stops where a name is bad or does not fit. */
  lemma AtEnd(was: string, cap: int, p: nat, st: seq<Part>, out: string)
    requires At(was, cap, p, st, out) && p < |was|
    requires
      var next := Step(Absolute(was), st, PartAt(was, p), p == 0);
      next.None? || (|next.value| > |st| && |Join(next.value)| > cap)
    ensures Norm(was).None? || !Fits(Absolute(was), [], Parts(was), true, cap)
  {
    PartsStep(was, p);
    WalkStep(Absolute(was), st, Parts(Rest(was, p)), p == 0, cap);
  }

  /** Otherwise it goes on with the next part. */
  lemma AtNext(was: string, cap: int, p: nat, st: seq<Part>, out: string, st2: seq<Part>)
    requires At(was, cap, p, st, out) && p < |was|
    requires Step(Absolute(was), st, PartAt(was, p), p == 0) == Some(st2) && (|st2| > |st| ==> |Join(st2)| <= cap)
    ensures At(was, cap, Find(was, '/', p) + 1, st2, Join(st2))
  {
    hide Ahead, Kept, Step, PartAt, Join, Find, Text, Begun;
    AtPart(was, cap, p, st, out);
    AheadNext(was, cap, p, st, st2);
    KeptNext(was, p, st, st2);
  }

  lemma AheadNext(was: string, cap: int, p: nat, st: seq<Part>, st2: seq<Part>)
    requires Ahead(was, cap, p, st) && p < |was|
    requires Step(Absolute(was), st, PartAt(was, p), p == 0) == Some(st2) && (|st2| > |st| ==> |Join(st2)| <= cap)
    ensures Ahead(was, cap, Find(was, '/', p) + 1, st2)
  {
    hide Walk, Fits, Parts, Join, Step, Rest, PartAt, Find;
    PartsStep(was, p);
    WalkStep(Absolute(was), st, Parts(Rest(was, p)), p == 0, cap);
  }

  lemma KeptNext(was: string, p: nat, st: seq<Part>, st2: seq<Part>)
    requires Kept(was, p, st) && p < |was|
    requires Begun(Absolute(was), st, PartAt(was, p), p == 0) && '/' !in PartAt(was, p).name
    requires |Text(PartAt(was, p))| == Find(was, '/', p) - p + (if Find(was, '/', p) < |was| then 1 else 0)
    requires Step(Absolute(was), st, PartAt(was, p), p == 0) == Some(st2)
    ensures Kept(was, Find(was, '/', p) + 1, st2)
  {
    var part := PartAt(was, p);
    StepLength(Absolute(was), st, part, p == 0);
    hide Find, Join, Level, Normal, Text;
    StepNormal(Absolute(was), st, part, p == 0);
  }

  lemma WalkStep(abs: bool, st: seq<Part>, parts: seq<Part>, first: bool, cap: int)
    requires parts != []
    ensures
      var next := Step(abs, st, parts[0], first);
      && (next.None? ==> Walk(abs, st, parts, first).None?)
      && (next.Some? ==> Walk(abs, st, parts, first) == Walk(abs, next.value, parts[1..], false))
      && (next.Some? && |next.value| > |st| && |Join(next.value)| > cap ==> !Fits(abs, st, parts, first, cap))
      && (next.Some? && (|next.value| > |st| ==> |Join(next.value)| <= cap) ==>
        (Fits(abs, st, parts, first, cap) <==> Fits(abs, next.value, parts[1..], false, cap)))
  {
  }

  lemma StepLength(abs: bool, st: seq<Part>, p: Part, first: bool)
    ensures
      var next := Step(abs, st, p, first);
      next.Some? ==> |Join(next.value)| <= |Join(st)| + |Text(p)|
  {
    assert (st + [p])[..|st|] == st;
  }

  /** The end of the output without its last part. */
  method Pop(dst: array<char>, d: nat, abs: bool, ghost st: seq<Part>) returns (d2: nat)
    requires d <= dst.Length && Normal(abs, st) && Open(st) && Level(st) > 0 && Join(st) == dst[..d]
    ensures st != [] && d2 <= d && dst[..d2] == Join(st[..|st| - 1]) && Level(st[..|st| - 1]) == Level(st) - 1
  {
    assert NormalAt(abs, st, |st| - 1);
    assert Join(st) == Join(st[..|st| - 1]) + Text(st[|st| - 1]);
    hide Join, Level, Normal;
    d2 := d;
    if d2 != 0 {
      d2 := d2 - 1;
    }
    var prev := FindLast(dst, d2, '/');
    PopText(abs, st, prev);
    d2 := if prev == d2 then 0 else prev + 1;
  }

  lemma Pushed(st: seq<Part>, p: Part)
    ensures Join(st + [p]) == Join(st) + Text(p)
    ensures Level(st + [p]) == Level(st) + (if p.name == "" then 0 else if p.name == ".." then -1 else 1)
  {
    assert (st + [p])[..|st|] == st;
  }

  /** The part that ends at 'slash', named by its first characters. */
  lemma PartName(was: string, p: nat, slash: nat)
    requires p < |was| && slash == Find(was, '/', p)
    ensures PartAt(was, p) == Part(was[p..slash], slash < |was|)
    ensures was[p..slash] == "." <==> slash - p == 1 && was[p] == '.'
    ensures was[p..slash] == ".." <==> slash - p == 2 && was[p] == '.' && was[p + 1] == '.'
    ensures was[p..slash] == "" <==> slash == p
  {
  }

  lemma NameHas(was: string, p: nat, slash: nat, nul: nat)
    requires p <= slash <= |was| && nul == Find(was[..slash], '\0', p)
    ensures '\0' in was[p..slash] <==> nul != slash
  {
    if nul < slash { assert was[p..slash][nul - p] == '\0'; }
  }

  lemma {:induction false} FindSame(s: string, t: string, c: char, p: nat)
    requires p <= |s| == |t| && forall i :: p <= i < |s| ==> s[i] == t[i]
    ensures Find(s, c, p) == Find(t, c, p)
    decreases |s| - p
  {
    if p < |s| { FindSame(s, t, c, p + 1); }
  }

  /** The pass is over. */
  lemma AtDone(was: string, cap: int, p: nat, st: seq<Part>, out: string)
    requires At(was, cap, p, st, out) && p >= |was|
    ensures Norm(was) == Some(Show(st, was)) && Fits(Absolute(was), [], Parts(was), true, cap)
    ensures out == "" <==> st == []
    ensures Absolute(was) ==> out != ""
    ensures Join(st) == out && |out| <= |was|
  {
    assert Parts(Rest(was, p)) == [];
    NormalText(Absolute(was), st);
  }

  /** A normal stack of an absolute path has no level below zero. */
  lemma AtLevel(was: string, cap: int, p: nat, st: seq<Part>, out: string)
    requires At(was, cap, p, st, out) && p < |was|
    ensures Normal(Absolute(was), st) && Open(st) && Join(st) == out && |out| <= p
    ensures Absolute(was) ==> Level(st) >= 0
  {
    if Absolute(was) && st != [] { AbsoluteLevel(st); }
  }

  /** memmove, and the slash. */
  method Push(dst: array<char>, d: nat, path: array<char>, p: nat, slash: nat, len: nat, ghost was: string) returns (d2: nat)
    requires d <= p <= slash <= len <= path.Length && len == |was|
    requires d + (slash - p) + (if slash < len then 1 else 0) <= dst.Length
    requires forall i :: p <= i < len ==> path[i] == was[i]
    modifies dst
    ensures d2 == d + (slash - p) + (if slash < len then 1 else 0)
    ensures dst[..d2] == old(dst[..d]) + (was[p..slash] + (if slash < len then "/" else ""))
    ensures forall i :: slash < i < len ==> path[i] == was[i]
  {
    d2 := d;
    forall i | 0 <= i < slash - p {
      dst[d2 + i] := path[p + i];
    }
    d2 := d2 + (slash - p);
    assert dst[..d2] == old(dst[..d]) + was[p..slash];
    if slash != len {
      dst[d2] := '/';
      d2 := d2 + 1;
    }
  }

  // ----- the last character -----

  /** A relative path that names nothing: all its parts are "." or empty. */
  predicate OnlyDots(path: string) {
    && path != "" && !Absolute(path)
    && forall i :: 0 <= i < |Parts(path)| ==> Parts(path)[i].name == "" || Parts(path)[i].name == "."
  }

  lemma {:induction false} WalkOnlyDots(abs: bool, parts: seq<Part>, first: bool)
    requires forall i :: 0 <= i < |parts| ==> parts[i].name == "." || (parts[i].name == "" && !(first && i == 0))
    ensures Walk(abs, [], parts, first) == Some([]) && Fits(abs, [], parts, first, 0)
    decreases |parts|
  {
    if parts != [] { WalkOnlyDots(abs, parts[1..], false); }
  }

  /** With no room at all, a part that is kept does not fit. */
  lemma {:induction false} NoRoom(parts: seq<Part>, first: bool)
    requires Plain(parts) && Fits(false, [], parts, first, 0) && Walk(false, [], parts, first).Some?
    ensures forall i :: 0 <= i < |parts| ==> parts[i].name == "" || parts[i].name == "."
    decreases |parts|
  {
    if parts != [] {
      var next := Step(false, [], parts[0], first);
      Pushed([], parts[0]);
      assert [] + [parts[0]] == [parts[0]];
      NoRoom(parts[1..], false);
    }
  }

  lemma {:induction false} FitsRoom(abs: bool, st: seq<Part>, parts: seq<Part>, first: bool, cap: nat)
    requires Fits(abs, st, parts, first, cap) && |Join(st)| <= cap
    ensures var r := Walk(abs, st, parts, first); r.Some? ==> |Join(r.value)| <= cap
    decreases |parts|
  {
    if parts != [] {
      var next := Step(abs, st, parts[0], first);
      if next.Some? { FitsRoom(abs, next.value, parts[1..], false, cap); }
    }
  }

  /** The "." that stands for an empty outcome is stored without a test of the capacity: it is
      past the end if and only if there is no room and the path names nothing. */
  lemma RoomForDot(path: string, cap: nat)
    ensures Norm(path).Some? && Fits(Absolute(path), [], Parts(path), true, cap) && |Norm(path).value| > cap
      <==> cap == 0 && OnlyDots(path)
  {
    if cap == 0 && OnlyDots(path) {
      DotStored(path);
    }
    if Norm(path).Some? && Fits(Absolute(path), [], Parts(path), true, cap) && |Norm(path).value| > cap {
      DotOnly(path, cap);
    }
  }

  lemma DotStored(path: string)
    requires OnlyDots(path)
    ensures Norm(path) == Some(".") && Fits(false, [], Parts(path), true, 0)
  {
    hide Fits, Walk, Parts, Join;
    PartsPlain(path);
    WalkOnlyDots(false, Parts(path), true);
  }

  lemma DotOnly(path: string, cap: nat)
    requires Norm(path).Some? && Fits(Absolute(path), [], Parts(path), true, cap) && |Norm(path).value| > cap
    ensures cap == 0 && OnlyDots(path)
  {
    hide Fits, Walk, Parts;
    PartsPlain(path);
    FitsRoom(Absolute(path), [], Parts(path), true, cap);
    if Absolute(path) { RootKept(path, cap); } else if cap == 0 { NoRoom(Parts(path), true); }
  }

  lemma RootKept(path: string, cap: nat)
    requires Absolute(path) && Fits(true, [], Parts(path), true, cap)
    ensures cap > 0
  {
    PartsPlain(path);
    var p := Parts(path)[0];
    assert Step(true, [], p, true) == Some([] + [p]);
    Pushed([], p);
  }

  /** For instance the path "." with a capacity of 0. */
  lemma DotOverruns()
    ensures OnlyDots(".") && Norm(".") == Some(".") && Fits(false, [], Parts("."), true, 0)
  {
    DotNorm();
    WalkOnlyDots(false, Parts("."), true);
  }

  /** The end of a round: the capacity, memmove and the slash. */
  method PushPart(dst: array<char>, d: nat, path: array<char>, len: nat, name: nat, slash: nat, ghost was: string, ghost st: seq<Part>)
    returns (ok: bool, d2: nat)
    requires d <= dst.Length && len <= path.Length && len == |was| && name < len && slash == Find(was, '/', name)
    requires At(was, dst.Length, name, st, dst[..d])
    requires Step(Absolute(was), st, PartAt(was, name), name == 0) == Some(st + [PartAt(was, name)])
    requires forall i :: name <= i < len ==> path[i] == was[i]
    modifies dst
    ensures !ok ==> Norm(was).None? || !Fits(Absolute(was), [], Parts(was), true, dst.Length)
    ensures ok ==> d2 <= dst.Length && At(was, dst.Length, slash + 1, st + [PartAt(was, name)], dst[..d2])
    ensures ok ==> forall i :: slash < i < len ==> path[i] == was[i]
  {
    hide Norm, Walk, Fits, Normal, Parts, Join, Level, At, PartAt, Find, Open, Step, Begun;
    ghost var part, cap, out := PartAt(was, name), dst.Length, dst[..d];
    AtPart(was, cap, name, st, out);
    PartName(was, name, slash);
    AtLevel(was, cap, name, st, out);
    Pushed(st, part);
    if d + (slash - name) + (if slash != len then 1 else 0) > dst.Length {
      AtEnd(was, cap, name, st, out);
      return false, d;
    }
    d2 := Push(dst, d, path, name, slash, len, was);
    AtNext(was, cap, name, st, out, st + [part]);
    ok := true;
  }

  /** ffpath_norm; 'dst' may be 'path' itself.  The one call that is left out stores a byte past
      the end of 'dst', see RoomForDot. */
  method Normalize(dst: array<char>, path: array<char>, len: nat) returns (n: nat)
    requires len <= path.Length && (dst.Length > 0 || !OnlyDots(path[..len]))
    modifies dst
    ensures
      var was := old(path[..len]);
      && n <= len
      && (Norm(was).Some? && Fits(Absolute(was), [], Parts(was), true, dst.Length)
        ==> n <= dst.Length && dst[..n] == Norm(was).value)
      && (Norm(was).None? || !Fits(Absolute(was), [], Parts(was), true, dst.Length) ==> n == 0)
  {
    hide Norm, Walk, Fits, Normal, Parts, Join, Level, At, PartAt, Find, Open, OnlyDots;
    ghost var was, cap := path[..len], dst.Length;
    var abs := len > 0 && path[0] == '/';
    var root := abs;
    var lev, d, p := 0, 0, 0;
    ghost var st: seq<Part> := [];
    AtStart(was, cap);
    assert dst[..0] == "";
    while p < len
      invariant 0 <= p <= len + 1 && 0 <= d <= dst.Length
      invariant At(was, cap, p, st, dst[..d]) && lev == Level(st)
      invariant root <==> abs && p == 0
      invariant forall i :: p <= i < len ==> path[i] == was[i]
    {
      ghost var out, from, st0 := dst[..d], p, st;
      FindSame(path[..len], was, '/', p);
      var slash := FindIn(path, p, len, '/');
      ghost var part := PartAt(was, p);
      AtPart(was, cap, p, st, out);
      PartName(was, p, slash);
      AtLevel(was, cap, p, st, out);
      Pushed(st, part);
      var name := p;
      var size := slash - p;
      p := slash + 1;
      if size == 0 && slash != 0 {
        AtNext(was, cap, from, st, out, st);
        continue;
      } else if size == 1 && path[name] == '.' {
        AtNext(was, cap, from, st, out, st);
        continue;
      } else if size == 2 && path[name] == '.' && path[name + 1] == '.' {
        lev := lev - 1;
        if lev < 0 {
          if abs {
            lev := 0;
            AtNext(was, cap, from, st, out, st);
            continue;
          }
        } else {
          d := Pop(dst, d, abs, st);
          st := st[..|st| - 1];
          AtNext(was, cap, from, st0, out, st);
          continue;
        }
      } else if root {
        root := false;
      } else {
        FindSame(path[..slash], was[..slash], '\0', name);
        var nul := FindIn(path, name, slash, '\0');
        NameHas(was, name, slash, nul);
        if nul != slash {
          AtEnd(was, cap, from, st, out);
          return 0;
        }
        lev := lev + 1;
      }
      assert Step(Absolute(was), st, part, from == 0) == Some(st + [part]);
      var ok;
      ok, d := PushPart(dst, d, path, len, name, slash, was, st);
      if !ok {
        return 0;
      }
      st := st + [part];
    }
    AtDone(was, cap, p, st, dst[..d]);
    RoomForDot(was, cap);
    if d == 0 && len != 0 {
      dst[d] := '.';
      d := d + 1;
    }
    n := d;
  }
}
