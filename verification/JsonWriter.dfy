/**
 * The JSON writer: one entity a call, into a buffer of a given size or, after a pass that only
 * measures, into one that grows.  A 'char' stands for a byte.
 */
module JsonWriter {
  import opened Wrappers
  import opened Digits
  import P = JsonParser

  datatype Item =
    | Str(s: string)
    | Int(i: int)
    | Bool(b: bool)
    | Null
    | OpenCtx(kind: P.Kind)
    | CloseCtx(kind: P.Kind)

  datatype Style = Compact | Tabs | Spaces2 | Spaces4

  /** The flags and contexts of the writer between two calls. */
  datatype Cook = Cook(comma: bool, key: bool, val: bool, lf: bool, ctxs: seq<P.Kind>)

  /** ffjson_cookinit */
  function Init(): Cook {
    Cook(false, false, false, false, [])
  }

  /** What is put into the buffer: cut where the buffer ends, or put only as a whole. */
  datatype Piece = Plain(text: string) | Whole(text: string)

  // ----- escaping -----

  function HexDigit(n: nat): char
    requires n < 16
  {
    if n < 10 then DigitChar(n) else ('A' as int + n - 10) as char
  }

  /** The letter that stands for a character after a backslash. */
  function EscapeLetter(c: char): Option<char> {
    if c == '"' || c == '\\' then Some(c)
    else if c == P.BACKSPACE then Some('b')
    else if c == P.FORM_FEED then Some('f')
    else if c == '\r' then Some('r')
    else if c == '\n' then Some('n')
    else if c == '\t' then Some('t')
    else None
  }

  function EscapeOne(c: char): (s: string)
    ensures |s| == EscapedLength(c)
  {
    if EscapeLetter(c).Some? then ['\\', EscapeLetter(c).value]
    else if c < ' ' || c == P.DELETE then "\\u00" + [HexDigit(c as int / 16), HexDigit(c as int % 16)]
    else [c]
  }

  function EscapedLength(c: char): (n: nat)
    ensures 1 <= n <= 6
  {
    if EscapeLetter(c).Some? then 2 else if c < ' ' || c == P.DELETE then 6 else 1
  }

  function Escape(s: string): string {
    if s == "" then "" else Escape(s[..|s| - 1]) + EscapeOne(s[|s| - 1])
  }

  // ----- one call -----

  function Repeat(c: char, n: nat): string {
    seq(n, i => c)
  }

  function Indent(style: Style, n: nat): string {
    match style
    case Compact => ""
    case Tabs => Repeat('\t', n)
    case Spaces2 => Repeat(' ', 2 * n)
    case Spaces4 => Repeat(' ', 4 * n)
  }

  predicate IsContext(k: P.Kind) {
    k == P.TObj || k == P.TArr
  }

  /** A context may be closed if it is the last one opened. */
  predicate CanAdd(c: Cook, item: Item) {
    match item
    case OpenCtx(k) => IsContext(k)
    case CloseCtx(k) => IsContext(k) && c.ctxs != [] && c.ctxs[|c.ctxs| - 1] == k
    case _ => true
  }

  /** What comes before an entity. */
  function Lead(c: Cook, style: Style, item: Item): string
    requires CanAdd(c, item)
  {
    var n := |c.ctxs| - (if item.CloseCtx? then 1 else 0);
    (if c.comma && !item.CloseCtx? then "," else "")
    + (if style == Compact || c.val then "" else (if c.lf then "\n" else "") + Indent(style, n))
  }

  /** What comes after a key. */
  function Trail(c: Cook, style: Style, item: Item): string {
    if c.key && !item.OpenCtx? && !item.CloseCtx? then ":" + (if style == Compact then "" else " ") else ""
  }

  function Body(item: Item): seq<Piece> {
    match item
    case Str(s) => [Plain("\""), Whole(Escape(s)), Plain("\"")]
    case Int(i) => [Plain(Text(i))]
    case Bool(b) => [Plain(if b then "true" else "false")]
    case Null => [Plain("null")]
    case OpenCtx(k) => [Plain(if k == P.TArr then "[" else "{")]
    case CloseCtx(k) => [Plain(if k == P.TArr then "]" else "}")]
  }

  function Pieces(c: Cook, style: Style, item: Item): seq<Piece>
    requires CanAdd(c, item)
  {
    [Plain(Lead(c, style, item))] + Body(item) + [Plain(Trail(c, style, item))]
  }

  function TextOf(ps: seq<Piece>): string {
    if ps == [] then "" else TextOf(ps[..|ps| - 1]) + ps[|ps| - 1].text
  }

  function InObject(ctxs: seq<P.Kind>): bool {
    ctxs != [] && ctxs[|ctxs| - 1] == P.TObj
  }

  /** The flags after a call, before the one for a line feed is set. */
  function Next(c: Cook, item: Item): Cook
    requires CanAdd(c, item)
  {
    match item
    case OpenCtx(k) => Cook(false, k == P.TObj, false, false, c.ctxs + [k])
    case CloseCtx(k) =>
      var rest := c.ctxs[..|c.ctxs| - 1];
      Cook(true, InObject(rest), false, false, rest)
    case _ =>
      if c.key then Cook(false, false, true, false, c.ctxs)
      else if c.ctxs != [] then Cook(true, InObject(c.ctxs), false, false, c.ctxs)
      else c
  }

  /** The bytes that the measuring pass counts: an integer counts as the longest one. */
  function Measure(c: Cook, style: Style, item: Item): nat
    requires CanAdd(c, item)
  {
    |Lead(c, style, item)| + (if item.Int? then 20 else |TextOf(Body(item))|) + |Trail(c, style, item)|
  }

  // ----- a buffer of 'cap' bytes -----

  function Min(a: int, b: int): int {
    if a < b then a else b
  }

  function PutOne(out: string, cap: nat, p: Piece): string {
    if |out| + |p.text| <= cap then out + p.text
    else if p.Plain? && |out| <= cap then out + p.text[..cap - |out|]
    else out
  }

  /** What the buffer holds once the pieces have been put into it. */
  function Put(out: string, cap: nat, ps: seq<Piece>): string {
    if ps == [] then out else PutOne(Put(out, cap, ps[..|ps| - 1]), cap, ps[|ps| - 1])
  }

  const JSON_OK := 0
  const JSON_BUFFULL := 1
  const JSON_ERR := 2

  const INT_MIN := -0x8000_0000

  /** -(int)n, in 32 bits: the code that the measuring pass returns for 'n' bytes. */
  function MinusInt(n: nat): (r: int)
    ensures INT_MIN <= r < 0x8000_0000
    ensures n < 0x8000_0000 ==> r == 0 - n
    ensures r < 0 <==> 0 < n % 0x1_0000_0000 <= 0x8000_0000
    ensures r < 0 ==> r == 0 - n % 0x1_0000_0000
    ensures r == 0 <==> n % 0x1_0000_0000 == 0
  {
    var low := n % 0x1_0000_0000;
    if low <= 0x8000_0000 then 0 - low else 0x1_0000_0000 - low
  }

  /** The size that is asked for after the code 'r': the smallest int stays negative when negated. */
  function SizeFor(r: int): (more: nat)
    requires INT_MIN <= r < 0
    ensures 0 < more < TWO64
  {
    if r == INT_MIN then TWO64 + INT_MIN + 1 else -r + 1
  }

  /**
   * ffarr_grow with FFARR_GROWQUARTER, sizes in 64 bits: the capacity afterwards.  No more than
   * half of the address space can be allocated.
   */
  function Grown(cap: nat, len: nat, more: nat): Option<nat> {
    var need := (len + more) % TWO64;
    if need <= cap then Some(cap)
    else
      var size := (len + (if need / 4 > more then need / 4 else more)) % TWO64;
      if size >= TWO63 then None else Some(if size > cap then size else cap)
  }

  /** A call of ffjson_bufadd gets room for all of its text. */
  predicate Fits(cap: nat, len: nat, c: Cook, style: Style, item: Item)
    requires CanAdd(c, item)
  {
    var r := MinusInt(Measure(c, style, item));
    && r < 0
    && Grown(cap, len, SizeFor(r)).Some?
    && len + |TextOf(Pieces(c, style, item))| < Grown(cap, len, SizeFor(r)).value
  }

  /** A length that an int holds always gets its room. */
  lemma SmallFits(cap: nat, len: nat, c: Cook, style: Style, item: Item)
    requires CanAdd(c, item) && (item.Int? ==> -TWO63 <= item.i < TWO63)
    requires Measure(c, style, item) < 0x8000_0000 && len < 0x4000_0000_0000_0000 && len <= cap
    ensures Fits(cap, len, c, style, item)
  {
    var n: int := Measure(c, style, item);
    MeasureEnough(c, style, item);
    MeasureSome(c, style, item);
    hide Measure, Pieces, TextOf, Grown, MinusInt;
    assert SizeFor(MinusInt(n)) == n + 1;
    RoomFor(cap, len, n + 1);
  }

  lemma RoomFor(cap: nat, len: nat, more: nat)
    requires more <= 0x8000_0000 && len < 0x4000_0000_0000_0000
    ensures Grown(cap, len, more).Some? && Grown(cap, len, more).value >= len + more
  {
    assert (len + more) % TWO64 == len + more;
    var size := len + if (len + more) / 4 > more then (len + more) / 4 else more;
    assert size % TWO64 == size;
  }

  /** In a buffer of up to 12 GiB that has no room to spare, no other length does. */
  lemma OnlySmallFits(cap: nat, len: nat, c: Cook, style: Style, item: Item)
    requires CanAdd(c, item) && (item.Int? ==> -TWO63 <= item.i < TWO63)
    requires len <= cap <= len + |TextOf(Pieces(c, style, item))| && len < 0x3_0000_0000
    ensures Fits(cap, len, c, style, item) <==> Measure(c, style, item) < 0x8000_0000
  {
    var n, text := Measure(c, style, item), |TextOf(Pieces(c, style, item))|;
    if n < 0x8000_0000 {
      SmallFits(cap, len, c, style, item);
    } else {
      MeasureClose(c, style, item);
      hide Measure, Pieces, TextOf;
      TooLarge(cap, len, n, text);
    }
  }

  lemma TooLarge(cap: nat, len: nat, n: nat, text: nat)
    requires n >= 0x8000_0000 && n <= text + 19 && len <= cap <= len + text && len < 0x3_0000_0000
    ensures
      var r := MinusInt(n);
      r < 0 && Grown(cap, len, SizeFor(r)).Some? ==> Grown(cap, len, SizeFor(r)).value <= len + text
  {
    var low := n % 0x1_0000_0000;
    var r := MinusInt(n);
    if low == 0x8000_0000 {
      assert SizeFor(r) == TWO64 - 0x7fff_ffff;
      if len < 0x7fff_ffff {
        assert (len + SizeFor(r)) % TWO64 == len + SizeFor(r);
      } else {
        assert (len + SizeFor(r)) % TWO64 == len - 0x7fff_ffff;
      }
    } else if r < 0 {
      assert n == n / 0x1_0000_0000 * 0x1_0000_0000 + low;
      assert n >= 0x1_0000_0000 + low;
    }
  }

  lemma MeasureSome(c: Cook, style: Style, item: Item)
    requires CanAdd(c, item)
    ensures Measure(c, style, item) > 0
  {
    if !item.Int? { BodySome(item); }
  }

  /** The measuring pass counts at most 19 bytes too many. */
  lemma MeasureClose(c: Cook, style: Style, item: Item)
    requires CanAdd(c, item)  && (item.Int? ==> -TWO63 <= item.i < TWO63)
    ensures Measure(c, style, item) <= |TextOf(Pieces(c, style, item))| + 19
  {
    TextOfPieces(c, style, item);
    if item.Int? {
      TextLength(item.i);
      assert Body(item)[..0] == [];
    }
  }

  /** A string for which ffjson_bufadd reports success and writes nothing: the length wraps to 0. */
  lemma SuccessWithoutText(s: string)
    requires |s| == 0xffff_fffe && forall i :: 0 <= i < |s| ==> s[i] == 'a'
    ensures MinusInt(Measure(Init(), Compact, Str(s))) == JSON_OK
  {
    PlainEscape(s);
    StringMeasure(s);
    hide Measure, Escape;
  }

  lemma StringMeasure(s: string)
    ensures Measure(Init(), Compact, Str(s)) == |Escape(s)| + 2
  {
    var q, e := Plain("\""), Whole(Escape(s));
    hide Escape;
    TextAppend([], q);
    TextAppend([q], e);
    TextAppend([q, e], q);
    assert [] + [q] == [q] && [q] + [e] == [q, e] && [q, e] + [q] == [q, e, q];
  }

  lemma {:induction false} PlainEscape(s: string)
    requires forall i :: 0 <= i < |s| ==> s[i] == 'a'
    ensures |Escape(s)| == |s|
  {
    if s != "" { PlainEscape(s[..|s| - 1]); }
  }

  lemma TextAppend(ps: seq<Piece>, p: Piece)
    ensures TextOf(ps + [p]) == TextOf(ps) + p.text
  {
    assert (ps + [p])[..|ps|] == ps;
  }

  lemma {:induction false} PutRoom(out: string, cap: nat, ps: seq<Piece>)
    requires |out| + |TextOf(ps)| <= cap
    ensures Put(out, cap, ps) == out + TextOf(ps)
  {
    if ps != [] {
      var n := |ps| - 1;
      PutRoom(out, cap, ps[..n]);
    }
  }

  lemma {:induction false} PutShort(out: string, cap: nat, ps: seq<Piece>)
    requires |out| <= cap
    ensures out <= Put(out, cap, ps) && |Put(out, cap, ps)| <= cap
    ensures |Put(out, cap, ps)| <= |out| + |TextOf(ps)|
  {
    if ps != [] { PutShort(out, cap, ps[..|ps| - 1]); }
  }

  /** With a byte to spare all of it is put, and only then. */
  lemma PutAll(out: string, cap: nat, ps: seq<Piece>)
    requires |out| <= cap
    ensures |Put(out, cap, ps)| < cap && Put(out, cap, ps) == out + TextOf(ps) <==> |out| + |TextOf(ps)| < cap
  {
    if |out| + |TextOf(ps)| < cap {
      PutRoom(out, cap, ps);
    }
  }

  /** Without it, a string may be left out and the call still report success. */
  lemma StringLeftOut()
    ensures Put("", 4, Pieces(Init(), Compact, Str("abcdef"))) == "\"\""
  {
    var ps := Pieces(Init(), Compact, Str("abcdef"));
    var e := Escape("abcdef");
    EscapeLonger("abcdef");
    assert Lead(Init(), Compact, Str("abcdef")) == "" && Trail(Init(), Compact, Str("abcdef")) == "";
    assert ps == [Plain(""), Plain("\""), Whole(e), Plain("\""), Plain("")];
    assert ps[..4] == [Plain(""), Plain("\""), Whole(e), Plain("\"")];
    assert ps[..4][..3] == [Plain(""), Plain("\""), Whole(e)];
    assert ps[..4][..3][..2] == [Plain(""), Plain("\"")];
    assert ps[..4][..3][..2][..1] == [Plain("")];
    assert Put("", 4, ps[..4][..3][..2][..1]) == "";
    assert Put("", 4, ps[..4][..3][..2]) == "\"";
    assert Put("", 4, ps[..4][..3]) == "\"";
    assert Put("", 4, ps[..4]) == "\"\"";
  }

  lemma {:induction false} EscapeLonger(s: string)
    ensures |s| <= |Escape(s)| <= 6 * |s|
  {
    if s != "" { EscapeLonger(s[..|s| - 1]); }
  }

  /** The measuring pass never counts too little. */
  lemma MeasureEnough(c: Cook, style: Style, item: Item)
    requires CanAdd(c, item) && (item.Int? ==> -TWO63 <= item.i < TWO63)
    ensures |TextOf(Pieces(c, style, item))| <= Measure(c, style, item)
  {
    TextOfPieces(c, style, item);
    if item.Int? {
      TextLength(item.i);
      assert Body(item)[..0] == [];
    }
  }

  lemma TextOfPieces(c: Cook, style: Style, item: Item)
    requires CanAdd(c, item)
    ensures TextOf(Pieces(c, style, item)) == Lead(c, style, item) + TextOf(Body(item)) + Trail(c, style, item)
  {
    hide Lead, Body, Trail, CanAdd;
    var a, b, z := [Plain(Lead(c, style, item))], Body(item), Plain(Trail(c, style, item));
    TextAppend([], a[0]);
    assert [] + [a[0]] == a;
    hide TextOf;
    TextAppend(a + b, z);
    TextConcat(a, b);
  }

  lemma {:induction false} TextConcat(a: seq<Piece>, b: seq<Piece>)
    ensures TextOf(a + b) == TextOf(a) + TextOf(b)
  {
    if b == [] {
      assert a + b == a;
    } else {
      hide TextOf;
      var n := |b| - 1;
      assert a + b == (a + b[..n]) + [b[n]] && b == b[..n] + [b[n]];
      TextConcat(a, b[..n]);
      TextAppend(a + b[..n], b[n]);
      TextAppend(b[..n], b[n]);
      assert TextOf(a) + (TextOf(b[..n]) + b[n].text) == (TextOf(a) + TextOf(b[..n])) + b[n].text;
    }
  }

  // ----- the writer -----

  class Writer {
    var buf: array?<char>
    var len: nat
    var comma: bool
    var key: bool
    var val: bool
    var lf: bool
    var ctxs: seq<P.Kind>

    ghost predicate Valid()
      reads this
    {
      len <= Cap() && (buf == null ==> len == 0)
    }

    function Cap(): nat
      reads this
    {
      if buf == null then 0 else buf.Length
    }

    ghost function Flags(): Cook
      reads this
    {
      Cook(comma, key, val, lf, ctxs)
    }

    /** The text written so far. */
    ghost function Out(): string
      requires Valid()
      reads this, buf
    {
      if buf == null then "" else buf[..len]
    }

    /** The first 'd' bytes of the buffer. */
    ghost function Upto(d: nat): string
      requires d <= Cap()
      reads this, buf
    {
      if buf == null then "" else buf[..d]
    }

    /** ffjson_cookinit */
    constructor (b: array?<char>)
      ensures Valid() && buf == b && Flags() == Init() && Out() == ""
    {
      buf, len := b, 0;
      comma, key, val, lf, ctxs := false, false, false, false, [];
    }

    /** ffs_copy: as much as there is room for. */
    method Copy(d: nat, s: string) returns (d2: nat)
      requires d <= Cap()
      modifies buf
      ensures d <= d2 <= Cap() && Upto(d2) == PutOne(old(Upto(d)), Cap(), Plain(s))
    {
      d2 := d;
      if buf == null {
        return;
      }
      var n := Min(Cap() - d, |s|);
      forall i | 0 <= i < n {
        buf[d + i] := s[i];
      }
      d2 := d + n;
    }

    /** ffjson_escape: as a whole, or not at all; without a buffer, only its length. */
    method Escaped(d: nat, s: string) returns (n: nat)
      requires d <= Cap()
      modifies buf
      ensures buf == null ==> n == |Escape(s)|
      ensures buf != null ==> d + n <= Cap() && Upto(d + n) == PutOne(old(Upto(d)), Cap(), Whole(Escape(s)))
    {
      if buf == null {
        n := EscapedSize(s);
      } else {
        n := EscapeInto(buf, d, s);
      }
    }

    /** The comma and the white space before an entity. */
    method AddLead(style: Style, item: Item) returns (d: nat, n: nat)
      requires Valid() && CanAdd(Flags(), item)
      modifies buf
      ensures d <= Cap() && Upto(d) == PutOne(old(Out()), Cap(), Plain(Lead(Flags(), style, item)))
      ensures n == |Lead(Flags(), style, item)|
    {
      hide PutOne, Indent, Lead;
      ghost var out, cap := Out(), Cap();
      d, n := len, 0;
      ghost var lead := "";
      PutNothing(out, cap);
      if comma && !item.CloseCtx? {
        d := Copy(d, ",");
        n := n + 1;
        PutTwice(out, cap, lead, ",");
        lead := lead + ",";
      }
      ghost var first := lead;
      if style != Compact && !val {
        var depth := |ctxs|;
        if item.CloseCtx? {
          depth := depth - 1;
        }
        if lf {
          d := Copy(d, "\n");
          n := n + 1;
          PutTwice(out, cap, lead, "\n");
          lead := lead + "\n";
        }
        var fill := Indent(style, depth);
        d := Copy(d, fill);
        n := n + |fill|;
        PutTwice(out, cap, lead, fill);
        lead := lead + fill;
        assert lead == first + ((if lf then "\n" else "") + fill);
      } else {
        assert lead == first + "";
      }
      LeadIs(Flags(), style, item);
    }

    method AddString(d: nat, s: string) returns (d2: nat, n: nat)
      requires d <= Cap()
      modifies buf
      ensures d2 <= Cap()
      ensures Upto(d2) ==
        PutOne(PutOne(PutOne(old(Upto(d)), Cap(), Plain("\"")), Cap(), Whole(Escape(s))), Cap(), Plain("\""))
      ensures buf == null ==> n == |Escape(s)| + 2
    {
      hide Escape;
      d2 := Copy(d, "\"");
      n := Escaped(d2, s);
      if buf != null {
        d2 := d2 + n;
      }
      d2 := Copy(d2, "\"");
      n := n + 2;
    }

    method AddBody(d: nat, item: Item) returns (d2: nat, n: nat)
      requires d <= Cap() && (item.Int? ==> -TWO63 <= item.i < TWO63)
      modifies buf
      ensures d2 <= Cap() && Upto(d2) == Put(old(Upto(d)), Cap(), Body(item))
      ensures buf == null ==> n == if item.Int? then 20 else |TextOf(Body(item))|
    {
      BodyText(old(Upto(d)), Cap(), item);
      match item
      case Str(s) => d2, n := AddString(d, s);
      case Int(i) =>
        var t := FromInt(i);
        d2 := Copy(d, t);
        n := 20;
      case Bool(b) =>
        d2 := Copy(d, if b then "true" else "false");
        n := if b then 4 else 5;
      case Null =>
        d2 := Copy(d, "null");
        n := 4;
      case OpenCtx(k) =>
        d2 := Copy(d, if k == P.TArr then "[" else "{");
        n := 1;
      case CloseCtx(k) =>
        d2 := Copy(d, if k == P.TArr then "]" else "}");
        n := 1;
    }

    /** The separator after a key. */
    method AddTrail(d: nat, style: Style, item: Item) returns (d2: nat, n: nat)
      requires d <= Cap()
      modifies buf
      ensures d2 <= Cap() && Upto(d2) == PutOne(old(Upto(d)), Cap(), Plain(Trail(Flags(), style, item)))
      ensures n == |Trail(Flags(), style, item)|
    {
      d2, n := d, 0;
      ghost var out := Upto(d);
      PutNothing(out, Cap());
      if !item.OpenCtx? && !item.CloseCtx? {
        if key {
          d2 := Copy(d2, ":");
          n := n + 1;
          if style != Compact {
            d2 := Copy(d2, " ");
            n := n + 1;
            PutTwice(out, Cap(), ":", " ");
          } else {
            assert ":" + "" == ":";
          }
        }
      }
    }

    /** All the bytes of an entity, beyond those written so far. */
    method AddPieces(style: Style, item: Item) returns (d: nat, n: nat)
      requires Valid() && GoodItem(item) && CanAdd(Flags(), item)
      modifies buf
      ensures d <= Cap() && Upto(d) == Put(old(Out()), Cap(), Pieces(Flags(), style, item)) && Out() == old(Out())
      ensures buf == null ==> n == Measure(Flags(), style, item)
    {
      hide Put, PutOne, Pieces, Lead, Trail, Body;
      ghost var c, out, cap := Flags(), Out(), Cap();
      PutPieces(out, cap, c, style, item);
      PutShort(out, cap, Pieces(c, style, item));
      var a, b, z: nat;
      d, a := AddLead(style, item);
      d, b := AddBody(d, item);
      d, z := AddTrail(d, style, item);
      n := a + b + z;
      if buf != null { assert buf[..d][..len] == buf[..len]; }
    }

    /** The flags and contexts after an entity. */
    method Advance(item: Item)
      requires CanAdd(Flags(), item)
      modifies this`comma, this`key, this`val, this`lf, this`ctxs
      ensures Flags() == Next(old(Flags()), item)
    {
      match item
      case OpenCtx(k) =>
        ctxs := ctxs + [k];
        comma, key, val, lf := false, k == P.TObj, false, false;
      case CloseCtx(k) =>
        ctxs := ctxs[..|ctxs| - 1];
        comma, key, val, lf := true, |ctxs| != 0 && ctxs[|ctxs| - 1] == P.TObj, false, false;
      case _ =>
        if key {
          comma, key, val, lf := false, false, true, false;
        } else if |ctxs| != 0 {
          comma, key, val, lf := true, ctxs[|ctxs| - 1] == P.TObj, false, false;
        }
    }

    /** ffjson_add: one entity, into the buffer or, without one, only measured. */
    method Add(style: Style, item: Item) returns (r: int)
      requires Valid() && GoodItem(item)
      modifies this, buf
      ensures Valid() && buf == old(buf)
      ensures !CanAdd(old(Flags()), item) ==> r == JSON_ERR && Flags() == old(Flags()) && Out() == old(Out())
      ensures CanAdd(old(Flags()), item) && buf == null ==>
        r == MinusInt(Measure(old(Flags()), style, item)) && Flags() == Next(old(Flags()), item)
      ensures CanAdd(old(Flags()), item) && buf != null ==>
        var out := Put(old(Out()), Cap(), Pieces(old(Flags()), style, item));
        if |out| < Cap() then r == JSON_OK && Out() == out && Flags() == Next(old(Flags()), item).(lf := true)
        else r == JSON_BUFFULL && Out() == old(Out()) && Flags() == Next(old(Flags()), item)
    {
      if item.CloseCtx? && (|ctxs| == 0 || ctxs[|ctxs| - 1] != item.kind) {
        return JSON_ERR;
      }
      assert CanAdd(Flags(), item);
      hide Put, Pieces, Next, Measure, CanAdd, GoodItem, TextOf;
      ghost var out := Out();
      var d, n := AddPieces(style, item);
      ghost var now := Upto(d);
      Advance(item);
      if buf == null {
        return MinusInt(n);
      }
      assert buf[..d] == now && buf[..len] == out;
      if d == buf.Length {
        return JSON_BUFFULL;
      }
      lf := true;
      len := d;
      return JSON_OK;
    }

    /** ffarr_grow with FFARR_GROWQUARTER. */
    method Reserve(more: nat) returns (ok: bool)
      requires Valid() && 0 < more < TWO64
      modifies this`buf
      ensures Valid() && Out() == old(Out()) && (buf == old(buf) || fresh(buf))
      ensures ok <==> Grown(old(Cap()), len, more).Some?
      ensures if ok then buf != null && Cap() == Grown(old(Cap()), len, more).value else buf == old(buf)
    {
      var need := (len + more) % TWO64;
      FirstSize(len, more);
      if Cap() >= need {
        return true;
      }
      var size := (len + (if need / 4 > more then need / 4 else more)) % TWO64;
      if size >= TWO63 {
        return false;
      }
      if Cap() < size {
        Resize(size);
      }
      ok := true;
    }

    /** Without a buffer something is asked for. */
    lemma FirstSize(n: nat, more: nat)
      requires 0 < more < TWO64
      ensures n == 0 ==> (n + more) % TWO64 == more
      ensures n == 0 ==> (n + (if more / 4 > more then more / 4 else more)) % TWO64 == more
    {
    }

    method Resize(size: nat)
      requires Valid() && size >= len
      modifies this`buf
      ensures Valid() && Out() == old(Out()) && fresh(buf) && buf != null && Cap() == size
    {
      var bigger := new char[size];
      if buf != null {
        forall i | 0 <= i < len {
          bigger[i] := buf[i];
        }
      }
      ghost var out := Out();
      buf := bigger;
      assert buf[..len] == out;
    }

    /** The measuring call of ffjson_bufadd: without a buffer, and all put back afterwards. */
    method MeasureCall(style: Style, item: Item) returns (r: int)
      requires Valid() && GoodItem(item)
      modifies this
      ensures Valid() && buf == old(buf) && len == old(len) && Flags() == old(Flags())
      ensures r == if CanAdd(Flags(), item) then MinusInt(Measure(Flags(), style, item)) else JSON_ERR
    {
      hide Put, Pieces, Next, Measure, TextOf, CanAdd, GoodItem;
      var b, n, c0, k0, v0, l0, x0 := buf, len, comma, key, val, lf, ctxs;
      buf, len := null, 0;
      r := Add(style, item);
      buf, len := b, n;
      comma, key, val, lf, ctxs := c0, k0, v0, l0, x0;
    }

    /**
     * ffjson_bufadd: measured first, then written.  All the text is appended if and only if the
     * length, as an int, leads to a buffer that has room for it.
     */
    method BufAdd(style: Style, item: Item) returns (r: int)
      requires Valid() && GoodItem(item)
      modifies this, buf
      ensures Valid() && (buf == old(buf) || fresh(buf))
      ensures !CanAdd(old(Flags()), item) ==> r == JSON_ERR && Flags() == old(Flags()) && Out() == old(Out())
      ensures CanAdd(old(Flags()), item) ==>
        BufAdded(old(Flags()), old(Out()), old(Cap()), style, item, r, Flags(), Out(), Cap())
      ensures CanAdd(old(Flags()), item) ==>
        (Fits(old(Cap()), old(len), old(Flags()), style, item) <==>
          r == JSON_OK && Out() == old(Out()) + TextOf(Pieces(old(Flags()), style, item)))
      ensures CanAdd(old(Flags()), item) && Fits(old(Cap()), old(len), old(Flags()), style, item) ==>
        Flags() == Next(old(Flags()), item).(lf := true)
    {
      hide Put, Pieces, Next, Measure, TextOf, CanAdd, MinusInt, Grown, Fits, BufAdded;
      ghost var out, flags, cap0 := Out(), Flags(), Cap();
      r := MeasureCall(style, item);
      if CanAdd(flags, item) {
        RefusedOutcome(flags, out, cap0, style, item);
        AddedOutcome(flags, out, cap0, style, item);
      }
      assert Out() == out;
      if r >= 0 {
        return;
      }
      var ok := Reserve(SizeFor(r));
      if !ok {
        return JSON_ERR;
      }
      r := Add(style, item);
    }
  }

  /** What ffjson_bufadd leads to, from the flags 'c' and the text 'out' in a buffer of 'cap'. */
  predicate BufAdded(c: Cook, out: string, cap: nat, style: Style, item: Item, r: int, c2: Cook, out2: string, cap2: nat)
    requires CanAdd(c, item)
  {
    var m := MinusInt(Measure(c, style, item));
    if m >= 0 then r == m && c2 == c && out2 == out && cap2 == cap
    else
      var g := Grown(cap, |out|, SizeFor(m));
      if g.None? then r == JSON_ERR && c2 == c && out2 == out && cap2 == cap
      else
        var now := Put(out, g.value, Pieces(c, style, item));
        && cap2 == g.value
        && (if |now| < g.value then r == JSON_OK && out2 == now && c2 == Next(c, item).(lf := true)
            else r == JSON_BUFFULL && out2 == out && c2 == Next(c, item))
  }

  /** A length that is not negative as a code is returned, and nothing is written. */
  lemma RefusedOutcome(c: Cook, out: string, cap: nat, style: Style, item: Item)
    requires CanAdd(c, item) && |out| <= cap
    ensures
      var m := MinusInt(Measure(c, style, item));
      && (m >= 0 ==> BufAdded(c, out, cap, style, item, m, c, out, cap) && !Fits(cap, |out|, c, style, item))
      && (m < 0 && Grown(cap, |out|, SizeFor(m)).None? ==>
            BufAdded(c, out, cap, style, item, JSON_ERR, c, out, cap) && !Fits(cap, |out|, c, style, item))
    ensures out != out + TextOf(Pieces(c, style, item))
  {
    TextSome(c, style, item);
    assert |out + TextOf(Pieces(c, style, item))| > |out|;
  }

  lemma GrownEnough(cap: nat, len: nat, more: nat)
    ensures Grown(cap, len, more).Some? ==> Grown(cap, len, more).value >= cap
  {
  }

  /** Otherwise the outcome is that of writing into the buffer that has grown. */
  lemma AddedOutcome(c: Cook, out: string, cap: nat, style: Style, item: Item)
    requires CanAdd(c, item) && |out| <= cap
    ensures
      var m := MinusInt(Measure(c, style, item));
      m < 0 && Grown(cap, |out|, SizeFor(m)).Some? ==>
        var cap2 := Grown(cap, |out|, SizeFor(m)).value;
        var now := Put(out, cap2, Pieces(c, style, item));
        && (|now| < cap2 ==> BufAdded(c, out, cap, style, item, JSON_OK, Next(c, item).(lf := true), now, cap2))
        && (|now| >= cap2 ==> BufAdded(c, out, cap, style, item, JSON_BUFFULL, Next(c, item), out, cap2))
        && (Fits(cap, |out|, c, style, item) <==> |now| < cap2 && now == out + TextOf(Pieces(c, style, item)))
  {
    hide *;
    var m := MinusInt(Measure(c, style, item));
    if m < 0 && Grown(cap, |out|, SizeFor(m)).Some? {
      GrownEnough(cap, |out|, SizeFor(m));
      PutAll(out, Grown(cap, |out|, SizeFor(m)).value, Pieces(c, style, item));
      WrittenOutcome(c, out, cap, style, item);
    }
  }

  lemma WrittenOutcome(c: Cook, out: string, cap: nat, style: Style, item: Item)
    requires CanAdd(c, item) && MinusInt(Measure(c, style, item)) < 0
    requires Grown(cap, |out|, SizeFor(MinusInt(Measure(c, style, item)))).Some?
    ensures
      var cap2 := Grown(cap, |out|, SizeFor(MinusInt(Measure(c, style, item)))).value;
      var now := Put(out, cap2, Pieces(c, style, item));
      && (|now| < cap2 ==> BufAdded(c, out, cap, style, item, JSON_OK, Next(c, item).(lf := true), now, cap2))
      && (|now| >= cap2 ==> BufAdded(c, out, cap, style, item, JSON_BUFFULL, Next(c, item), out, cap2))
      && (Fits(cap, |out|, c, style, item) <==> |out| + |TextOf(Pieces(c, style, item))| < cap2)
  {
    hide Put, Pieces, Next, Measure, TextOf, Grown, MinusInt, CanAdd, SizeFor;
  }

  lemma BodySome(item: Item)
    ensures TextOf(Body(item)) != ""
  {
    assert Body(item)[0].text != "";
  }

  lemma TextSome(c: Cook, style: Style, item: Item)
    requires CanAdd(c, item)
    ensures TextOf(Pieces(c, style, item)) != ""
  {
    TextOfPieces(c, style, item);
    BodySome(item);
    hide TextOf, Lead, Trail, Body, Pieces;
  }

  /** What can be written. */
  predicate GoodItem(item: Item) {
    && (item.OpenCtx? || item.CloseCtx? ==> IsContext(item.kind))
    && (item.Int? ==> -TWO63 <= item.i < TWO63)
  }

  lemma {:induction false} PutAppend(out: string, cap: nat, a: seq<Piece>, b: seq<Piece>)
    ensures Put(out, cap, a + b) == Put(Put(out, cap, a), cap, b)
  {
    if b == [] {
      assert a + b == a;
    } else {
      var n := |b| - 1;
      assert (a + b)[..|a| + n] == a + b[..n];
      PutAppend(out, cap, a, b[..n]);
    }
  }

  lemma PutPieces(out: string, cap: nat, c: Cook, style: Style, item: Item)
    requires CanAdd(c, item)
    ensures Put(out, cap, Pieces(c, style, item)) ==
      PutOne(Put(PutOne(out, cap, Plain(Lead(c, style, item))), cap, Body(item)), cap, Plain(Trail(c, style, item)))
  {
    var a, z := [Plain(Lead(c, style, item))], [Plain(Trail(c, style, item))];
    PutAppend(out, cap, a + Body(item), z);
    PutAppend(out, cap, a, Body(item));
    assert a[..0] == [] && z[..0] == [];
  }

  lemma PutTwice(out: string, cap: nat, a: string, b: string)
    requires |out| <= cap
    ensures PutOne(PutOne(out, cap, Plain(a)), cap, Plain(b)) == PutOne(out, cap, Plain(a + b))
  {
    if |out| + |a| + |b| <= cap {
      assert (out + a) + b == out + (a + b);
    } else if |out| + |a| <= cap {
      assert (a + b)[..cap - |out|] == a + b[..cap - |out| - |a|];
    } else {
      assert (a + b)[..cap - |out|] == a[..cap - |out|];
    }
  }

  lemma PutNothing(out: string, cap: nat)
    requires |out| <= cap
    ensures PutOne(out, cap, Plain("")) == out
  {
  }

  lemma LeadIs(c: Cook, style: Style, item: Item)
    requires CanAdd(c, item)
    ensures Lead(c, style, item) ==
      (if c.comma && !item.CloseCtx? then "" + "," else "")
      + (if style != Compact && !c.val
         then (if c.lf then "\n" else "") + Indent(style, |c.ctxs| - (if item.CloseCtx? then 1 else 0)) else "")
  {
    assert "" + "," == ",";
  }

  lemma PutThree(out: string, cap: nat, a: Piece, b: Piece, c: Piece)
    ensures Put(out, cap, [a]) == PutOne(out, cap, a) && TextOf([a]) == a.text
    ensures Put(out, cap, [a, b, c]) == PutOne(PutOne(PutOne(out, cap, a), cap, b), cap, c)
    ensures TextOf([a, b, c]) == a.text + b.text + c.text
  {
    assert [a, b, c][..2] == [a, b] && [a, b][..1] == [a] && [a][..0] == [];
    assert Put(out, cap, [a, b]) == PutOne(Put(out, cap, [a]), cap, b);
    assert TextOf([a, b]) == TextOf([a]) + b.text && TextOf([a]) == "" + a.text;
  }

  /** The pieces of an entity, one by one. */
  lemma BodyText(out: string, cap: nat, item: Item)
    ensures Put(out, cap, Body(item)) ==
      if item.Str? then PutOne(PutOne(PutOne(out, cap, Plain("\"")), cap, Whole(Escape(item.s))), cap, Plain("\""))
      else PutOne(out, cap, Body(item)[0])
    ensures |TextOf(Body(item))| == if item.Str? then |Escape(item.s)| + 2 else |Body(item)[0].text|
  {
    if item.Str? {
      PutThree(out, cap, Plain("\""), Whole(Escape(item.s)), Plain("\""));
    } else {
      PutThree(out, cap, Body(item)[0], Plain(""), Plain(""));
    }
  }

  method EscapedSize(s: string) returns (n: nat)
    ensures n == |Escape(s)|
  {
    hide EscapeOne;
    n := 0;
    var i := 0;
    while i < |s|
      invariant 0 <= i <= |s| && n == |Escape(s[..i])|
    {
      EscapePrefix(s, i);
      n := n + EscapedLength(s[i]);
      i := i + 1;
    }
    assert s[..i] == s;
  }

  method EscapeInto(buf: array<char>, d: nat, s: string) returns (n: nat)
    requires d <= buf.Length
    modifies buf
    ensures d + n <= buf.Length && buf[..d + n] == PutOne(old(buf[..d]), buf.Length, Whole(Escape(s)))
  {
    hide EscapeOne, Escape;
    ghost var out := buf[..d];
    var e, i := d, 0;
    EscapeNothing(s);
    assert buf[..d] == out + "";
    while i < |s|
      invariant 0 <= i <= |s| && d <= e <= buf.Length && |out| == d
      invariant buf[..e] == out + Escape(s[..i])
    {
      EscapePrefix(s, i);
      var t := EscapeOne(s[i]);
      ghost var done := buf[..e];
      if e + |t| > buf.Length {
        assert buf[..d] == done[..d] == out;
        return 0;
      }
      forall k | 0 <= k < |t| {
        buf[e + k] := t[k];
      }
      assert buf[..e + |t|] == done + t;
      e := e + |t|;
      i := i + 1;
    }
    assert s[..i] == s;
    n := e - d;
  }

  lemma EscapeNothing(s: string)
    ensures Escape(s[..0]) == ""
  {
  }

  lemma {:induction false} EscapePrefix(s: string, i: nat)
    requires i < |s|
    ensures Escape(s[..i + 1]) == Escape(s[..i]) + EscapeOne(s[i])
    ensures |Escape(s[..i + 1])| <= |Escape(s)|
    decreases |s| - i
  {
    assert s[..i + 1][..i] == s[..i];
    if i + 1 == |s| {
      assert s[..i + 1] == s;
    } else {
      EscapePrefix(s, i + 1);
    }
  }
}
