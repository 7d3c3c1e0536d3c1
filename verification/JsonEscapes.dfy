/**
 * Escape sequences that the JSON reader takes though they are not in order, and exactly when: hex
 * digits, and the two halves of a character that UTF-16 splits.
 */
module JsonEscapes {
  import opened Wrappers
  import opened Digits
  import opened JsonParser
  import opened JsonRoundTrip
  import W = JsonWriter

  // ----- hex digits -----

  predicate IsHexDigit(c: char) {
    IsDigit(c) || 'a' <= c <= 'f' || 'A' <= c <= 'F'
  }

  /** Setting the bit for lower case turns '@' into '`', the character before 'a'. */
  lemma HexTaken(c: char)
    ensures HexValue(c) >= 0 <==> IsHexDigit(c) || c == '@' || c == '`'
  {
  }

  /** An escape of four characters is taken wrongly if and only if one of them is such a character. */
  lemma LongEscapeTaken(h: string)
    requires |h| == 4
    ensures UnescapeChar("u" + h).Code? <==>
      forall i :: 0 <= i < 4 ==> IsHexDigit(h[i]) || h[i] == '@' || h[i] == '`'
    ensures UnescapeChar("u" + h).Code? || UnescapeChar("u" + h).Invalid?
  {
    var s := "u" + h;
    assert s[1] == h[0] && s[2] == h[1] && s[3] == h[2] && s[4] == h[3];
    HexTaken(h[0]);
    HexTaken(h[1]);
    HexTaken(h[2]);
    HexTaken(h[3]);
  }

  lemma AtSignForNine()
    ensures UnescapeChar("u00@0") == Code(0x90, 5)
  {
    var s := "u00@0";
    assert s[0] == 'u' && s[1] == '0' && s[2] == '0' && s[3] == '@' && s[4] == '0';
  }

  // ----- UTF-16 -----

  type Unit = u: nat | u < 0x1_0000

  predicate High(u: Unit) {
    0xD800 <= u < 0xDC00
  }

  predicate Low(u: Unit) {
    0xDC00 <= u < 0xE000
  }

  function Pair(hi: Unit, lo: Unit): string
    requires High(hi) && Low(lo)
  {
    Plain(0x1_0000 + (hi - 0xD800) * 0x400 + (lo - 0xDC00))
  }

  /** What has been gathered, and a high half that waits for its low one. */
  datatype Gathered = Gathered(buf: string, hi: Option<Unit>)

  predicate Pending(g: Gathered) {
    g.hi.Some? ==> High(g.hi.value)
  }

  /** The reader: other units may come between the halves. */
  function Take(g: Gathered, u: Unit): (r: Option<Gathered>)
    requires Pending(g)
    ensures r.Some? ==> Pending(r.value)
  {
    if High(u) then (if g.hi.Some? then None else Some(Gathered(g.buf, Some(u))))
    else if Low(u) then (if g.hi.None? then None else Some(Gathered(g.buf + Pair(g.hi.value, u), None)))
    else Some(Gathered(g.buf + Plain(u), g.hi))
  }

  function TakeAll(g: Gathered, us: seq<Unit>): (r: Option<Gathered>)
    requires Pending(g)
    ensures r.Some? ==> Pending(r.value)
    decreases |us|
  {
    if us == [] then Some(g)
    else if Take(g, us[0]).None? then None
    else TakeAll(Take(g, us[0]).value, us[1..])
  }

  /** UTF-16: a high half with the low half behind it, or any other unit but a low half. */
  predicate Utf16(us: seq<Unit>) {
    us == [] ||
    (if High(us[0]) then |us| > 1 && Low(us[1]) && Utf16(us[2..]) else !Low(us[0]) && Utf16(us[1..]))
  }

  /** A high half is directly followed by a low one. */
  predicate Together(us: seq<Unit>) {
    forall i :: 0 <= i < |us| ==> TogetherAt(us, i)
  }

  predicate TogetherAt(us: seq<Unit>, i: nat)
    requires i < |us|
  {
    High(us[i]) ==> i + 1 < |us| && Low(us[i + 1])
  }

  /** The units may stand in a string. */
  predicate Accepted(us: seq<Unit>) {
    var r := TakeAll(Gathered("", None), us);
    r.Some? && r.value.hi.None?
  }

  /** What UTF-16 allows is accepted; what is accepted is UTF-16 if and only if each high half is
      directly followed by a low one. */
  lemma AcceptedExact(us: seq<Unit>)
    ensures Utf16(us) ==> Accepted(us)
    ensures Accepted(us) ==> (Utf16(us) <==> Together(us))
  {
    TakenExact(Gathered("", None), us);
  }

  lemma {:induction false} TakenExact(g: Gathered, us: seq<Unit>)
    requires g.hi.None?
    ensures Utf16(us) ==> TakeAll(g, us).Some? && TakeAll(g, us).value.hi.None?
    ensures TakeAll(g, us).Some? && TakeAll(g, us).value.hi.None? ==> (Utf16(us) <==> Together(us))
    decreases |us|
  {
    if us == [] {
    } else if High(us[0]) {
      if |us| > 1 && Low(us[1]) {
        var rest := us[2..];
        assert us[1..][0] == us[1] && us[1..][1..] == rest;
        var g1 := Take(g, us[0]).value;
        TakenExact(Take(g1, us[1]).value, rest);
        TogetherRest(us);
        TogetherRest(us[1..]);
        assert TogetherAt(us, 0) && TogetherAt(us[1..], 0);
        assert TakeAll(g, us) == TakeAll(Take(g1, us[1]).value, rest);
      } else {
        assert !TogetherAt(us, 0);
      }
    } else if !Low(us[0]) {
      TakenExact(Take(g, us[0]).value, us[1..]);
      TogetherRest(us);
    }
  }

  lemma TogetherRest(us: seq<Unit>)
    requires us != []
    ensures Together(us) <==> TogetherAt(us, 0) && Together(us[1..])
  {
    var rest := us[1..];
    assert forall i :: 0 <= i < |rest| ==> rest[i] == us[i + 1];
    forall i | 0 <= i < |rest| ensures TogetherAt(rest, i) <==> TogetherAt(us, i + 1) {}
    if TogetherAt(us, 0) && Together(rest) {
      forall i | 0 <= i < |us| ensures TogetherAt(us, i) {
        if i > 0 { assert TogetherAt(rest, i - 1); }
      }
    }
  }

  // ----- the reader -----

  function Hex4(u: Unit): string {
    [W.HexDigit(u / 0x1000), W.HexDigit(u / 0x100 % 16), W.HexDigit(u / 16 % 16), W.HexDigit(u % 16)]
  }

  function Escapes(us: seq<Unit>): string {
    if us == [] then "" else "\\u" + Hex4(us[0]) + Escapes(us[1..])
  }

  /** Inside a string. */
  predicate Inside(m: Machine, next: Mode, ctxs: seq<Kind>, g: Gathered) {
    && Inv(m) && (m.mode == Quote || (m.mode == QuoteFirst && g.buf == "")) && (next == Val || next == Key)
    && m.next == next && m.ctxs == ctxs && m.buf == g.buf
    && m.surrogate == g.hi.Some? && (g.hi.Some? ==> m.hiword == g.hi.value)
  }

  /** A string may end if and only if no high half waits. */
  lemma EndOfString(m: Machine, next: Mode, ctxs: seq<Kind>, g: Gathered)
    requires Inside(m, next, ctxs, g)
    ensures Step(m, '"').ret == Failed(EEsc) <==> g.hi.Some?
    ensures g.hi.None? ==> Step(m, '"').ret == Got(if next == Key then KeyName(g.buf) else Value(TStr, g.buf, 0))
  {
  }

  lemma HexCode(u: Unit)
    ensures |Hex4(u)| == 4 && UnescapeChar("u" + Hex4(u)) == Code(u, 5)
  {
    var a, b, c, d := u / 0x1000, u / 0x100 % 16, u / 16 % 16, u % 16;
    HexOfDigit(a);
    HexOfDigit(b);
    HexOfDigit(c);
    HexOfDigit(d);
    Digits4(u);
    hide HexValue, W.HexDigit;
    FourDigits(W.HexDigit(a), W.HexDigit(b), W.HexDigit(c), W.HexDigit(d));
    assert Hex4(u) == [W.HexDigit(a), W.HexDigit(b), W.HexDigit(c), W.HexDigit(d)];
  }

  lemma Digits4(u: Unit)
    ensures ((u / 0x1000 * 16 + u / 0x100 % 16) * 16 + u / 16 % 16) * 16 + u % 16 == u
  {
  }

  lemma FourDigits(a: char, b: char, c: char, d: char)
    requires HexValue(a) >= 0 && HexValue(b) >= 0 && HexValue(c) >= 0 && HexValue(d) >= 0
    ensures UnescapeChar("u" + [a, b, c, d]) == Code(((HexValue(a) * 16 + HexValue(b)) * 16 + HexValue(c)) * 16 + HexValue(d), 5)
  {
    hide HexValue;
    var s := "u" + [a, b, c, d];
    assert s[0] == 'u' && s[1] == a && s[2] == b && s[3] == c && s[4] == d;
  }

  /** The escape up to its last digit. */
  lemma ReadFirstFive(m: Machine, next: Mode, ctxs: seq<Kind>, g: Gathered, h: string) returns (m2: Machine)
    requires Inside(m, next, ctxs, g) && |h| == 4
    ensures Reads(m, "\\u" + h[..3], [], m2) && m2 == m.(mode := QuoteEsc, esc := "u" + h[..3])
  {
    var m1 := m.(mode := QuoteEsc, esc := "");
    ReadChar(m, '\\', m1, More);
    hide Inv, Run;
    assert "" + ['u'] == "u" && "u" + [h[0]] + [h[1]] + [h[2]] == "u" + h[..3];
    var m3 := ReadEscChar(m1, "", 'u');
    var m4 := ReadEscChar(m3, "u", h[0]);
    var m5 := ReadEscChar(m4, "u" + [h[0]], h[1]);
    m2 := ReadEscChar(m5, "u" + [h[0]] + [h[1]], h[2]);
    ReadBoth(m, "\\", [], m1, "u", [], m3);
    ReadBoth(m, "\\" + "u", [], m3, [h[0]], [], m4);
    ReadBoth(m, "\\" + "u" + [h[0]], [], m4, [h[1]], [], m5);
    ReadBoth(m, "\\" + "u" + [h[0]] + [h[1]], [], m5, [h[2]], [], m2);
    assert "\\" + "u" + [h[0]] + [h[1]] + [h[2]] == "\\u" + h[..3];
  }

  /** One unit, escaped. */
  lemma ReadUnit(m: Machine, next: Mode, ctxs: seq<Kind>, g: Gathered, u: Unit, rest: string) returns (m2: Machine)
    requires Inside(m, next, ctxs, g) && Pending(g)
    ensures Take(g, u).Some? ==> Reads(m, "\\u" + Hex4(u), [], m2) && Inside(m2, next, ctxs, Take(g, u).value)
    ensures Take(g, u).None? ==> Run(m, "\\u" + Hex4(u) + rest).error == Some(EEsc)
  {
    HexCode(u);
    hide Run, Inv, Step, Hex4, Inside, Take, UnescapeChar;
    var h := Hex4(u);
    SplitText(h, rest);
    var m1 := ReadFirstFive(m, next, ctxs, g, h);
    m2 := LastDigit(m1, m, next, ctxs, g, u);
    if Take(g, u).Some? {
      ReadBoth(m, "\\u" + h[..3], [], m1, [h[3]], [], m2);
    } else {
      RunStep(m1, [h[3]] + rest);
      RunAppend(m, "\\u" + h[..3], [h[3]] + rest);
      assert Appends(m, "\\u" + h[..3], [h[3]] + rest);
    }
  }

  lemma SplitText(h: string, rest: string)
    requires |h| == 4
    ensures "\\u" + h[..3] + [h[3]] == "\\u" + h && "u" + h[..3] + [h[3]] == "u" + h
    ensures ("\\u" + h[..3]) + ([h[3]] + rest) == "\\u" + h + rest
    ensures ([h[3]] + rest)[0] == h[3]
  {
  }

  lemma LastDigit(m1: Machine, m: Machine, next: Mode, ctxs: seq<Kind>, g: Gathered, u: Unit) returns (m2: Machine)
    requires Inside(m, next, ctxs, g) && Pending(g) && Inv(m1)
    requires |Hex4(u)| == 4 && m1 == m.(mode := QuoteEsc, esc := "u" + Hex4(u)[..3])
    requires UnescapeChar("u" + Hex4(u)) == Code(u, 5) && "u" + Hex4(u)[..3] + [Hex4(u)[3]] == "u" + Hex4(u)
    ensures Take(g, u).Some? ==> Reads(m1, [Hex4(u)[3]], [], m2) && Inside(m2, next, ctxs, Take(g, u).value)
    ensures Take(g, u).None? ==> Step(m1, Hex4(u)[3]).ret == Failed(EEsc)
  {
    var c := Hex4(u)[3];
    m2 := Step(m1, c).m;
    CompleteEscape(m1, c, u);
    Completed(m1.(esc := m1.esc + [c]), next, ctxs, g, u);
    hide Hex4, Step, UnescapeChar, UnitTurn, Inv, Take;
    if Take(g, u).Some? {
      ReadChar(m1, c, m2, More);
    }
  }

  /** What a unit does to the reader. */
  function UnitTurn(m: Machine, u: Unit): Turn {
    if High(u) then
      if m.surrogate then Turn(m, Failed(EEsc), true)
      else Turn(m.(surrogate := true, hiword := u, mode := Quote), More, false)
    else if Low(u) then
      if !m.surrogate then Turn(m, Failed(EEsc), true)
      else Turn(m.(surrogate := false, hiword := 0, buf := m.buf + Plain(0x1_0000 + (m.hiword - 0xD800) * 0x400 + (u - 0xDC00)),
        mode := Quote), More, false)
    else Turn(m.(buf := m.buf + Plain(u), mode := Quote), More, false)
  }

  lemma CompleteEscape(m: Machine, c: char, u: Unit)
    requires m.mode == QuoteEsc && |m.esc| == 4 && UnescapeChar(m.esc + [c]) == Code(u, 5)
    ensures Step(m, c) == UnitTurn(m.(esc := m.esc + [c]), u)
  {
    hide UnescapeChar, Plain;
  }

  lemma Completed(m: Machine, next: Mode, ctxs: seq<Kind>, g: Gathered, u: Unit)
    requires Pending(g) && m.mode == QuoteEsc && (next == Val || next == Key) && m.next == next && m.ctxs == ctxs && m.buf == g.buf
    requires m.surrogate == g.hi.Some? && (g.hi.Some? ==> m.hiword == g.hi.value)
    ensures
      var t := UnitTurn(m, u);
      if Take(g, u).Some? then t == Turn(t.m, More, false) && Inside(t.m, next, ctxs, Take(g, u).value)
      else t.ret == Failed(EEsc)
  {
    hide Plain;
  }

  /** A string of escaped units is gathered as above, or is an error. */
  lemma {:induction false} ReadUnits(m: Machine, next: Mode, ctxs: seq<Kind>, g: Gathered, us: seq<Unit>) returns (m2: Machine)
    requires Inside(m, next, ctxs, g) && Pending(g)
    ensures TakeAll(g, us).Some? ==> Reads(m, Escapes(us), [], m2) && Inside(m2, next, ctxs, TakeAll(g, us).value)
    ensures TakeAll(g, us).None? ==> Run(m, Escapes(us)).error == Some(EEsc)
    decreases |us|
  {
    hide Run, Inv, Step;
    m2 := m;
    if us == [] {
      ReadNothing(m);
    } else {
      var m1 := ReadUnit(m, next, ctxs, g, us[0], Escapes(us[1..]));
      if Take(g, us[0]).Some? {
        m2 := ReadUnits(m1, next, ctxs, Take(g, us[0]).value, us[1..]);
        var a, b := "\\u" + Hex4(us[0]), Escapes(us[1..]);
        if TakeAll(g, us).Some? {
          ReadBoth(m, a, [], m1, b, [], m2);
        } else {
          RunAppend(m, a, b);
          assert Appends(m, a, b);
        }
      }
    }
  }

  /** A whole string of escaped units is read as one value if and only if it is accepted. */
  lemma ReadString16(m: Machine, next: Mode, ctxs: seq<Kind>, us: seq<Unit>) returns (m2: Machine)
    requires Waits(m, next, ctxs, "") && (next == Val || next == ValFirst)
    ensures Accepted(us) ==>
      Reads(m, "\"" + Escapes(us) + "\"", [Value(TStr, TakeAll(Gathered("", None), us).value.buf, 0)], m2)
    ensures !Accepted(us) ==> Run(m, "\"" + Escapes(us) + "\"").error == Some(EEsc)
  {
    hide Run, Step, Inv, Escapes;
    var g, t := Gathered("", None), "\"" + Escapes(us);
    var m1 := ReadOpenQuote(m, next, ctxs);
    ReadsInside(m, "\"", m1, ctxs);
    var m3 := ReadUnits(m1, Val, ctxs, g, us);
    m2 := Step(m3, '"').m;
    if TakeAll(g, us).Some? {
      ReadBoth(m, "\"", [], m1, Escapes(us), [], m3);
      CloseString(m, t, m3, m2, ctxs, TakeAll(g, us).value);
    } else {
      RunAppend(m, "\"", Escapes(us));
      assert Appends(m, "\"", Escapes(us));
      RunAppend(m, t, "\"");
      assert Appends(m, t, "\"");
    }
  }

  lemma ReadsInside(m: Machine, s: string, m1: Machine, ctxs: seq<Kind>)
    requires Reads(m, s, [], m1) && Quoting(m1, Val, ctxs, "")
    ensures Inside(m1, Val, ctxs, Gathered("", None))
  {
  }

  lemma CloseString(m: Machine, t: string, m3: Machine, m2: Machine, ctxs: seq<Kind>, g: Gathered)
    requires Reads(m, t, [], m3) && Inside(m3, Val, ctxs, g) && m2 == Step(m3, '"').m
    ensures g.hi.None? ==> Reads(m, t + "\"", [Value(TStr, g.buf, 0)], m2)
    ensures g.hi.Some? ==> Run(m, t + "\"").error == Some(EEsc)
  {
    EndOfString(m3, Val, ctxs, g);
    if g.hi.None? { CloseTurn(m3, ctxs, g); }
    hide Run, Step, Inv, Inside;
    if g.hi.None? {
      ReadChar(m3, '"', m2, Got(Value(TStr, g.buf, 0)));
      ReadBoth(m, t, [], m3, "\"", [Value(TStr, g.buf, 0)], m2);
    } else {
      RunStep(m3, "\"");
      RunAppend(m, t, "\"");
      assert Appends(m, t, "\"");
    }
  }

  lemma CloseTurn(m: Machine, ctxs: seq<Kind>, g: Gathered)
    requires Inside(m, Val, ctxs, g) && g.hi.None?
    ensures Step(m, '"') == Turn(Step(m, '"').m, Got(Value(TStr, g.buf, 0)), false)
  {
  }

  /** The halves of a character with a line feed between them. */
  lemma HalvesApart()
    ensures TakeAll(Gathered("", None), [0xD800, 0x0A, 0xDC00]) == Some(Gathered("\n" + Pair(0xD800, 0xDC00), None))
    ensures !Utf16([0xD800, 0x0A, 0xDC00])
    ensures Escapes([0xD800, 0x0A, 0xDC00]) == "\\uD800\\u000A\\uDC00"
  {
    var us := [0xD800, 0x0A, 0xDC00];
    assert us[1..] == [0x0A, 0xDC00] && us[1..][1..] == [0xDC00] && us[1..][1..][1..] == [];
    assert us[0] == 0xD800 && us[1] == 0x0A;
    LineFeed();
    hide Plain, Hex4;
    var g1, g2 := Gathered("", Some(0xD800)), Gathered("\n", Some(0xD800));
    assert Take(Gathered("", None), 0xD800) == Some(g1) && Take(g1, 0x0A) == Some(g2);
    assert TakeAll(g2, [0xDC00]) == Some(Gathered("\n" + Pair(0xD800, 0xDC00), None));
    assert TakeAll(g1, us[1..]) == TakeAll(g2, [0xDC00]);
    EscapesApart();
  }

  lemma LineFeed()
    ensures Plain(0x0A) == "\n" && "" + Plain(0x0A) == "\n"
  {
  }

  lemma EscapesApart()
    ensures Escapes([0xD800, 0x0A, 0xDC00]) == "\\uD800\\u000A\\uDC00"
  {
    assert Hex4(0xD800) == "D800" && Hex4(0x0A) == "000A" && Hex4(0xDC00) == "DC00";
    hide Hex4;
    var us := [0xD800, 0x0A, 0xDC00];
    assert us[1..] == [0x0A, 0xDC00] && [0x0A, 0xDC00][1..] == [0xDC00];
    assert Escapes([0xDC00]) == "\\u" + Hex4(0xDC00) + Escapes([]);
    assert Escapes([0x0A, 0xDC00]) == "\\u" + Hex4(0x0A) + Escapes([0xDC00]);
  }
}
