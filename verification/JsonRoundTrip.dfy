/**
 * The JSON reader undoes the JSON writer: every well-formed sequence of calls yields a text that
 * reads back as the same sequence of events.
 */
module JsonRoundTrip {
  import opened Wrappers
  import opened Digits
  import opened JsonParser
  import W = JsonWriter

  /** Reading 's' from 'm' gives these events, no error, and leads to 'm2'. */
  predicate Reads(m: Machine, s: string, es: seq<Event>, m2: Machine) {
    Inv(m) && Inv(m2) && Run(m, s) == Outcome(m2, es, None)
  }

  lemma ReadNothing(m: Machine)
    requires Inv(m)
    ensures Reads(m, "", [], m)
  {
  }

  lemma ReadBoth(m: Machine, a: string, e: seq<Event>, m1: Machine, b: string, f: seq<Event>, m2: Machine)
    requires Reads(m, a, e, m1) && Reads(m1, b, f, m2)
    ensures Reads(m, a + b, e + f, m2)
  {
    hide Run, Inv;
    RunAppend(m, a, b);
    assert Appends(m, a, b);
  }

  function Events(ret: Ret): seq<Event> {
    if ret.Got? then [ret.event] else []
  }

  lemma ReadChar(m: Machine, c: char, m2: Machine, ret: Ret)
    requires Inv(m) && Step(m, c) == Turn(m2, ret, false) && !ret.Failed?
    ensures Reads(m, [c], Events(ret), m2)
  {
    RunStep(m, [c]);
    hide Step, Inv;
    assert Rest(Turn(m2, ret, false), [c]) == "";
  }

  /** A turn that does not use the character up. */
  lemma ReadAgain(m: Machine, s: string, m1: Machine, ret: Ret, es: seq<Event>, m2: Machine)
    requires Inv(m) && s != "" && Step(m, s[0]) == Turn(m1, ret, true) && !ret.Failed? && Reads(m1, s, es, m2)
    ensures Reads(m, s, Events(ret) + es, m2)
  {
    RunStep(m, s);
    hide Step, Inv, Run;
  }

  lemma {:induction false} ReadSpaces(m: Machine, s: string)
    requires Inv(m) && m.mode == Space && forall i :: 0 <= i < |s| ==> IsSpace(s[i])
    ensures Reads(m, s, [], m)
  {
    if s == "" {
      ReadNothing(m);
    } else {
      hide Inv, Run;
      ReadSpaces(m, s[1..]);
      ReadChar(m, s[0], m, More);
      ReadBoth(m, [s[0]], [], m, s[1..], [], m);
      assert [s[0]] + s[1..] == s;
    }
  }

  // ----- strings -----

  predicate Quoting(m: Machine, next: Mode, ctxs: seq<Kind>, buf: string) {
    && (m.mode == Quote || (m.mode == QuoteFirst && buf == "")) && (next == Val || next == Key)
    && m.next == next && m.ctxs == ctxs && m.buf == buf && !m.surrogate
  }

  lemma ReadPlainChar(m: Machine, next: Mode, ctxs: seq<Kind>, buf: string, c: char) returns (m2: Machine)
    requires Quoting(m, next, ctxs, buf) && c != '\\' && c != '"' && c != '\n'
    ensures Reads(m, [c], [], m2) && Quoting(m2, next, ctxs, buf + [c])
  {
    m2 := m.(mode := Quote, buf := m.buf + [c]);
    ReadChar(m, c, m2, More);
  }

  lemma ReadBackslash(m: Machine, next: Mode, ctxs: seq<Kind>, buf: string) returns (m2: Machine)
    requires Quoting(m, next, ctxs, buf)
    ensures Reads(m, "\\", [], m2) && m2 == m.(mode := QuoteEsc, esc := "")
  {
    m2 := m.(mode := QuoteEsc, esc := "");
    ReadChar(m, '\\', m2, More);
  }

  lemma ReadShortEscape(m: Machine, next: Mode, ctxs: seq<Kind>, buf: string, letter: char) returns (m2: Machine)
    requires Quoting(m, next, ctxs, buf) && Unescaped(letter).Some? && Unescaped(letter).value < '\U{80}'
    ensures Reads(m, ['\\', letter], [], m2) && Quoting(m2, next, ctxs, buf + [Unescaped(letter).value])
  {
    var m1 := ReadBackslash(m, next, ctxs, buf);
    var c := Unescaped(letter).value;
    assert [letter][0] == letter && "" + [letter] == [letter];
    m2 := m1.(esc := [letter], buf := buf + [c], mode := Quote);
    assert Utf8(c as int) == [c];
    ReadChar(m1, letter, m2, More);
    ReadBoth(m, "\\", [], m1, [letter], [], m2);
    assert "\\" + [letter] == ['\\', letter];
  }

  /** One more character of an escape sequence. */
  lemma ReadEscChar(m: Machine, esc: string, c: char) returns (m2: Machine)
    requires Inv(m) && m.mode == QuoteEsc && m.esc == esc && |esc| < 5 && UnescapeChar(esc + [c]) == Incomplete
    ensures Reads(m, [c], [], m2) && m2 == m.(esc := esc + [c])
  {
    m2 := m.(esc := esc + [c]);
    ReadChar(m, c, m2, More);
  }

  lemma HexOfDigit(n: nat)
    requires n < 16
    ensures HexValue(W.HexDigit(n)) == n
  {
  }

  lemma ReadHexStart(m: Machine, hi: char) returns (m2: Machine)
    requires Inv(m) && m.mode == QuoteEsc && m.esc == ""
    ensures Reads(m, "u00" + [hi], [], m2) && m2 == m.(esc := "u00" + [hi])
  {
    hide Inv, Run;
    assert "" + ['u'] == "u" && "u" + ['0'] == "u0" && "u0" + ['0'] == "u00";
    var m3 := ReadEscChar(m, "", 'u');
    var m4 := ReadEscChar(m3, "u", '0');
    var m5 := ReadEscChar(m4, "u0", '0');
    m2 := ReadEscChar(m5, "u00", hi);
    ReadBoth(m, "u", [], m3, "0", [], m4);
    ReadBoth(m, "u0", [], m4, "0", [], m5);
    ReadBoth(m, "u00", [], m5, [hi], [], m2);
  }

  lemma ReadLongEscape(m: Machine, next: Mode, ctxs: seq<Kind>, buf: string, c: char) returns (m2: Machine)
    requires Quoting(m, next, ctxs, buf) && c < '\U{80}'
    ensures Reads(m, "\\u00" + [W.HexDigit(c as int / 16), W.HexDigit(c as int % 16)], [], m2)
    ensures Quoting(m2, next, ctxs, buf + [c])
  {
    var hi, lo := W.HexDigit(c as int / 16), W.HexDigit(c as int % 16);
    HexOfDigit(c as int / 16);
    HexOfDigit(c as int % 16);
    hide W.HexDigit, Inv, Run, HexValue;
    var m1 := ReadBackslash(m, next, ctxs, buf);
    var m6 := ReadHexStart(m1, hi);
    m2 := ReadLastHex(m6, buf, hi, lo, c);
    ReadBoth(m, "\\", [], m1, "u00" + [hi], [], m6);
    ReadBoth(m, "\\" + ("u00" + [hi]), [], m6, [lo], [], m2);
    assert "\\" + ("u00" + [hi]) + [lo] == "\\u00" + [hi, lo];
  }

  lemma ReadLastHex(m: Machine, buf: string, hi: char, lo: char, c: char) returns (m2: Machine)
    requires Inv(m) && m.mode == QuoteEsc && m.esc == "u00" + [hi] && m.buf == buf && !m.surrogate
    requires c < '\U{80}' && HexValue(hi) == c as int / 16 && HexValue(lo) == c as int % 16
    ensures Reads(m, [lo], [], m2) && m2 == m.(esc := "u00" + [hi, lo], buf := buf + [c], mode := Quote)
  {
    var esc := "u00" + [hi, lo];
    assert "u00" + [hi] + [lo] == esc;
    assert HexValue('0') == 0 && esc[0] == 'u' && esc[1] == '0' && esc[2] == '0' && esc[3] == hi && esc[4] == lo;
    assert UnescapeChar(esc) == Code(c as int, 5);
    assert Utf8(c as int) == [c];
    m2 := m.(esc := esc, buf := buf + [c], mode := Quote);
    ReadChar(m, lo, m2, More);
  }

  /** An escaped string is gathered as it was before it was escaped. */
  lemma {:induction false} ReadEscaped(m: Machine, next: Mode, ctxs: seq<Kind>, s: string) returns (m2: Machine)
    requires Quoting(m, next, ctxs, "")
    ensures Reads(m, W.Escape(s), [], m2) && Quoting(m2, next, ctxs, s)
  {
    if s == "" {
      ReadNothing(m);
      m2 := m;
    } else {
      var n := |s| - 1;
      var c := s[n];
      var m1 := ReadEscaped(m, next, ctxs, s[..n]);
      m2 := ReadEscapedOne(m1, next, ctxs, s[..n], c);
      hide Run, Inv, Quoting;
      ReadBoth(m, W.Escape(s[..n]), [], m1, W.EscapeOne(c), [], m2);
      assert s == s[..n] + [c];
    }
  }

  lemma ReadEscapedOne(m: Machine, next: Mode, ctxs: seq<Kind>, buf: string, c: char) returns (m2: Machine)
    requires Quoting(m, next, ctxs, buf)
    ensures Reads(m, W.EscapeOne(c), [], m2) && Quoting(m2, next, ctxs, buf + [c])
  {
    if W.EscapeLetter(c).Some? {
      m2 := ReadShortEscape(m, next, ctxs, buf, W.EscapeLetter(c).value);
    } else if c < ' ' || c == DELETE {
      m2 := ReadLongEscape(m, next, ctxs, buf, c);
    } else {
      m2 := ReadPlainChar(m, next, ctxs, buf, c);
    }
  }

  // ----- items -----

  /** The reader is past everything that was written, and waits for 'next'. */
  predicate Waits(m: Machine, next: Mode, ctxs: seq<Kind>, buf: string) {
    Inv(m) && m.mode == Space && m.next == next && m.ctxs == ctxs && m.buf == buf && !m.surrogate
  }

  /** The quote that begins a value or a key. */
  lemma ReadOpenQuote(m: Machine, next: Mode, ctxs: seq<Kind>) returns (m2: Machine)
    requires Waits(m, next, ctxs, "") && (next == Val || next == ValFirst || next == Key || next == KeyFirst)
    ensures Reads(m, "\"", [], m2)
    ensures Quoting(m2, if next == Key || next == KeyFirst then Key else Val, ctxs, "")
  {
    var m1 := m.(mode := next, next := Nowhere);
    m2 := m1.(mode := QuoteFirst, next := if next == Key || next == KeyFirst then Key else Val);
    ReadChar(m1, '"', m2, More);
    ReadAgain(m, "\"", m1, More, [], m2);
  }

  /** The quote that ends it. */
  lemma ReadCloseQuote(m: Machine, next: Mode, ctxs: seq<Kind>, s: string) returns (m2: Machine)
    requires Quoting(m, next, ctxs, s)
    ensures Reads(m, "\"", [if next == Key then KeyName(s) else Value(TStr, s, 0)], m2)
    ensures Waits(m2, if next == Key then AfterKey else AfterVal, ctxs, s)
  {
    var e := if next == Key then KeyName(s) else Value(TStr, s, 0);
    m2 := m.(kind := TStr, mode := Space, next := if next == Key then AfterKey else AfterVal);
    ReadChar(m, '"', m2, Got(e));
  }

  lemma ReadString(m: Machine, next: Mode, ctxs: seq<Kind>, s: string) returns (m2: Machine)
    requires Waits(m, next, ctxs, "") && (next == Val || next == ValFirst || next == Key || next == KeyFirst)
    ensures
      var isKey := next == Key || next == KeyFirst;
      && Reads(m, "\"" + W.Escape(s) + "\"", [if isKey then KeyName(s) else Value(TStr, s, 0)], m2)
      && Waits(m2, if isKey then AfterKey else AfterVal, ctxs, s)
  {
    hide Run, Step, W.Escape, Inv, Quoting;
    var isKey := next == Key || next == KeyFirst;
    var e := if isKey then KeyName(s) else Value(TStr, s, 0);
    var m1 := ReadOpenQuote(m, next, ctxs);
    var m3 := ReadEscaped(m1, if isKey then Key else Val, ctxs, s);
    m2 := ReadCloseQuote(m3, if isKey then Key else Val, ctxs, s);
    ReadBoth(m, "\"", [], m1, W.Escape(s), [], m3);
    ReadBoth(m, "\"" + W.Escape(s), [], m3, "\"", [e], m2);
  }

  /** The characters of an integer, up to what ends it. */
  lemma {:induction false} ReadDigits(m: Machine, t: string) returns (m2: Machine)
    requires Inv(m) && m.mode == Num && forall i :: 0 <= i < |t| ==> IsNumberChar(t[i])
    ensures Reads(m, t, [], m2) && m2 == m.(buf := m.buf + t)
  {
    m2 := m.(buf := m.buf + t);
    if t == "" {
      assert m.buf + t == m.buf;
      ReadNothing(m);
    } else {
      var n := |t| - 1;
      var m1 := ReadDigits(m, t[..n]);
      assert t == t[..n] + [t[n]] && m1.buf + [t[n]] == m.buf + t;
      ReadChar(m1, t[n], m2, More);
      hide Run, Inv;
      ReadBoth(m, t[..n], [], m1, [t[n]], [], m2);
    }
  }

  lemma TextIsNumber(i: int)
    ensures forall k :: 0 <= k < |Text(i)| ==> IsNumberChar(Text(i)[k])
    ensures Text(i) != "" && WordOf(Text(i)[0]) < 0
  {
  }

  lemma ReadInteger(m: Machine, next: Mode, ctxs: seq<Kind>, i: int) returns (m2: Machine)
    requires Waits(m, next, ctxs, "") && (next == Val || next == ValFirst)
    ensures Reads(m, Text(i), [], m2)
    ensures m2.mode == Num && m2.buf == Text(i) && m2.ctxs == ctxs && !m2.surrogate
  {
    var t := Text(i);
    TextIsNumber(i);
    var m1 := m.(mode := next, next := Nowhere);
    var m3 := m1.(mode := Num, word := -1);
    m2 := ReadDigits(m3, t);
    assert "" + t == t;
    assert IsNumberChar(t[0]) && Step(m1, t[0]) == Turn(m3, More, true);
    ReadAgain(m1, t, m3, More, [], m2);
    ReadAgain(m, t, m1, More, [], m2);
  }

  /** The letters of a bare word but the last. */
  lemma {:induction false} ReadLetters(m: Machine, w: string, k: nat) returns (m2: Machine)
    requires Inv(m) && m.mode == Bare && 0 <= m.word < 3 && w == WORDS[m.word] && m.buf == "" && k < |w|
    ensures Reads(m, w[..k], [], m2) && m2 == m.(buf := w[..k])
  {
    m2 := m.(buf := w[..k]);
    if k == 0 {
      ReadNothing(m);
    } else {
      var m1 := ReadLetters(m, w, k - 1);
      assert w[..k] == w[..k - 1] + [w[k - 1]];
      ReadChar(m1, w[k - 1], m2, More);
      hide Run, Inv;
      ReadBoth(m, w[..k - 1], [], m1, [w[k - 1]], [], m2);
    }
  }

  lemma ReadWordHere(m: Machine, ctxs: seq<Kind>, word: nat) returns (m2: Machine)
    requires Inv(m) && m.mode == Bare && m.word == word < 3 && m.buf == "" && m.ctxs == ctxs && !m.surrogate
    ensures
      var kind := if word == 2 then TNull else TBool;
      && Reads(m, WORDS[word], [Value(kind, WORDS[word], if word == 0 then 1 else 0)], m2)
      && Waits(m2, AfterVal, ctxs, WORDS[word])
  {
    var w, kind, number := WORDS[word], if word == 2 then TNull else TBool, if word == 0 then 1 else 0;
    var n := |w| - 1;
    var m1 := ReadLetters(m, w, n);
    assert w[..n] + [w[n]] == w;
    m2 := m1.(buf := w, kind := kind, intval := number, mode := Space, next := AfterVal);
    var e := Value(kind, w, number);
    assert Step(m1, w[n]) == Turn(m2, Got(e), false);
    ReadChar(m1, w[n], m2, Got(e));
    hide Run, Step;
    ReadBoth(m, w[..n], [], m1, [w[n]], [e], m2);
  }

  lemma WordBegins(m: Machine, next: Mode, word: nat)
    requires Inv(m) && m.mode == Space && m.next == next && (next == Val || next == ValFirst) && word < 3
    ensures
      var m1 := m.(mode := next, next := Nowhere);
      var m3 := m1.(mode := Bare, word := word);
      && Inv(m1) && (m.buf == "" ==> Inv(m3))
      && Step(m, WORDS[word][0]) == Turn(m1, More, true) && Step(m1, WORDS[word][0]) == Turn(m3, More, true)
  {
  }

  lemma ReadWord(m: Machine, next: Mode, ctxs: seq<Kind>, word: nat) returns (m2: Machine)
    requires Waits(m, next, ctxs, "") && (next == Val || next == ValFirst) && word < 3
    ensures
      var kind := if word == 2 then TNull else TBool;
      && Reads(m, WORDS[word], [Value(kind, WORDS[word], if word == 0 then 1 else 0)], m2)
      && Waits(m2, AfterVal, ctxs, WORDS[word])
  {
    var w, e := WORDS[word], Value(if word == 2 then TNull else TBool, WORDS[word], if word == 0 then 1 else 0);
    var m1 := m.(mode := next, next := Nowhere);
    var m3 := m1.(mode := Bare, word := word);
    WordBegins(m, next, word);
    hide Step, Run;
    m2 := ReadWordHere(m3, ctxs, word);
    ReadAgain(m1, w, m3, More, [e], m2);
    ReadAgain(m, w, m1, More, [e], m2);
  }

  lemma ReadOpen(m: Machine, next: Mode, ctxs: seq<Kind>, kind: Kind) returns (m2: Machine)
    requires Waits(m, next, ctxs, "") && (next == Val || next == ValFirst) && W.IsContext(kind)
    ensures Reads(m, if kind == TArr then "[" else "{", [Open(kind)], m2)
    ensures m2.mode == NewCtx && m2.kind == kind && m2.ctxs == ctxs && m2.buf == "" && !m2.surrogate
    ensures m2.next == if kind == TArr then ValFirst else KeyFirst
  {
    var c := if kind == TArr then '[' else '{';
    var m1 := m.(mode := next, next := Nowhere);
    m2 := m1.(mode := NewCtx, kind := kind, next := if kind == TArr then ValFirst else KeyFirst);
    ReadChar(m1, c, m2, Got(Open(kind)));
    ReadAgain(m, [c], m1, More, [Open(kind)], m2);
  }

  lemma ReadClose(m: Machine, next: Mode, ctxs: seq<Kind>, buf: string, kind: Kind) returns (m2: Machine)
    requires Waits(m, next, ctxs, buf) && W.IsContext(kind) && ctxs != [] && ctxs[|ctxs| - 1] == kind
    requires next == AfterVal || next == (if kind == TArr then ValFirst else KeyFirst)
    ensures Reads(m, if kind == TArr then "]" else "}", [Close(kind)], m2)
    ensures m2.mode == RmCtx && m2.ctxs == ctxs && !m2.surrogate
  {
    var c := if kind == TArr then ']' else '}';
    var m1 := m.(mode := next, next := Nowhere);
    if next == AfterVal {
      m2 := m1.(buf := "", intval := 0, mode := RmCtx, kind := kind);
      ReadChar(m1, c, m2, Got(Close(kind)));
    } else {
      var m3 := m1.(mode := CloseBrace);
      m2 := m3.(mode := RmCtx, kind := kind);
      ReadChar(m3, c, m2, Got(Close(kind)));
      ReadAgain(m1, [c], m3, More, [Close(kind)], m2);
    }
    ReadAgain(m, [c], m1, More, [Close(kind)], m2);
  }

  lemma ReadComma(m: Machine, ctxs: seq<Kind>, buf: string) returns (m2: Machine)
    requires Waits(m, AfterVal, ctxs, buf) && ctxs != []
    ensures Reads(m, ",", [], m2) && Waits(m2, if ctxs[|ctxs| - 1] == TArr then Val else Key, ctxs, "")
  {
    var m1 := m.(mode := AfterVal, next := Nowhere);
    m2 := m1.(buf := "", intval := 0, mode := Space, next := if ctxs[|ctxs| - 1] == TArr then Val else Key);
    ReadChar(m1, ',', m2, More);
    ReadAgain(m, ",", m1, More, [], m2);
  }

  lemma ReadColon(m: Machine, ctxs: seq<Kind>, buf: string) returns (m2: Machine)
    requires Waits(m, AfterKey, ctxs, buf)
    ensures Reads(m, ":", [], m2) && Waits(m2, Val, ctxs, "")
  {
    var m1 := m.(mode := AfterKey, next := Nowhere);
    m2 := m1.(buf := "", intval := 0, mode := Space, next := Val);
    ReadChar(m1, ':', m2, More);
    ReadAgain(m, ":", m1, More, [], m2);
  }

  // ----- one call -----

  /** What a call means. */
  function Meaning(c: W.Cook, item: W.Item): Event {
    match item
    case Str(s) => if c.key then KeyName(s) else Value(TStr, s, 0)
    case Int(i) => Value(TInt, Text(i), i)
    case Bool(b) => Value(TBool, if b then "true" else "false", if b then 1 else 0)
    case Null => Value(TNull, "null", 0)
    case OpenCtx(k) => Open(k)
    case CloseCtx(k) => Close(k)
  }

  /** A call that may come next in a document whose root is an object or an array. */
  predicate Legal(c: W.Cook, item: W.Item) {
    && W.GoodItem(item) && W.CanAdd(c, item) && (item.Int? ==> item.i > -TWO63)
    && (if c.val then !item.CloseCtx?
        else if c.key then item.Str? || item.CloseCtx?
        else if c.ctxs == [] then !c.comma && item.OpenCtx?
        else true)
  }

  /** How the flags of the writer hang together. */
  predicate InOrder(c: W.Cook) {
    && (c.key <==> !c.val && W.InObject(c.ctxs))
    && (c.val ==> W.InObject(c.ctxs) && !c.comma)
    && (forall i :: 0 <= i < |c.ctxs| ==> W.IsContext(c.ctxs[i]))
  }

  /** What the reader waits for when the writer has these flags. */
  function Awaited(c: W.Cook): Mode {
    if c.val then Val
    else if c.comma then AfterVal
    else if c.ctxs == [] then Val
    else if c.key then KeyFirst
    else ValFirst
  }

  predicate InStep(c: W.Cook, m: Machine) {
    Waits(m, Awaited(c), c.ctxs, m.buf) && (!c.comma ==> m.buf == "")
  }

  /** The events of a number that has not ended yet come with the next character. */
  function Settle(m: Machine): (Machine, seq<Event>) {
    match m.mode
    case NewCtx => (m.(ctxs := m.ctxs + [m.kind], mode := Space), [])
    case RmCtx => (m.(ctxs := if m.ctxs == [] then [] else m.ctxs[..|m.ctxs| - 1], mode := Space, next := AfterVal), [])
    case Num =>
      (m.(kind := TInt, intval := NumberOf(m.buf), mode := Space, next := AfterVal), [Value(TInt, m.buf, NumberOf(m.buf))])
    case _ => (m, [])
  }

  function NumberOf(s: string): int {
    if ReadInt(s).Some? then ReadInt(s).value.1 else 0
  }

  /** A number that has been written, if one has not ended. */
  predicate Settles(m: Machine) {
    && Inv(m) && (m.mode == Num || m.mode == NewCtx || m.mode == RmCtx || m.mode == Space)
    && (m.mode == Num ==> m.buf != "" && ReadInt(m.buf).Some? && ReadInt(m.buf).value.0 == |m.buf|)
  }

  /** The rest of the text is read as from the settled machine. */
  lemma ReadSettled(m: Machine, s: string, es: seq<Event>, m2: Machine)
    requires Settles(m) && s != "" && (m.mode == Num ==> !IsNumberChar(s[0]))
    requires Inv(Settle(m).0) && Reads(Settle(m).0, s, es, m2)
    ensures Reads(m, s, Settle(m).1 + es, m2)
  {
    if m.mode == Space {
      assert [] + es == es;
    } else {
      var ret := if m.mode == Num then Got(Settle(m).1[0]) else More;
      assert Step(m, s[0]) == Turn(Settle(m).0, ret, true);
      ReadAgain(m, s, Settle(m).0, ret, es, m2);
    }
  }

  /** What the reader waits for once it has read what comes before an entity. */
  function AfterLead(c: W.Cook, item: W.Item): Mode {
    if c.comma && !item.CloseCtx? then (if c.ctxs != [] && c.ctxs[|c.ctxs| - 1] == TArr then Val else Key) else Awaited(c)
  }

  lemma IndentIsSpace(style: W.Style, n: nat)
    ensures forall i :: 0 <= i < |W.Indent(style, n)| ==> IsSpace(W.Indent(style, n)[i])
  {
  }

  lemma ReadLead(c: W.Cook, style: W.Style, item: W.Item, m: Machine) returns (m2: Machine)
    requires InOrder(c) && Legal(c, item) && InStep(c, m)
    ensures Reads(m, W.Lead(c, style, item), [], m2)
    ensures Waits(m2, AfterLead(c, item), c.ctxs, if c.comma && !item.CloseCtx? then "" else m.buf)
  {
    hide Run, Inv, W.Indent;
    var comma := if c.comma && !item.CloseCtx? then "," else "";
    var depth := |c.ctxs| - (if item.CloseCtx? then 1 else 0);
    var white := if style == W.Compact || c.val then "" else (if c.lf then "\n" else "") + W.Indent(style, depth);
    if comma == "," {
      m2 := ReadComma(m, c.ctxs, m.buf);
    } else {
      m2 := m;
      ReadNothing(m);
    }
    IndentIsSpace(style, depth);
    ReadSpaces(m2, white);
    ReadBoth(m, comma, [], m2, white, [], m2);
  }

  /** The text of an entity itself. */
  lemma BodyText(item: W.Item)
    ensures W.TextOf(W.Body(item)) ==
      match item
      case Str(s) => "\"" + W.Escape(s) + "\""
      case Int(i) => Text(i)
      case Bool(b) => if b then "true" else "false"
      case Null => "null"
      case OpenCtx(k) => if k == TArr then "[" else "{"
      case CloseCtx(k) => if k == TArr then "]" else "}"
  {
    if item.Str? {
      W.PutThree("", 0, W.Plain("\""), W.Whole(W.Escape(item.s)), W.Plain("\""));
    } else {
      W.PutThree("", 0, W.Body(item)[0], W.Plain(""), W.Plain(""));
    }
  }

  lemma ReadContext(c: W.Cook, item: W.Item, m: Machine, buf: string) returns (m2: Machine, es: seq<Event>)
    requires item.OpenCtx? || item.CloseCtx?
    requires InOrder(c) && Legal(c, item) && Waits(m, AfterLead(c, item), c.ctxs, buf)
    requires buf == "" || (c.comma && item.CloseCtx?)
    ensures Reads(m, W.TextOf(W.Body(item)), es, m2) && es + Settle(m2).1 == [Meaning(c, item)]
    ensures c.key && item.Str? ==> Waits(m2, AfterKey, c.ctxs, item.s)
    ensures !(c.key && item.Str?) ==> Settles(m2) && InStep(W.Next(c, item), Settle(m2).0)
  {
    BodyText(item);
    hide Run, Step, W.Body, W.TextOf, Waits, InStep, Settle, Settles, InOrder, Legal, Inv, AfterLead;
    LeadFor(c, item, buf);
    var next := AfterLead(c, item);
    es := [Meaning(c, item)];
    if item.OpenCtx? {
      m2 := ReadOpen(m, next, c.ctxs, item.kind);
    } else {
      m2 := ReadClose(m, next, c.ctxs, buf, item.kind);
    }
    ReadsInv(m, W.TextOf(W.Body(item)), es, m2);
    AfterContext(c, item, m2);
  }

  /** What the reader waits for before an entity. */
  lemma LeadFor(c: W.Cook, item: W.Item, buf: string)
    requires InOrder(c) && Legal(c, item) && (buf == "" || (c.comma && item.CloseCtx?))
    ensures
      var next := AfterLead(c, item);
      if item.CloseCtx? then
        && buf == (if c.comma then buf else "") && W.IsContext(item.kind) && c.ctxs != [] && c.ctxs[|c.ctxs| - 1] == item.kind
        && next == if c.comma then AfterVal else if item.kind == TArr then ValFirst else KeyFirst
      else
        && buf == "" && (item.OpenCtx? ==> W.IsContext(item.kind))
        && (if c.key && item.Str? then next == Key || next == KeyFirst else next == Val || next == ValFirst)
    ensures item.Int? ==> -TWO63 < item.i < TWO63
    ensures c.key ==> item.Str? || item.CloseCtx?
  {
  }

  lemma ReadsInv(m: Machine, s: string, es: seq<Event>, m2: Machine)
    requires Reads(m, s, es, m2)
    ensures Inv(m2)
  {
  }

  lemma AfterContext(c: W.Cook, item: W.Item, m2: Machine)
    requires InOrder(c) && Legal(c, item) && (item.OpenCtx? || item.CloseCtx?) && Inv(m2)
    requires m2.ctxs == c.ctxs && !m2.surrogate
    requires item.OpenCtx? ==>
      m2.mode == NewCtx && m2.kind == item.kind && m2.buf == "" && m2.next == if item.kind == TArr then ValFirst else KeyFirst
    requires item.CloseCtx? ==> m2.mode == RmCtx
    ensures Settles(m2) && Settle(m2).1 == [] && InStep(W.Next(c, item), Settle(m2).0)
  {
  }

  lemma SettleKey(m2: Machine, ctxs: seq<Kind>, s: string)
    requires Waits(m2, AfterKey, ctxs, s)
    ensures Settle(m2).1 == []
  {
  }

  lemma AfterWord(c: W.Cook, item: W.Item, m2: Machine, w: string)
    requires InOrder(c) && Legal(c, item) && !item.OpenCtx? && !item.CloseCtx? && !(c.key && item.Str?)
    requires Waits(m2, AfterVal, c.ctxs, w)
    ensures Settles(m2) && Settle(m2) == (m2, []) && InStep(W.Next(c, item), m2)
  {
    hide Inv;
  }

  lemma AfterNumber(c: W.Cook, item: W.Item, m2: Machine)
    requires InOrder(c) && Legal(c, item) && item.Int? && Inv(m2)
    requires m2.mode == Num && m2.buf == Text(item.i) && m2.ctxs == c.ctxs && !m2.surrogate
    ensures Settles(m2) && Settle(m2).1 == [Meaning(c, item)] && InStep(W.Next(c, item), Settle(m2).0)
  {
    TextIsNumber(item.i);
    ReadOfText(item.i);
    hide Text;
  }

  lemma ReadBody(c: W.Cook, item: W.Item, m: Machine, buf: string) returns (m2: Machine, es: seq<Event>)
    requires InOrder(c) && Legal(c, item) && Waits(m, AfterLead(c, item), c.ctxs, buf)
    requires buf == "" || (c.comma && item.CloseCtx?)
    ensures Reads(m, W.TextOf(W.Body(item)), es, m2) && es + Settle(m2).1 == [Meaning(c, item)]
    ensures c.key && item.Str? ==> Waits(m2, AfterKey, c.ctxs, item.s)
    ensures !(c.key && item.Str?) ==> Settles(m2) && InStep(W.Next(c, item), Settle(m2).0)
  {
    BodyText(item);
    hide Run, Step, W.Body, W.TextOf, W.Escape, Text, Waits, InStep, Settles, InOrder, Legal, Inv, AfterLead;
    LeadFor(c, item, buf);
    var next := AfterLead(c, item);
    es := [Meaning(c, item)];
    match item
    case Str(s) =>
      m2 := ReadString(m, next, c.ctxs, s);
      if c.key { SettleKey(m2, c.ctxs, s); } else { AfterWord(c, item, m2, s); }
    case Int(i) =>
      m2 := ReadInteger(m, next, c.ctxs, i);
      ReadsInv(m, Text(i), [], m2);
      AfterNumber(c, item, m2);
      es := [];
    case Bool(b) =>
      m2 := ReadWord(m, next, c.ctxs, if b then 0 else 1);
      AfterWord(c, item, m2, WORDS[if b then 0 else 1]);
    case Null =>
      m2 := ReadWord(m, next, c.ctxs, 2);
      AfterWord(c, item, m2, WORDS[2]);
    case _ => m2, es := ReadContext(c, item, m, buf);
  }

  lemma ReadTrail(c: W.Cook, style: W.Style, item: W.Item, m: Machine) returns (m2: Machine)
    requires c.key && item.Str? && Waits(m, AfterKey, c.ctxs, item.s)
    ensures Reads(m, W.Trail(c, style, item), [], m2) && Waits(m2, Val, c.ctxs, "")
  {
    hide Run, Inv;
    m2 := ReadColon(m, c.ctxs, item.s);
    var white := if style == W.Compact then "" else " ";
    ReadSpaces(m2, white);
    ReadBoth(m, ":", [], m2, white, [], m2);
  }

  /** One legal call, read. */
  lemma ReadCall(c: W.Cook, style: W.Style, item: W.Item, m: Machine) returns (m2: Machine, es: seq<Event>)
    requires InOrder(c) && Legal(c, item) && InStep(c, m)
    ensures Reads(m, W.TextOf(W.Pieces(c, style, item)), es, m2) && Settles(m2)
    ensures es + Settle(m2).1 == [Meaning(c, item)] && InStep(W.Next(c, item), Settle(m2).0)
  {
    var lead, body, trail := W.Lead(c, style, item), W.TextOf(W.Body(item)), W.Trail(c, style, item);
    W.TextOfPieces(c, style, item);
    var m1 := ReadLead(c, style, item, m);
    m2, es := ReadBody(c, item, m1, m1.buf);
    hide Run, W.Lead, W.Body, W.TextOf;
    ReadBoth(m, lead, [], m1, body, es, m2);
    assert [] + es == es;
    if c.key && item.Str? {
      var m3 := ReadTrail(c, style, item, m2);
      ReadBoth(m, lead + body, es, m2, trail, [], m3);
      assert es + [] == es;
      m2 := m3;
    } else {
      assert trail == "" && lead + body + trail == lead + body;
    }
  }

  /** What comes after a value never looks like more of a number. */
  lemma FirstChar(c: W.Cook, style: W.Style, item: W.Item)
    requires W.CanAdd(c, item)
    ensures W.TextOf(W.Pieces(c, style, item)) != ""
    ensures c.comma ==> !IsNumberChar(W.TextOf(W.Pieces(c, style, item))[0])
  {
    W.TextOfPieces(c, style, item);
    BodyText(item);
    if item.Int? { TextIsNumber(item.i); }
    LeadFirst(c, style, item);
    hide W.TextOf, W.Pieces, W.Lead, W.Body, W.Trail, W.Escape, Text;
  }

  lemma LeadFirst(c: W.Cook, style: W.Style, item: W.Item)
    requires W.CanAdd(c, item)
    ensures
      var lead := W.Lead(c, style, item);
      if lead == "" then c.comma ==> item.CloseCtx? else c.comma ==> !IsNumberChar(lead[0])
  {
    if item.CloseCtx? { IndentIsSpace(style, |c.ctxs| - 1); }
  }

  // ----- whole documents -----

  datatype Add = Add(style: W.Style, item: W.Item)

  /** The flags after a call that has succeeded. */
  function NextFlags(c: W.Cook, item: W.Item): W.Cook
    requires W.CanAdd(c, item)
  {
    W.Next(c, item).(lf := true)
  }

  predicate AllLegal(c: W.Cook, calls: seq<Add>)
    decreases |calls|
  {
    calls == [] || (Legal(c, calls[0].item) && AllLegal(NextFlags(c, calls[0].item), calls[1..]))
  }

  function Written(c: W.Cook, calls: seq<Add>): string
    requires AllLegal(c, calls)
    decreases |calls|
  {
    if calls == [] then ""
    else W.TextOf(W.Pieces(c, calls[0].style, calls[0].item)) + Written(NextFlags(c, calls[0].item), calls[1..])
  }

  function Meanings(c: W.Cook, calls: seq<Add>): seq<Event>
    requires AllLegal(c, calls)
    decreases |calls|
  {
    if calls == [] then []
    else [Meaning(c, calls[0].item)] + Meanings(NextFlags(c, calls[0].item), calls[1..])
  }

  function FlagsAfter(c: W.Cook, calls: seq<Add>): W.Cook
    requires AllLegal(c, calls)
    decreases |calls|
  {
    if calls == [] then c else FlagsAfter(NextFlags(c, calls[0].item), calls[1..])
  }

  /**
   * Any legal calls, in any style and each in its own: the text reads without error, and its events,
   * with that of a number at the very end, are those that were written.
   */
  lemma {:induction false} ReadWritten(c: W.Cook, calls: seq<Add>, m: Machine) returns (m2: Machine, es: seq<Event>)
    requires InOrder(c) && AllLegal(c, calls) && Settles(m) && InStep(c, Settle(m).0) && (m.mode == Num ==> c.comma && m.ctxs != [])
    ensures Reads(m, Written(c, calls), es, m2) && Settles(m2)
    ensures es + Settle(m2).1 == Settle(m).1 + Meanings(c, calls)
    ensures InStep(FlagsAfter(c, calls), Settle(m2).0) && (m2.mode == Num ==> m2.ctxs != [])
    decreases |calls|
  {
    if calls == [] {
      ReadNothing(m);
      m2, es := m, [];
      assert Settle(m).1 + [] == Settle(m).1 == [] + Settle(m).1;
    } else {
      var style, item, rest := calls[0].style, calls[0].item, calls[1..];
      var text, c2 := W.TextOf(W.Pieces(c, style, item)), NextFlags(c, item);
      var m1, e1 := ReadCall(c, style, item, Settle(m).0);
      FirstChar(c, style, item);
      ReadSettled(m, text, e1, m1);
      NextInOrder(c, item, m1, e1);
      var e2: seq<Event>;
      m2, e2 := ReadWritten(c2, rest, m1);
      es := Settle(m).1 + e1 + e2;
      hide Run, Inv, W.Pieces, W.TextOf, Settles, InStep, W.Next, Settle;
      ReadBoth(m, text, Settle(m).1 + e1, m1, Written(c2, rest), e2, m2);
      Regroup(Settle(m).1, e1, e2, Settle(m1).1, Settle(m2).1, Meaning(c, item), Meanings(c2, rest));
    }
  }

  lemma Regroup(p: seq<Event>, e1: seq<Event>, e2: seq<Event>, q: seq<Event>, r: seq<Event>, x: Event, xs: seq<Event>)
    requires e1 + q == [x] && e2 + r == q + xs
    ensures p + e1 + e2 + r == p + ([x] + xs)
  {
    assert p + e1 + e2 + r == p + (e1 + (e2 + r));
    assert e1 + (q + xs) == (e1 + q) + xs;
  }

  lemma NextInOrder(c: W.Cook, item: W.Item, m: Machine, es: seq<Event>)
    requires InOrder(c) && Legal(c, item) && Settles(m) && InStep(W.Next(c, item), Settle(m).0)
    ensures InOrder(NextFlags(c, item)) && InStep(NextFlags(c, item), Settle(m).0)
    requires es + Settle(m).1 == [Meaning(c, item)]
    ensures m.mode == Num ==> NextFlags(c, item).comma && m.ctxs != []
  {
    if m.mode == Num { assert (es + Settle(m).1)[|es|] == Meaning(c, item); }
  }

  /** A document, root object or array, all closed: what is read is what was written. */
  lemma RoundTrip(calls: seq<Add>)
    requires AllLegal(W.Init(), calls)
    requires FlagsAfter(W.Init(), calls).ctxs == [] && calls != []
    ensures Run(Init(), Written(W.Init(), calls)).error == None
    ensures Run(Init(), Written(W.Init(), calls)).events == Meanings(W.Init(), calls)
  {
    hide Run;
    var m2, es := ReadWritten(W.Init(), calls, Init());
    hide Written, Meanings, FlagsAfter, AllLegal;
    assert [] + Meanings(W.Init(), calls) == Meanings(W.Init(), calls);
    assert es + [] == es;
  }

  /** The same, however the text is cut into buffers for the reader. */
  lemma RoundTripInBuffers(calls: seq<Add>, buffers: seq<string>)
    requires AllLegal(W.Init(), calls)
    requires FlagsAfter(W.Init(), calls).ctxs == [] && calls != []
    requires Flat(buffers) == Written(W.Init(), calls)
    ensures FeedAll(Init(), buffers).error == None
    ensures FeedAll(Init(), buffers).events == Meanings(W.Init(), calls)
  {
    hide Run, Written, Meanings, FlagsAfter, AllLegal, FeedAll, Flat;
    RoundTrip(calls);
    AnyBuffers(Init(), buffers);
  }

  /** No entity measures more than an int holds. */
  predicate AllSmall(c: W.Cook, calls: seq<Add>)
    requires AllLegal(c, calls)
    decreases |calls|
  {
    calls == [] ||
    (W.Measure(c, calls[0].style, calls[0].item) < 0x8000_0000 && AllSmall(NextFlags(c, calls[0].item), calls[1..]))
  }

  /** Legal calls, one after another, into a buffer that grows: none fails. */
  method WriteAll(w: W.Writer, calls: seq<Add>)
    requires w.Valid() && AllLegal(w.Flags(), calls) && AllSmall(w.Flags(), calls)
    requires |w.Out()| + |Written(w.Flags(), calls)| < 0x4000_0000_0000_0000
    modifies w, w.buf
    ensures w.Valid()
    ensures w.Out() == old(w.Out()) + Written(old(w.Flags()), calls)
    ensures w.Flags() == FlagsAfter(old(w.Flags()), calls)
  {
    hide W.Pieces, W.TextOf, W.Next, Legal, W.Measure, W.Fits;
    ghost var c, out := w.Flags(), w.Out();
    var i := 0;
    assert calls[0..] == calls && out + Written(c, calls) == w.Out() + Written(w.Flags(), calls[0..]);
    while i < |calls|
      invariant 0 <= i <= |calls| && w.Valid() && (w.buf == old(w.buf) || fresh(w.buf))
      invariant AllLegal(w.Flags(), calls[i..]) && AllSmall(w.Flags(), calls[i..])
      invariant out + Written(c, calls) == w.Out() + Written(w.Flags(), calls[i..])
      invariant FlagsAfter(c, calls) == FlagsAfter(w.Flags(), calls[i..])
    {
      ghost var was, flags := w.Out(), w.Flags();
      LegalCall(flags, calls, i);
      W.SmallFits(w.Cap(), w.len, flags, calls[i].style, calls[i].item);
      var r := w.BufAdd(calls[i].style, calls[i].item);
      i := i + 1;
    }
    assert w.Out() + "" == w.Out();
  }

  lemma LegalCall(c: W.Cook, calls: seq<Add>, i: nat)
    requires i < |calls| && AllLegal(c, calls[i..])
    ensures W.GoodItem(calls[i].item) && W.CanAdd(c, calls[i].item)
    ensures AllLegal(NextFlags(c, calls[i].item), calls[i + 1..])
    ensures AllSmall(c, calls[i..]) ==>
      W.Measure(c, calls[i].style, calls[i].item) < 0x8000_0000 && AllSmall(NextFlags(c, calls[i].item), calls[i + 1..])
    ensures forall out: string ::
      out + Written(c, calls[i..]) ==
        (out + W.TextOf(W.Pieces(c, calls[i].style, calls[i].item))) + Written(NextFlags(c, calls[i].item), calls[i + 1..])
    ensures FlagsAfter(c, calls[i..]) == FlagsAfter(NextFlags(c, calls[i].item), calls[i + 1..])
  {
    assert calls[i..][1..] == calls[i + 1..];
    var t, rest := W.TextOf(W.Pieces(c, calls[i].style, calls[i].item)), Written(NextFlags(c, calls[i].item), calls[i + 1..]);
    forall out: string ensures out + (t + rest) == (out + t) + rest { }
  }
}
