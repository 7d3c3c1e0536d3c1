/**
 * The streaming JSON reader: a push-down machine driven by single characters, which a caller feeds
 * with one buffer after another.  A 'char' stands for a byte.
 */
module JsonParser {
  import opened Wrappers
  import opened Digits

  datatype Kind = TNull | TStr | TInt | TBool | TObj | TArr | TNum

  datatype Event =
    | Value(kind: Kind, text: string, number: int)
    | KeyName(text: string)
    | Open(kind: Kind)
    | Close(kind: Kind)

  datatype Error = EBadChar | EKvSep | ENoVal | EBadVal | EEsc | EBadBrace | EBadCmt

  datatype Ret = More | Got(event: Event) | Failed(error: Error)

  datatype Mode =
    | Space | CmtBegin | CmtLine | CmtMulti | CmtSlash
    | ValFirst | Val | Bare | Num | AfterVal | CloseBrace
    | NewCtx | RmCtx
    | QuoteFirst | Quote | QuoteEsc
    | KeyFirst | Key | AfterKey
    | Nowhere

  /**
   * The reader between two characters.  'surrogate': a UTF-16 escape must follow, whose first half
   * is 'hiword'; 'esc': the escape sequence so far; 'word': which bare word is being read.
   */
  datatype Machine = Machine(mode: Mode, next: Mode, kind: Kind, surrogate: bool, esc: string, hiword: int,
    word: int, ctxs: seq<Kind>, buf: string, intval: int)

  /** One turn of the loop; 'stay': the character is to be seen again. */
  datatype Turn = Turn(m: Machine, ret: Ret, stay: bool)

  /** ffjson_parseinit */
  function Init(): Machine {
    Machine(Space, Val, TNull, false, "", 0, 0, [], "", 0)
  }

  // ----- characters -----

  predicate IsSpace(c: char) {
    c == ' ' || c == '\t' || c == '\n' || c == '\r'
  }

  /** ffchar_tohex; besides the digits it takes '@' and '`' for 9. */
  function HexValue(c: char): (v: int)
    ensures -1 <= v < 16
  {
    if IsDigit(c) then DigitValue(c)
    else if 'a' <= c <= 'f' then c as int - 'a' as int + 10
    else if 'A' <= c <= 'F' then c as int - 'A' as int + 10
    else if c == '@' || c == '`' then 9
    else -1
  }

  const BACKSPACE: char := '\U{8}'
  const FORM_FEED: char := '\U{C}'
  const DELETE: char := '\U{7F}'

  /** The character behind a one-letter escape. */
  function Unescaped(c: char): Option<char> {
    if c == '"' || c == '\\' || c == '/' then Some(c)
    else if c == 'b' then Some(BACKSPACE)
    else if c == 'f' then Some(FORM_FEED)
    else if c == 'r' then Some('\r')
    else if c == 'n' then Some('\n')
    else if c == 't' then Some('\t')
    else None
  }

  datatype Unescape = Incomplete | Invalid | Code(code: int, n: nat)

  /** ffjson_unescapechar */
  function UnescapeChar(s: string): Unescape {
    if s == "" then Incomplete
    else if Unescaped(s[0]).Some? then Code(Unescaped(s[0]).value as int, 1)
    else if s[0] == 'u' then
      if |s| < 5 then Incomplete
      else if HexValue(s[1]) < 0 || HexValue(s[2]) < 0 || HexValue(s[3]) < 0 || HexValue(s[4]) < 0 then Invalid
      else Code(((HexValue(s[1]) * 16 + HexValue(s[2])) * 16 + HexValue(s[3])) * 16 + HexValue(s[4]), 5)
    else Invalid
  }

  function Byte(n: int): char
    requires 0 <= n < 256
  {
    n as char
  }

  /** ffutf8_encode1 */
  function Utf8(n: int): string
    requires 0 <= n < 0x20_0000
  {
    if n < 0x80 then [Byte(n)]
    else if n < 0x800 then [Byte(0xC0 + n / 0x40), Byte(0x80 + n % 0x40)]
    else if n < 0x1_0000 then [Byte(0xE0 + n / 0x1000), Byte(0x80 + n / 0x40 % 0x40), Byte(0x80 + n % 0x40)]
    else [Byte(0xF0 + n / 0x4_0000), Byte(0x80 + n / 0x1000 % 0x40), Byte(0x80 + n / 0x40 % 0x40), Byte(0x80 + n % 0x40)]
  }

  // ----- numbers -----

  datatype FloatMode = FMinus | FInt | FFrac | FExpSign | FExp

  predicate IsNumberChar(c: char) {
    IsDigit(c) || c == '-' || c == '+' || c == '.' || c == 'e' || c == 'E'
  }

  /** Whether ffs_tofloat takes all of 's' from 'i' on, after so many digits. */
  predicate FloatFrom(s: string, i: nat, mode: FloatMode, digits: nat, exp: int, e: nat, negative: bool)
    requires i <= |s|
    decreases |s| - i
  {
    if i == |s| then
      var x := exp + (if negative then -(e as int) else e);
      digits != 0 && mode != FExpSign && -324 <= x <= 308
    else
      var c := s[i];
      if mode == FMinus && (c == '-' || c == '+') then FloatFrom(s, i + 1, FInt, digits, exp, e, negative)
      else if (mode == FMinus || mode == FInt) && IsDigit(c) then FloatFrom(s, i + 1, FInt, digits + 1, exp, e, negative)
      else if (mode == FMinus || mode == FInt) && c == '.' then FloatFrom(s, i + 1, FFrac, digits, exp, e, negative)
      else if mode == FFrac && IsDigit(c) then FloatFrom(s, i + 1, FFrac, digits + 1, exp - 1, e, negative)
      else if mode == FMinus || mode == FInt || mode == FFrac then
        (c == 'e' || c == 'E') && FloatFrom(s, i + 1, FExpSign, digits, exp, e, negative)
      else if mode == FExpSign && (c == '-' || c == '+') then FloatFrom(s, i + 1, FExp, digits, exp, e, c == '-')
      else IsDigit(c) && FloatFrom(s, i + 1, FExp, digits, exp, e * 10 + DigitValue(c), negative)
  }

  predicate IsFloat(s: string) {
    FloatFrom(s, 0, FMinus, 0, 0, 0, false)
  }

  /** What a bare number is: its type and its value, if it is an integer. */
  function NumberKind(s: string): Option<(Kind, int)> {
    if ReadInt(s).Some? && ReadInt(s).value.0 == |s| then Some((TInt, ReadInt(s).value.1))
    else if IsFloat(s) then Some((TNum, 0))
    else None
  }

  // ----- one turn -----

  function ValueOf(m: Machine): Event {
    Value(m.kind, m.buf, if m.kind == TInt || m.kind == TBool then m.intval else 0)
  }

  const WORDS := ["true", "false", "null"]

  /** Which bare word begins with this, -1 if none. */
  function WordOf(c: char): int {
    if c == 't' then 0 else if c == 'f' then 1 else if c == 'n' then 2 else -1
  }

  function CtxKind(c: char): Kind {
    if c == '[' || c == ']' then TArr else TObj
  }

  /** json_cmt */
  function StepComment(m: Machine, c: char): Turn {
    match m.mode
    case CmtBegin =>
      if c == '/' then Turn(m.(mode := CmtLine), More, false)
      else if c == '*' then Turn(m.(mode := CmtMulti), More, false)
      else Turn(m, Failed(EBadCmt), true)
    case CmtLine => Turn(if c == '\n' then m.(mode := Space) else m, More, false)
    case CmtMulti => Turn(if c == '*' then m.(mode := CmtSlash) else m, More, false)
    case _ => Turn(m.(mode := if c == '/' then Space else CmtMulti), More, false)
  }

  /** hdlValBare */
  function StepBare(m: Machine, c: char): Turn {
    var m1 := m.(buf := m.buf + [c]);
    var i := |m.buf|;
    var w := if 0 <= m.word < 3 then WORDS[m.word] else "";
    if i >= |w| || c != w[i] then Turn(m1, Failed(EBadVal), true)
    else if i + 1 < |w| then Turn(m1, More, false)
    else
      var m2 := m1.(kind := if m.word == 2 then TNull else TBool, intval := if m.word == 0 then 1 else 0,
        mode := Space, next := AfterVal);
      Turn(m2, Got(ValueOf(m2)), false)
  }

  /** hdlValBareNum: the character that ends a number is seen again. */
  function StepNum(m: Machine, c: char): Turn {
    if IsNumberChar(c) then Turn(m.(buf := m.buf + [c]), More, false)
    else if m.buf == "" then Turn(m, Failed(ENoVal), true)
    else
      match NumberKind(m.buf)
      case None => Turn(m, Failed(EBadVal), true)
      case Some(k) =>
        var m1 := m.(kind := k.0, intval := k.1, mode := Space, next := AfterVal);
        Turn(m1, Got(ValueOf(m1)), true)
  }

  /** hdlQuote */
  function StepQuote(m: Machine, c: char): Turn {
    if c == '\\' then Turn(m.(mode := QuoteEsc, esc := ""), More, false)
    else if m.surrogate then Turn(m.(mode := Quote), Failed(EEsc), true)
    else if c == '"' then
      if m.next == Key then
        Turn(m.(kind := TStr, mode := Space, next := AfterKey), Got(KeyName(m.buf)), false)
      else
        Turn(m.(kind := TStr, mode := Space, next := AfterVal), Got(Value(TStr, m.buf, 0)), false)
    else if c == '\n' then Turn(m.(mode := Quote), Failed(EBadChar), true)
    else Turn(m.(mode := Quote, buf := m.buf + [c]), More, false)
  }

  /** hdlEsc */
  function StepEsc(m: Machine, c: char): Turn {
    if |m.esc| >= 5 then Turn(m, Failed(EEsc), true)
    else
      var m1 := m.(esc := m.esc + [c]);
      match UnescapeChar(m1.esc)
      case Invalid => Turn(m1, Failed(EEsc), true)
      case Incomplete => Turn(m1, More, false)
      case Code(u, _) =>
        if !(0xD800 <= u < 0xE000) then Turn(m1.(buf := m.buf + Plain(u), mode := Quote), More, false)
        else if u < 0xDC00 then
          if m.surrogate then Turn(m1, Failed(EEsc), true)
          else Turn(m1.(surrogate := true, hiword := u, mode := Quote), More, false)
        else if !m.surrogate then Turn(m1, Failed(EEsc), true)
        else
          Turn(m1.(surrogate := false, hiword := 0, buf := m.buf + Plain(0x1_0000 + (m.hiword - 0xD800) * 0x400 + (u - 0xDC00)),
            mode := Quote), More, false)
  }

  function Plain(u: int): string {
    if 0 <= u < 0x20_0000 then Utf8(u) else ""
  }

  function StepClose(m: Machine, c: char): Turn {
    if m.ctxs == [] || m.ctxs[|m.ctxs| - 1] != CtxKind(c) then Turn(m.(mode := CloseBrace), Failed(EBadBrace), true)
    else Turn(m.(mode := RmCtx, kind := CtxKind(c)), Got(Close(CtxKind(c))), false)
  }

  function StepVal(m: Machine, c: char): Turn {
    if c == '"' then Turn(m.(mode := QuoteFirst, next := Val), More, false)
    else if c == '[' || c == '{' then
      Turn(m.(mode := NewCtx, kind := CtxKind(c), next := if c == '[' then ValFirst else KeyFirst), Got(Open(CtxKind(c))), false)
    else Turn(m.(mode := if WordOf(c) >= 0 then Bare else Num, word := WordOf(c)), More, true)
  }

  function StepAfterVal(m: Machine, c: char): Turn {
    var m1 := m.(buf := "", intval := 0);
    if m.ctxs == [] then Turn(m1, Failed(EBadChar), true)
    else if c == ',' then Turn(m1.(mode := Space, next := if m.ctxs[|m.ctxs| - 1] == TArr then Val else Key), More, false)
    else if c != ']' && c != '}' then Turn(m1, Failed(EBadChar), true)
    else StepClose(m1, c)
  }

  function StepKey(m: Machine, c: char): Turn {
    if c == '"' then Turn(m.(mode := QuoteFirst, next := Key), More, false)
    else Turn(m.(mode := Key), Failed(EBadChar), true)
  }

  /** One turn of the loop of ffjson_parse. */
  function Step(m: Machine, c: char): Turn {
    match m.mode
    case Space =>
      if IsSpace(c) then Turn(m, More, false)
      else if c == '/' then Turn(m.(mode := CmtBegin), More, false)
      else Turn(m.(mode := m.next, next := Nowhere), More, true)
    case CmtBegin => StepComment(m, c)
    case CmtLine => StepComment(m, c)
    case CmtMulti => StepComment(m, c)
    case CmtSlash => StepComment(m, c)
    case ValFirst => if c == ']' then Turn(m.(mode := CloseBrace), More, true) else StepVal(m.(mode := Val), c)
    case Val => StepVal(m, c)
    case Bare => StepBare(m, c)
    case Num => StepNum(m, c)
    case AfterVal => StepAfterVal(m, c)
    case CloseBrace => StepClose(m, c)
    case NewCtx => Turn(m.(ctxs := m.ctxs + [m.kind], mode := Space), More, true)
    case RmCtx => Turn(m.(ctxs := if m.ctxs == [] then [] else m.ctxs[..|m.ctxs| - 1], mode := Space, next := AfterVal), More, true)
    case QuoteFirst => StepQuote(m, c)
    case Quote => StepQuote(m, c)
    case QuoteEsc => StepEsc(m, c)
    case KeyFirst => if c == '}' then Turn(m.(mode := CloseBrace), More, true) else StepKey(m.(mode := Key), c)
    case Key => StepKey(m, c)
    case AfterKey =>
      var m1 := m.(buf := "", intval := 0);
      if c == ':' then Turn(m1.(mode := Space, next := Val), More, false) else Turn(m1, Failed(EKvSep), true)
    case Nowhere => Turn(m, More, false)
  }

  // ----- what holds between turns -----

  predicate IsNext(mode: Mode) {
    mode == ValFirst || mode == Val || mode == AfterVal || mode == KeyFirst || mode == Key || mode == AfterKey
  }

  /** Nothing has been gathered yet for the value or key to come. */
  predicate IsFresh(mode: Mode) {
    mode == ValFirst || mode == Val || mode == KeyFirst || mode == Key || mode == QuoteFirst || mode == NewCtx
  }

  predicate InQuote(mode: Mode) {
    mode == QuoteFirst || mode == Quote || mode == QuoteEsc
  }

  /** Modes that lead to 'next' over white space. */
  predicate Leads(mode: Mode) {
    mode == Space || mode == CmtBegin || mode == CmtLine || mode == CmtMulti || mode == CmtSlash || mode == NewCtx
  }

  predicate Inv(m: Machine) {
    && m.mode != Nowhere
    && (Leads(m.mode) ==> IsNext(m.next))
    && (IsFresh(m.mode) || (Leads(m.mode) && IsFresh(m.next)) ==> m.buf == "")
    && (InQuote(m.mode) ==> m.next == Val || m.next == Key)
    && (m.mode == ValFirst || m.mode == KeyFirst || m.mode == CloseBrace || m.mode == RmCtx ==> m.ctxs != [])
    && (m.mode != NewCtx && Leads(m.mode) && (m.next == ValFirst || m.next == KeyFirst) ==> m.ctxs != [])
    && (m.surrogate ==> (m.mode == Quote || m.mode == QuoteEsc) && 0xD800 <= m.hiword < 0xDC00)
    && (m.mode == Bare ==> 0 <= m.word < 3 && |m.buf| < |WORDS[m.word]|)
  }

  /** Turns that see the same character again come closer to one that does not. */
  function Rank(m: Machine): nat {
    match m.mode
    case NewCtx => 9
    case RmCtx => 9
    case Num => if m.buf == "" then 0 else 8
    case Space => 7
    case ValFirst => 6
    case KeyFirst => 6
    case Val => 5
    case CloseBrace => 1
    case _ => 0
  }

  predicate Good(m: Machine, t: Turn) {
    !t.ret.Failed? ==> Inv(t.m) && (t.stay ==> Rank(t.m) < Rank(m))
  }

  lemma CommentGood(m: Machine, c: char)
    requires Inv(m) && (m.mode == CmtBegin || m.mode == CmtLine || m.mode == CmtMulti || m.mode == CmtSlash)
    ensures Good(m, StepComment(m, c))
  {
  }

  lemma BareGood(m: Machine, c: char)
    requires Inv(m) && m.mode == Bare
    ensures Good(m, StepBare(m, c))
  {
  }

  lemma NumGood(m: Machine, c: char)
    requires Inv(m) && m.mode == Num
    ensures Good(m, StepNum(m, c))
  {
    hide NumberKind;
  }

  lemma QuoteGood(m: Machine, c: char)
    requires Inv(m) && (m.mode == QuoteFirst || m.mode == Quote)
    ensures Good(m, StepQuote(m, c))
  {
  }

  lemma EscGood(m: Machine, c: char)
    requires Inv(m) && m.mode == QuoteEsc
    ensures Good(m, StepEsc(m, c))
  {
    hide UnescapeChar, Plain;
  }

  lemma CloseGood(m: Machine, c: char)
    requires m.mode == CloseBrace || m.mode == AfterVal
    requires !m.surrogate
    ensures Good(m, StepClose(m, c))
  {
  }

  lemma ValGood(m: Machine, c: char)
    requires Inv(m) && (m.mode == Val || m.mode == ValFirst)
    ensures Good(m, StepVal(m.(mode := Val), c))
  {
  }

  lemma KeyGood(m: Machine, c: char)
    requires Inv(m) && (m.mode == Key || m.mode == KeyFirst)
    ensures Good(m, StepKey(m.(mode := Key), c))
  {
  }

  lemma StepKeeps(m: Machine, c: char)
    requires Inv(m)
    ensures Good(m, Step(m, c))
  {
    hide StepComment, StepBare, StepNum, StepQuote, StepEsc, StepClose, StepVal, StepKey;
    match m.mode
    case Bare => BareGood(m, c);
    case Num => NumGood(m, c);
    case QuoteFirst => QuoteGood(m, c);
    case Quote => QuoteGood(m, c);
    case QuoteEsc => EscGood(m, c);
    case CloseBrace => CloseGood(m, c);
    case ValFirst => ValGood(m, c);
    case Val => ValGood(m, c); assert m.(mode := Val) == m;
    case KeyFirst => KeyGood(m, c);
    case Key => KeyGood(m, c); assert m.(mode := Key) == m;
    case AfterVal => CloseGood(m.(buf := "", intval := 0), c);
    case CmtBegin => CommentGood(m, c);
    case CmtLine => CommentGood(m, c);
    case CmtMulti => CommentGood(m, c);
    case CmtSlash => CommentGood(m, c);
    case _ =>
  }

  // ----- a whole text -----

  /** What comes of a text: the events, and the error that ends it, if one does. */
  datatype Outcome = Outcome(m: Machine, events: seq<Event>, error: Option<Error>)

  function Run(m: Machine, s: string): Outcome
    requires Inv(m)
    decreases |s|, Rank(m)
  {
    if s == "" then Outcome(m, [], None)
    else
      StepKeeps(m, s[0]);
      var t := Step(m, s[0]);
      match t.ret
      case Failed(e) => Outcome(t.m, [], Some(e))
      case More => Run(t.m, if t.stay then s else s[1..])
      case Got(e) =>
        var o := Run(t.m, if t.stay then s else s[1..]);
        Outcome(o.m, [e] + o.events, o.error)
  }

  lemma {:induction false} RunInv(m: Machine, s: string)
    requires Inv(m)
    ensures Run(m, s).error.None? ==> Inv(Run(m, s).m)
    decreases |s|, Rank(m)
  {
    if s != "" {
      StepKeeps(m, s[0]);
      var t := Step(m, s[0]);
      if !t.ret.Failed? { RunInv(t.m, if t.stay then s else s[1..]); }
    }
  }

  /** The rest of a text after one turn. */
  function Rest(t: Turn, s: string): string
    requires s != ""
  {
    if t.stay then s else s[1..]
  }

  function Prepend(ret: Ret, o: Outcome): Outcome {
    Outcome(o.m, (if ret.Got? then [ret.event] else []) + o.events, o.error)
  }

  lemma RunStep(m: Machine, s: string)
    requires Inv(m) && s != ""
    ensures
      var t := Step(m, s[0]);
      && (t.ret.Failed? ==> Run(m, s) == Outcome(t.m, [], Some(t.ret.error)))
      && (!t.ret.Failed? ==> Inv(t.m) && (t.stay ==> Rank(t.m) < Rank(m)) && Run(m, s) == Prepend(t.ret, Run(t.m, Rest(t, s))))
  {
    StepKeeps(m, s[0]);
    var t := Step(m, s[0]);
    hide Step;
    if t.ret.More? { assert Prepend(More, Run(t.m, Rest(t, s))) == Run(t.m, Rest(t, s)); }
  }

  /** One text after another. */
  function After(o: Outcome, p: Outcome): Outcome {
    Outcome(p.m, o.events + p.events, p.error)
  }

  lemma AfterPrepend(ret: Ret, o: Outcome, p: Outcome)
    ensures After(Prepend(ret, o), p) == Prepend(ret, After(o, p))
  {
    var e := if ret.Got? then [ret.event] else [];
    assert (e + o.events) + p.events == e + (o.events + p.events);
  }

  /** Stopping after 'a' and going on with 'b' is going on without stopping. */
  predicate Appends(m: Machine, a: string, b: string)
    requires Inv(m)
  {
    RunInv(m, a);
    var o := Run(m, a);
    if o.error.Some? then Run(m, a + b) == o else Run(m, a + b) == After(o, Run(o.m, b))
  }

  lemma {:induction false} RunAppend(m: Machine, a: string, b: string)
    requires Inv(m)
    ensures Appends(m, a, b)
    decreases |a|, Rank(m)
  {
    hide Run, Step, Inv, Rank, Prepend, Appends, Rest;
    if a == "" {
      AppendsNone(m, b);
    } else {
      RunStep(m, a);
      RunStep(m, a + b);
      var t := Step(m, a[0]);
      if !t.ret.Failed? {
        RestAppend(t, a, b);
        RunAppend(t.m, Rest(t, a), b);
        AppendsStep(m, a, b, t);
      } else {
        AppendsFailed(m, a, b, t);
      }
    }
  }

  lemma RestAppend(t: Turn, a: string, b: string)
    requires a != ""
    ensures Rest(t, a + b) == Rest(t, a) + b
    ensures t.stay ==> |Rest(t, a)| == |a|
    ensures !t.stay ==> |Rest(t, a)| < |a|
  {
  }

  lemma AppendsNone(m: Machine, b: string)
    requires Inv(m)
    ensures Appends(m, "", b)
  {
    assert "" + b == b;
    assert After(Outcome(m, [], None), Run(m, b)) == Run(m, b);
  }

  lemma AppendsFailed(m: Machine, a: string, b: string, t: Turn)
    requires Inv(m) && t.ret.Failed?
    requires Run(m, a) == Outcome(t.m, [], Some(t.ret.error)) == Run(m, a + b)
    ensures Appends(m, a, b)
  {
    hide Run;
  }

  lemma AppendsStep(m: Machine, a: string, b: string, t: Turn)
    requires Inv(m) && a != "" && Inv(t.m) && Appends(t.m, Rest(t, a), b)
    requires Run(m, a) == Prepend(t.ret, Run(t.m, Rest(t, a)))
    requires Run(m, a + b) == Prepend(t.ret, Run(t.m, Rest(t, a) + b))
    ensures Appends(m, a, b)
  {
    hide Run, Inv, Rest;
    var o := Run(t.m, Rest(t, a));
    if o.error.None? {
      RunInv(t.m, Rest(t, a));
      AfterPrepend(t.ret, o, Run(o.m, b));
    }
  }

  // ----- buffers -----

  /** One call: the event, the error or the end of the buffer it stopped at, and how much it took. */
  datatype Call = Call(m: Machine, ret: Ret, n: nat)

  /** ffjson_parse on a buffer. */
  function Advance(m: Machine, s: string): (r: Call)
    requires Inv(m)
    ensures r.n <= |s| && (!r.ret.Failed? ==> Inv(r.m)) && (r.ret.More? ==> r.n == |s|)
    ensures r.ret.Got? ==> r.n > 0 || Rank(r.m) < Rank(m)
    decreases |s|, Rank(m)
  {
    if s == "" then Call(m, More, 0)
    else
      StepKeeps(m, s[0]);
      var t := Step(m, s[0]);
      var took := if t.stay then 0 else 1;
      if !t.ret.More? then Call(t.m, t.ret, took)
      else
        var r := Advance(t.m, Rest(t, s));
        Call(r.m, r.ret, r.n + took)
  }

  /** What one call gives is the first of what the text gives. */
  lemma {:induction false} ParseRight(m: Machine, s: string)
    requires Inv(m)
    ensures
      var r := Advance(m, s);
      && (r.ret.Failed? ==> Run(m, s) == Outcome(r.m, [], Some(r.ret.error)))
      && (r.ret.More? ==> Run(m, s) == Outcome(r.m, [], None))
      && (r.ret.Got? ==> Run(m, s) == Prepend(r.ret, Run(r.m, s[r.n..])))
    decreases |s|, Rank(m)
  {
    if s != "" {
      RunStep(m, s);
      var t := Step(m, s[0]);
      hide Step, Rank;
      if t.ret.Got? {
        assert s[0..] == s;
      } else if t.ret.More? {
        ParseRight(t.m, Rest(t, s));
        var r := Advance(t.m, Rest(t, s));
        assert Rest(t, s)[r.n..] == s[Advance(m, s).n..];
        assert Prepend(More, Run(t.m, Rest(t, s))) == Run(t.m, Rest(t, s));
      }
    }
  }

  /** A buffer, handed over again until nothing of it is left or it is in error. */
  function Feed(m: Machine, s: string): Outcome
    requires Inv(m)
    decreases |s|, Rank(m)
  {
    var r := Advance(m, s);
    match r.ret
    case Failed(e) => Outcome(r.m, [], Some(e))
    case More => Outcome(r.m, [], None)
    case Got(e) => Prepend(r.ret, Feed(r.m, s[r.n..]))
  }

  lemma {:induction false} FeedRight(m: Machine, s: string)
    requires Inv(m)
    ensures Feed(m, s) == Run(m, s)
    decreases |s|, Rank(m)
  {
    ParseRight(m, s);
    var r := Advance(m, s);
    if r.ret.Got? { FeedRight(r.m, s[r.n..]); }
  }

  function FeedAll(m: Machine, buffers: seq<string>): Outcome
    requires Inv(m)
    decreases |buffers|
  {
    if buffers == [] then Outcome(m, [], None)
    else
      FeedRight(m, buffers[0]);
      RunInv(m, buffers[0]);
      var o := Feed(m, buffers[0]);
      if o.error.Some? then o else After(o, FeedAll(o.m, buffers[1..]))
  }

  function Flat(buffers: seq<string>): string {
    if buffers == [] then "" else buffers[0] + Flat(buffers[1..])
  }

  /** However a text is cut into buffers, its events, their values and its error are the same. */
  lemma {:induction false} AnyBuffers(m: Machine, buffers: seq<string>)
    requires Inv(m)
    ensures FeedAll(m, buffers) == Run(m, Flat(buffers))
    decreases |buffers|
  {
    if buffers != [] {
      hide Run, Feed, Inv;
      FeedRight(m, buffers[0]);
      RunAppend(m, buffers[0], Flat(buffers[1..]));
      RunInv(m, buffers[0]);
      var o := Run(m, buffers[0]);
      if o.error.None? { AnyBuffers(o.m, buffers[1..]); }
    }
  }

  // ----- the reader -----

  /** A call and a specification of it agree, except for what an error leaves behind. */
  predicate Agree(m: Machine, ret: Ret, n: nat, r: Call) {
    ret == r.ret && n == r.n && (!ret.Failed? ==> m == r.m)
  }

  /** So do a turn and its specification. */
  predicate Turned(m: Machine, ret: Ret, t: Turn) {
    ret == t.ret && (!ret.Failed? ==> m == t.m)
  }

  lemma ReadAll(s: string)
    requires s != ""
    ensures NumberKind(s) ==
      if ReadInt(s).Some? && ReadInt(s).value.0 == |s| then Some((TInt, ReadInt(s).value.1))
      else if IsFloat(s) then Some((TNum, 0)) else None
  {
  }

  /** Only a number that ends leaves its last character to be seen again. */
  lemma UsedUp(m: Machine, c: char)
    ensures !StepComment(m, c).ret.Failed? ==> !StepComment(m, c).stay
    ensures !StepBare(m, c).ret.Failed? ==> !StepBare(m, c).stay
    ensures !StepNum(m, c).ret.Failed? ==> (StepNum(m, c).stay <==> StepNum(m, c).ret.Got?)
    ensures !StepQuote(m, c).ret.Failed? ==> !StepQuote(m, c).stay
    ensures !StepEsc(m, c).ret.Failed? ==> !StepEsc(m, c).stay
    ensures !StepClose(m, c).ret.Failed? ==> !StepClose(m, c).stay
    ensures !StepAfterVal(m, c).ret.Failed? ==> !StepAfterVal(m, c).stay
    ensures !StepKey(m, c).ret.Failed? ==> !StepKey(m, c).stay
  {
    hide NumberKind, UnescapeChar, Plain;
  }

  lemma InvCtxs(m: Machine)
    requires Inv(m) && (m.mode == ValFirst || m.mode == KeyFirst || m.mode == CloseBrace || m.mode == RmCtx)
    ensures m.ctxs != []
  {
  }

  class Reader {
    var state: Mode
    var nextst: Mode
    var kind: Kind
    var surrogate: bool
    const esc: array<char>
    var escLen: nat
    var hiword: int
    var word: int
    var ctxs: seq<Kind>
    var buf: string
    var intval: int

    /** The machine, with the mode and the next mode that the loop keeps in local variables. */
    ghost function With(st: Mode, next: Mode): Machine
      requires escLen <= esc.Length
      reads this, esc
    {
      Machine(st, next, kind, surrogate, esc[..escLen], hiword, word, ctxs, buf, intval)
    }

    ghost predicate Valid()
      reads this, esc
    {
      esc.Length == 5 && escLen <= 5 && Inv(With(state, nextst))
    }

    /** ffjson_parseinit */
    constructor ()
      ensures Valid() && With(state, nextst) == Init()
    {
      state, nextst, kind, surrogate := Space, Val, TNull, false;
      escLen, hiword, word, ctxs, buf, intval := 0, 0, 0, [], "", 0;
      esc := new char[5];
    }

    /** true, false or null */
    method HdlValBare(ch: char, ghost next: Mode) returns (er: Ret)
      requires escLen <= 5 == esc.Length && Inv(With(Bare, next))
      modifies this`buf, this`kind, this`intval
      ensures Turned(
        if er.Got? then With(Space, AfterVal) else With(Bare, next), er, StepBare(old(With(Bare, next)), ch))
    {
      var i := |buf|;
      buf := buf + [ch];
      er := More;
      if ch != WORDS[word][i] {
        return Failed(EBadVal);
      }
      if i + 1 == |WORDS[word]| {
        kind := if word == 2 then TNull else TBool;
        intval := if word == 0 then 1 else 0;
        er := Got(Value(kind, buf, if kind == TBool then intval else 0));
      }
    }

    /** An integer, or a floating-point number. */
    method HdlValBareNum(ch: char, ghost next: Mode) returns (er: Ret)
      requires escLen <= 5 == esc.Length
      modifies this`buf, this`kind, this`intval
      ensures Turned(
        if er.Got? then With(Space, AfterVal) else With(Num, next), er, StepNum(old(With(Num, next)), ch))
    {
      hide ReadInt, IsFloat, NumberKind;
      er := More;
      if !IsNumberChar(ch) {
        if |buf| == 0 {
          return Failed(ENoVal);
        }
        var n, v := ToInt(buf);
        ReadAll(buf);
        if n == |buf| {
          kind, intval := TInt, v;
        } else if IsFloat(buf) {
          kind, intval := TNum, 0;
        } else {
          return Failed(EBadVal);
        }
        er := Got(Value(kind, buf, if kind == TInt then intval else 0));
      } else {
        buf := buf + [ch];
      }
    }

    method HdlQuote(ch: char, st: Mode, next: Mode) returns (er: Ret, st2: Mode, next2: Mode)
      requires escLen <= 5 == esc.Length
      modifies this`buf, this`kind, this`escLen
      ensures escLen <= 5
      ensures Turned(With(st2, next2), er, StepQuote(old(With(st, next)), ch))
    {
      ghost var m := With(st, next);
      st2, next2, er := Quote, next, More;
      if ch == '"' {
        kind := TStr;
        st2 := Space;
        if next == Key {
          next2 := AfterKey;
          er := Got(KeyName(buf));
        } else {
          next2 := AfterVal;
          er := Got(Value(TStr, buf, 0));
        }
      } else if ch == '\\' {
        escLen := 0;
        st2 := QuoteEsc;
      } else if ch == '\n' {
        er := Failed(EBadChar);
      } else {
        buf := buf + [ch];
      }
      if surrogate && st2 != QuoteEsc {
        er := Failed(EEsc);
      }
      ghost var t := StepQuote(m, ch);
      hide StepQuote;
      assert er == t.ret;
      if !er.Failed? { assert With(st2, next2) == t.m; }
    }

    method HdlEsc(ch: char, next: Mode) returns (er: Ret, st2: Mode)
      requires escLen <= 5 == esc.Length
      modifies this`buf, this`escLen, this`surrogate, this`hiword, esc
      ensures escLen <= 5
      ensures Turned(With(st2, next), er, StepEsc(old(With(QuoteEsc, next)), ch))
    {
      hide UnescapeChar, Plain;
      st2, er := QuoteEsc, More;
      if escLen >= 5 {
        return Failed(EEsc), st2;
      }
      esc[escLen] := ch;
      escLen := escLen + 1;
      assert esc[..escLen] == old(esc[..escLen]) + [ch];
      var r := UnescapeChar(esc[..escLen]);
      match r {
        case Invalid => return Failed(EEsc), st2;
        case Incomplete => return More, st2;
        case Code(u, _) =>
          var uch := u;
          if !(0xD800 <= uch < 0xE000) {
          } else if uch < 0xDC00 {
            if surrogate {
              return Failed(EEsc), st2;
            }
            surrogate := true;
            hiword := uch;
            return More, Quote;
          } else {
            if !surrogate {
              return Failed(EEsc), st2;
            }
            surrogate := false;
            uch := 0x1_0000 + (hiword - 0xD800) * 0x400 + (uch - 0xDC00);
            hiword := 0;
          }
          buf := buf + Plain(uch);
          st2 := Quote;
      }
    }

    /** json_cmt */
    method Comment(ch: char, st: Mode) returns (er: Ret, st2: Mode)
      requires st == CmtBegin || st == CmtLine || st == CmtMulti || st == CmtSlash
      ensures forall m: Machine :: m.mode == st ==> Turned(m.(mode := st2), er, StepComment(m, ch))
    {
      st2, er := st, More;
      match st {
        case CmtBegin =>
          if ch == '/' {
            st2 := CmtLine;
          } else if ch == '*' {
            st2 := CmtMulti;
          } else {
            er := Failed(EBadCmt);
          }
        case CmtLine =>
          if ch == '\n' {
            st2 := Space;
          }
        case CmtMulti =>
          if ch == '*' {
            st2 := CmtSlash;
          }
        case _ =>
          st2 := if ch == '/' then Space else CmtMulti;
      }
    }

    method HdlCloseBrace(ch: char, ghost st: Mode, ghost next: Mode) returns (er: Ret, st2: Mode)
      requires escLen <= 5 == esc.Length && ctxs != []
      modifies this`kind
      ensures Turned(With(st2, next), er, StepClose(old(With(st, next)), ch))
    {
      if ctxs[|ctxs| - 1] != CtxKind(ch) {
        return Failed(EBadBrace), CloseBrace;
      }
      kind := CtxKind(ch);
      return Got(Close(kind)), RmCtx;
    }

    method HdlAfterVal(ch: char, next: Mode) returns (er: Ret, st2: Mode, next2: Mode)
      requires escLen <= 5 == esc.Length
      modifies this`buf, this`intval, this`kind
      ensures Turned(With(st2, next2), er, StepAfterVal(old(With(AfterVal, next)), ch))
    {
      er, st2, next2 := More, AfterVal, next;
      buf, intval := "", 0;
      if |ctxs| == 0 {
        return Failed(EBadChar), st2, next2;
      }
      if ch == ',' {
        st2 := Space;
        next2 := if ctxs[|ctxs| - 1] == TArr then Val else Key;
      } else if ch != ']' && ch != '}' {
        er := Failed(EBadChar);
      } else {
        hide StepClose;
        er, st2 := HdlCloseBrace(ch, AfterVal, next);
      }
    }

    method HdlVal(ch: char, next: Mode) returns (er: Ret, st2: Mode, next2: Mode, again: bool)
      requires escLen <= 5 == esc.Length
      modifies this`kind, this`word
      ensures var t := StepVal(old(With(Val, next)), ch); Turned(With(st2, next2), er, t) && again == t.stay
    {
      er, st2, next2, again := More, Val, next, false;
      if ch == '"' {
        st2, next2 := QuoteFirst, Val;
      } else if ch == '[' || ch == '{' {
        st2 := NewCtx;
        kind := CtxKind(ch);
        er := Got(Open(kind));
        next2 := if ch == '[' then ValFirst else KeyFirst;
      } else {
        var t := WordOf(ch);
        st2 := if t >= 0 then Bare else Num;
        word := t;
        again := true;
      }
    }

    method HdlKey(ch: char, next: Mode) returns (er: Ret, st2: Mode, next2: Mode)
      requires escLen <= 5 == esc.Length
      ensures Turned(With(st2, next2), er, StepKey(With(Key, next), ch))
    {
      er, st2, next2 := More, Key, next;
      if ch == '"' {
        st2, next2 := QuoteFirst, Key;
      } else {
        er := Failed(EBadChar);
      }
    }

    /** The switch of ffjson_parse; 'again': the character has not been used up. */
    method Switch(ch: char, st: Mode, next: Mode) returns (er: Ret, st2: Mode, next2: Mode, again: bool)
      requires escLen <= 5 == esc.Length && Inv(With(st, next))
      modifies this, esc
      ensures escLen <= 5
      ensures
        var t := Step(old(With(st, next)), ch);
        Turned(With(st2, next2), er, t) && (!er.Failed? ==> again == t.stay)
    {
      hide StepComment, StepBare, StepNum, StepQuote, StepEsc, StepClose, StepAfterVal, StepVal, StepKey, Inv;
      UsedUp(With(st, next), ch);
      er, st2, next2, again := More, st, next, false;
      match st {
        case Space =>
          if !IsSpace(ch) {
            if ch == '/' {
              st2 := CmtBegin;
            } else {
              st2, next2, again := next, Nowhere, true;
            }
          }
        case CmtBegin =>
          er, st2 := Comment(ch, st);
        case CmtLine =>
          er, st2 := Comment(ch, st);
        case CmtMulti =>
          er, st2 := Comment(ch, st);
        case CmtSlash =>
          er, st2 := Comment(ch, st);
        case ValFirst =>
          if ch == ']' {
            st2, again := CloseBrace, true;
          } else {
            er, st2, next2, again := HdlVal(ch, next);
          }
        case Val =>
          er, st2, next2, again := HdlVal(ch, next);
        case Bare =>
          er := HdlValBare(ch, next);
          if er.Got? {
            st2, next2 := Space, AfterVal;
          }
        case Num =>
          er := HdlValBareNum(ch, next);
          if er.Got? {
            st2, next2, again := Space, AfterVal, true;
          }
        case QuoteFirst =>
          er, st2, next2 := HdlQuote(ch, st, next);
        case Quote =>
          er, st2, next2 := HdlQuote(ch, st, next);
        case QuoteEsc =>
          er, st2 := HdlEsc(ch, next);
        case AfterVal =>
          er, st2, next2 := HdlAfterVal(ch, next);
        case CloseBrace =>
          InvCtxs(With(st, next));
          er, st2 := HdlCloseBrace(ch, st, next);
        case NewCtx =>
          ctxs := ctxs + [kind];
          st2, again := Space, true;
        case RmCtx =>
          InvCtxs(With(st, next));
          st2, next2, again := Space, AfterVal, true;
          ctxs := ctxs[..|ctxs| - 1];
        case KeyFirst =>
          if ch == '}' {
            st2, again := CloseBrace, true;
          } else {
            UsedUp(With(Key, next), ch);
            er, st2, next2 := HdlKey(ch, next);
          }
        case Key =>
          er, st2, next2 := HdlKey(ch, next);
        case AfterKey =>
          buf, intval := "", 0;
          if ch == ':' {
            st2, next2 := Space, Val;
          } else {
            er := Failed(EKvSep);
          }
        case Nowhere =>
      }
    }

    /** ffjson_parse: the next event, error, or the end of the buffer, after 'n' characters. */
    method Parse(data: string) returns (er: Ret, n: nat)
      requires Valid()
      modifies this, esc
      ensures !er.Failed? ==> Valid()
      ensures escLen <= esc.Length && Agree(With(state, nextst), er, n, Advance(old(With(state, nextst)), data))
    {
      hide Step, Inv, Rank, Advance;
      ghost var m0 := With(state, nextst);
      var st, next := state, nextst;
      n, er := 0, More;
      assert data[0..] == data && Later(Advance(m0, data), 0) == Advance(m0, data);
      while n < |data|
        invariant n <= |data| && er == More && escLen <= 5 == esc.Length && Inv(With(st, next))
        invariant Advance(m0, data) == Later(Advance(With(st, next), data[n..]), n)
        decreases |data| - n, Rank(With(st, next))
      {
        ghost var m, s := With(st, next), data[n..];
        var again: bool;
        StepKeeps(m, data[n]);
        er, st, next, again := Switch(data[n], st, next);
        ParseStep(m, data, n);
        if !er.More? {
          if er.Got? && !again {
            n := n + 1;
          }
          break;
        }
        if !again {
          n := n + 1;
        }
      }
      if n == |data| && er == More { AdvanceEnd(With(st, next), data[n..]); }
      state, nextst := st, next;
    }
  }

  /** The character an error is about is not used up. */
  lemma FailedStays(m: Machine, c: char)
    ensures Step(m, c).ret.Failed? ==> Step(m, c).stay
  {
    hide NumberKind, UnescapeChar, Plain, Inv;
  }

  lemma AdvanceEnd(m: Machine, s: string)
    requires Inv(m) && s == ""
    ensures Advance(m, s) == Call(m, More, 0)
  {
  }

  /** The same call, made 'k' characters later. */
  function Later(r: Call, k: nat): Call {
    Call(r.m, r.ret, r.n + k)
  }

  lemma ParseStep(m: Machine, data: string, n: nat)
    requires Inv(m) && n < |data|
    ensures
      var t := Step(m, data[n]);
      var k := if t.stay then n else n + 1;
      && (if t.ret.Failed? then t.stay else Inv(t.m))
      && Later(Advance(m, data[n..]), n) == if t.ret.More? then Later(Advance(t.m, data[k..]), k) else Call(t.m, t.ret, k)
  {
    StepKeeps(m, data[n]);
    FailedStays(m, data[n]);
    var t := Step(m, data[n]);
    assert data[n..][1..] == data[n + 1..];
    hide Step;
  }
}
