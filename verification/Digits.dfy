/**
 * Decimal integers: ffs_fromint and ffs_toint for signed 64-bit numbers, against the value of a
 * string of digits.
 */
module Digits {
  import opened Wrappers

  const TWO63 := 0x8000_0000_0000_0000
  const TWO64 := 0x1_0000_0000_0000_0000

  predicate IsDigit(c: char) {
    '0' <= c <= '9'
  }

  function DigitValue(c: char): nat
    requires IsDigit(c)
  {
    c as int - '0' as int
  }

  function DigitChar(d: nat): (c: char)
    requires d < 10
    ensures IsDigit(c) && DigitValue(c) == d
  {
    ('0' as int + d) as char
  }

  predicate AllDigits(s: string) {
    forall i :: 0 <= i < |s| ==> IsDigit(s[i])
  }

  /** The number a string of digits stands for. */
  function Value(s: string): nat
    requires AllDigits(s)
  {
    if s == "" then 0 else Value(s[..|s| - 1]) * 10 + DigitValue(s[|s| - 1])
  }

  /** The digits of a number, without leading zeros. */
  function Decimal(n: nat): (s: string)
    ensures s != "" && AllDigits(s)
  {
    if n < 10 then [DigitChar(n)] else Decimal(n / 10) + [DigitChar(n % 10)]
  }

  lemma {:induction false} ValueOfDecimal(n: nat)
    ensures Value(Decimal(n)) == n
  {
    if n >= 10 {
      ValueOfDecimal(n / 10);
      var s := Decimal(n / 10);
      assert (s + [DigitChar(n % 10)])[..|s|] == s;
    } else {
      assert [DigitChar(n)][..0] == "";
    }
  }

  function Pow10(k: nat): nat {
    if k == 0 then 1 else 10 * Pow10(k - 1)
  }

  lemma {:induction false} DecimalLength(n: nat, k: nat)
    requires k > 0 && n < Pow10(k)
    ensures |Decimal(n)| <= k
  {
    if n >= 10 {
      assert k > 1 && n / 10 < Pow10(k - 1);
      DecimalLength(n / 10, k - 1);
    }
  }

  /** The text of an int64. */
  function Text(i: int): string {
    if i < 0 then "-" + Decimal(-i) else Decimal(i)
  }

  lemma TextLength(i: int)
    requires -TWO63 <= i < TWO63
    ensures 1 <= |Text(i)| <= 20
  {
    assert Pow10(10) == 10000000000;
    assert Pow10(19) == Pow10(10) * 1000000000 by {
      assert Pow10(15) == Pow10(10) * 100000;
      assert Pow10(19) == Pow10(15) * 10000;
    }
    DecimalLength(if i < 0 then -i else i, 19);
  }

  /** _ffs_fromint_dec: digits are put down from the last to the first. */
  method FromDecimal(n: nat) returns (s: string)
    requires n < TWO64
    ensures s == Decimal(n)
  {
    var i := n;
    s := [DigitChar(i % 10)];
    i := i / 10;
    assert n < 10 ==> Decimal(n) == s;
    while i != 0
      invariant Decimal(n) == if i == 0 then s else Decimal(i) + s
    {
      assert i >= 10 ==> Decimal(i) + s == Decimal(i / 10) + ([DigitChar(i % 10)] + s);
      s := [DigitChar(i % 10)] + s;
      i := i / 10;
    }
  }

  /** ffs_fromint with FFINT_SIGNED, for a buffer with room for all of it. */
  method FromInt(i: int) returns (s: string)
    requires -TWO63 <= i < TWO63
    ensures s == Text(i)
  {
    var n, minus := i, false;
    if i < 0 {
      n, minus := -i, true;
    }
    s := FromDecimal(n);
    if minus {
      s := "-" + s;
    }
  }

  // ----- reading -----

  /** How many digits there are at 'i'. */
  function Span(s: string, i: nat): (n: nat)
    requires i <= |s|
    ensures i + n <= |s| && AllDigits(s[i..i + n])
    ensures i + n < |s| ==> !IsDigit(s[i + n])
    decreases |s| - i
  {
    if i == |s| || !IsDigit(s[i]) then 0
    else
      var n := Span(s, i + 1);
      assert s[i..i + 1 + n] == [s[i]] + s[i + 1..i + 1 + n];
      n + 1
  }

  /** What is left of a number in 64 bits. */
  function Wrap(n: nat): (r: nat)
    ensures r < TWO64
  {
    n % TWO64
  }

  function SignOf(s: string): nat {
    if s != "" && (s[0] == '-' || s[0] == '+') then 1 else 0
  }

  /**
   * A signed 64-bit number at the front of 's': how much of 's' it takes, and the number.  From 21
   * digits on there is none; a value of 20 digits wraps at 2^64 before it is tested against 2^63.
   */
  function ReadInt(s: string): Option<(nat, int)> {
    var from := SignOf(s);
    var n := Span(s, from);
    var r: int := Wrap(Value(s[from..from + n]));
    if n == 0 || n > 20 || r >= TWO63 then None
    else Some((from + n, if from == 1 && s[0] == '-' then -r else r))
  }

  /** ffs_toint with FFS_INT64 and FFS_INTSIGN: the number of characters read, 0 if it fails. */
  method ToInt(s: string) returns (n: nat, value: int)
    ensures n == 0 <==> ReadInt(s).None?
    ensures n > 0 ==> ReadInt(s) == Some((n, value))
  {
    hide Value, Span, AllDigits, Wrap, ReadInt;
    var i, minus := 0, false;
    if |s| > 0 && (s[0] == '-' || s[0] == '+') {
      minus := s[0] == '-';
      i := i + 1;
    }
    var r, digits := 0, 0;
    ghost var from := i;
    NoValue(s, i);
    while i < |s| && IsDigit(s[i])
      invariant from <= i <= |s| && digits == i - from <= 20
      invariant digits + Span(s, i) == Span(s, from)
      invariant AllDigits(s[from..i]) && r == Wrap(Value(s[from..i]))
    {
      SpanNext(s, i);
      if digits == 20 {
        ReadNone(s);
        return 0, 0;
      }
      ValueNext(s, from, i);
      WrapStep(Value(s[from..i]), DigitValue(s[i]));
      digits := digits + 1;
      r := Wrap(r * 10 + DigitValue(s[i]));
      i := i + 1;
    }
    SpanEnd(s, i);
    if digits == 0 {
      ReadNone(s);
      return 0, 0;
    }
    ReadSome(s, i, r);
    if r / TWO63 != 0 {
      return 0, 0;
    }
    return i, if minus then -r else r;
  }

  lemma ReadNone(s: string)
    requires Span(s, SignOf(s)) == 0 || Span(s, SignOf(s)) > 20
    ensures ReadInt(s) == None
  {
  }

  lemma ReadSome(s: string, i: nat, r: int)
    requires SignOf(s) < i <= |s| && Span(s, SignOf(s)) == i - SignOf(s) <= 20
    requires AllDigits(s[SignOf(s)..i]) && r == Wrap(Value(s[SignOf(s)..i]))
    ensures r < TWO63 <==> ReadInt(s).Some?
    ensures r < TWO63 ==> ReadInt(s) == Some((i, if s[0] == '-' then -r else r))
  {
    hide Value, Span, AllDigits, Wrap;
  }

  lemma NoValue(s: string, i: nat)
    requires i <= |s|
    ensures AllDigits(s[i..i]) && Value(s[i..i]) == 0 && Wrap(0) == 0
  {
  }

  lemma ValueNext(s: string, from: nat, i: nat)
    requires from <= i < |s| && AllDigits(s[from..i]) && IsDigit(s[i])
    ensures AllDigits(s[from..i + 1]) && Value(s[from..i + 1]) == Value(s[from..i]) * 10 + DigitValue(s[i])
  {
    assert s[from..i + 1][..i - from] == s[from..i];
  }

  lemma SpanNext(s: string, i: nat)
    requires i < |s| && IsDigit(s[i])
    ensures Span(s, i) == Span(s, i + 1) + 1
  {
  }

  lemma SpanEnd(s: string, i: nat)
    requires i <= |s|
    ensures i == |s| || !IsDigit(s[i]) ==> Span(s, i) == 0
  {
  }

  lemma WrapStep(v: nat, d: nat)
    ensures Wrap(Wrap(v) * 10 + d) == Wrap(v * 10 + d)
  {
    var q := v / TWO64;
    assert v * 10 + d == (v % TWO64 * 10 + d) + (q * 10) * TWO64;
  }

  /** Printed and read back: any int64 but the least. */
  lemma ReadOfText(i: int)
    requires -TWO63 <= i < TWO63
    ensures i > -TWO63 ==> ReadInt(Text(i)) == Some((|Text(i)|, i))
    ensures i == -TWO63 ==> ReadInt(Text(i)) == None
  {
    var s, n := Text(i), if i < 0 then -i else i;
    var from := SignOf(s);
    assert s[from..] == Decimal(n);
    assert forall k :: from <= k < |s| ==> s[k] == Decimal(n)[k - from];
    SpanAll(s, from);
    ValueOfDecimal(n);
    TextLength(i);
    assert s[from..|s|] == Decimal(n);
    hide Decimal, Span, Value, AllDigits, ReadInt;
    Wrapped(n);
    ReadSome(s, |s|, n);
  }

  /** The number that is written at the front of 's', sign included. */
  function WrittenAt(s: string): int {
    var v: int := Value(s[SignOf(s)..SignOf(s) + Span(s, SignOf(s))]);
    if SignOf(s) == 1 && s[0] == '-' then -v else v
  }

  /** A number that is read is the number written if and only if its digits are below 2^63. */
  lemma ReadOfDigits(s: string)
    requires ReadInt(s).Some?
    ensures
      var (from, n) := (SignOf(s), Span(s, SignOf(s)));
      && ReadInt(s).value.0 == from + n
      && (ReadInt(s).value.1 == WrittenAt(s) <==> Value(s[from..from + n]) < TWO63)
  {
    var v := Value(s[SignOf(s)..SignOf(s) + Span(s, SignOf(s))]);
    Wrapped(v);
  }

  lemma Wrapped(v: nat)
    ensures Wrap(v) == v <==> v < TWO64
  {
  }

  /** 2^64 + 1 is read as 1. */
  lemma ReadWrong()
    ensures ReadInt(Decimal(TWO64 + 1)).Some? && ReadInt(Decimal(TWO64 + 1)).value.1 == 1
  {
    var s := Decimal(TWO64 + 1);
    ValueOfDecimal(TWO64 + 1);
    Pow10Of20();
    DecimalLength(TWO64 + 1, 20);
    SpanAll(s, 0);
    assert s[0..|s|] == s;
  }

  /** And -(2^64 + 1) as -1. */
  lemma ReadWrongSigned()
    ensures ReadInt("-" + Decimal(TWO64 + 1)).Some? && ReadInt("-" + Decimal(TWO64 + 1)).value.1 == -1
  {
    var t := Decimal(TWO64 + 1);
    var s := "-" + t;
    ValueOfDecimal(TWO64 + 1);
    Pow10Of20();
    DecimalLength(TWO64 + 1, 20);
    assert forall k :: 1 <= k < |s| ==> s[k] == t[k - 1];
    SpanAll(s, 1);
    assert s[1..|s|] == t;
    hide Decimal, Value, Span, AllDigits;
    ReadSome(s, |s|, 1);
  }

  lemma Pow10Of20()
    ensures Pow10(20) == 100000000000000000000
  {
    assert Pow10(5) == 100000;
    assert Pow10(10) == 100000 * Pow10(5);
    assert Pow10(15) == 100000 * Pow10(10);
    assert Pow10(20) == 100000 * Pow10(15);
  }

  lemma {:induction false} SpanAll(s: string, i: nat)
    requires i <= |s| && forall k :: i <= k < |s| ==> IsDigit(s[k])
    ensures Span(s, i) == |s| - i
    decreases |s| - i
  {
    if i < |s| { SpanAll(s, i + 1); }
  }
}
