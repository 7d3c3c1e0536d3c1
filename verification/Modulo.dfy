/**
 * Indices that go round: remainders modulo a capacity.  The program masks with a capacity that is
 * a power of two, on unsigned words; for those MaskIsRemainder and WordMask say that it is the same.
 */
module Modulo {

  predicate PowerOfTwo(n: nat) {
    n == 1 || (n > 0 && n % 2 == 0 && PowerOfTwo(n / 2))
  }

  /** Bitwise and. */
  function And(x: nat, y: nat): nat {
    if x == 0 || y == 0 then 0 else 2 * And(x / 2, y / 2) + (x % 2) * (y % 2)
  }

  lemma {:induction false} AndSelf(x: nat)
    ensures And(x, x) == x
  {
    if x > 0 {
      AndSelf(x / 2);
      assert (x % 2) * (x % 2) == x % 2;
    }
  }

  /** The test that ffring_init and ffringbuf_init make of a capacity. */
  lemma {:induction false} PowerTest(cap: nat)
    requires cap > 0
    ensures And(cap, cap - 1) == 0 <==> PowerOfTwo(cap)
  {
    if cap > 1 {
      if cap % 2 == 0 {
        PowerTest(cap / 2);
        assert (cap - 1) / 2 == cap / 2 - 1;
      } else {
        AndSelf(cap / 2);
        assert (cap - 1) / 2 == cap / 2 && (cap - 1) % 2 == 0;
      }
    }
  }

  /** Doubling a number and its divisor. */
  lemma DoubleMod(h: nat, b: nat, c: nat)
    requires c > 0 && b < 2
    ensures (2 * h + b) % (2 * c) == 2 * (h % c) + b
  {
    var q, m := h / c, h % c;
    assert 2 * h + b == q * (2 * c) + (2 * m + b);
    Unique(2 * h + b, q, 2 * m + b, 2 * c);
  }

  lemma AndDouble(h: nat, b: nat, g: nat)
    requires b < 2
    ensures And(2 * h + b, 2 * g + 1) == 2 * And(h, g) + b
  {
    assert (2 * h + b) / 2 == h && (2 * h + b) % 2 == b && (2 * g + 1) / 2 == g && (2 * g + 1) % 2 == 1;
  }

  lemma {:induction false} MaskIsRemainder(x: nat, cap: nat)
    requires PowerOfTwo(cap)
    ensures And(x, cap - 1) == x % cap
    decreases cap
  {
    if cap > 1 {
      var h, b, c := x / 2, x % 2, cap / 2;
      assert x == 2 * h + b && cap == 2 * c;
      assert cap - 1 == 2 * (c - 1) + 1;
      MaskIsRemainder(h, c);
      AndDouble(h, b, c - 1);
      DoubleMod(h, b, c);
    }
  }

  lemma {:induction false} PowersDivide(cap: nat, word: nat)
    requires PowerOfTwo(cap) && PowerOfTwo(word) && cap <= word
    ensures word % cap == 0
  {
    if cap > 1 {
      PowersDivide(cap / 2, word / 2);
      var q := word / 2 / (cap / 2);
      assert word == q * cap;
      Unique(word, q, 0, cap);
    }
  }

  /** A number wrapped to an unsigned word and then masked: a difference of indices, say. */
  lemma WordMask(x: int, cap: nat, word: nat)
    requires PowerOfTwo(cap) && PowerOfTwo(word) && cap <= word
    ensures And(x % word, cap - 1) == Mod(x, cap)
  {
    MaskIsRemainder(x % word, cap);
    PowersDivide(cap, word);
    ModMod(x, cap, word);
  }

  lemma ModMod(x: int, cap: nat, word: nat)
    requires cap > 0 && word > 0 && word % cap == 0
    ensures x % word % cap == Mod(x, cap)
  {
    var y, q, k := x % word, x / word, word / cap;
    assert word == k * cap && x == q * word + y;
    Across(q, k, cap);
    Unique(x, q * k + y / cap, y % cap, cap);
  }

  lemma Across(q: int, k: int, cap: nat)
    ensures q * (k * cap) == (q * k) * cap
  {
  }

  /** ffint_increset2 */
  function Next(n: nat, cap: nat): (m: nat)
    requires cap > 0
    ensures m < cap && (PowerOfTwo(cap) ==> m == And(n + 1, cap - 1))
  {
    if PowerOfTwo(cap) then MaskIsRemainder(n + 1, cap); (n + 1) % cap else
    (n + 1) % cap
  }

  /** A remainder, for use where the arithmetic behind it is of no interest. */
  function Mod(n: int, cap: nat): (m: nat)
    requires cap > 0
    ensures m < cap
  {
    n % cap
  }

  lemma Far(d: int, cap: nat)
    ensures d > 0 ==> d * cap >= cap
    ensures d < 0 ==> d * cap <= 0 - cap
  {
  }

  /** A quotient and a remainder are unique. */
  lemma Unique(x: int, q: int, m: int, cap: nat)
    requires x == q * cap + m && 0 <= m < cap
    ensures x % cap == m && x / cap == q
  {
    var d := q - x / cap;
    assert d * cap == x % cap - m;
    Far(d, cap);
  }

  /** Indices less than a lap apart are equal when their remainders are. */
  lemma SameLap(a: int, b: int, cap: nat)
    requires cap > 0 && a % cap == b % cap && 0 - cap < a - b < cap
    ensures a == b
  {
    var d := a / cap - b / cap;
    assert d * cap == a - b;
    Far(d, cap);
  }

  /** Adding to a remainder or to the number itself makes no difference. */
  lemma AddMod(n: int, k: int, cap: nat)
    requires cap > 0
    ensures (n % cap + k) % cap == (n + k) % cap
  {
    var x := n % cap + k;
    var q := n / cap + x / cap;
    assert n + k == q * cap + x % cap by {
      assert q * cap == (n / cap) * cap + (x / cap) * cap;
    }
    Unique(n + k, q, x % cap, cap);
  }

  lemma ModAdd(n: int, k: int, cap: nat)
    requires cap > 0
    ensures Mod(Mod(n, cap) + k, cap) == Mod(n + k, cap)
  {
    AddMod(n, k, cap);
  }

  lemma ModSmall(x: int, cap: nat)
    requires cap > 0 && 0 - cap <= x < 2 * cap
    ensures Mod(x, cap) == if x < 0 then x + cap else if x < cap then x else x - cap
  {
    var q := if x < 0 then -1 else if x < cap then 0 else 1;
    Unique(x, q, x - q * cap, cap);
  }

  lemma ModRound(x: int, cap: nat)
    requires cap > 0
    ensures Mod(x + cap, cap) == Mod(x, cap)
  {
    Unique(x + cap, x / cap + 1, x % cap, cap);
  }
}
