/** Rounding to double precision: 53 significant bits, to the nearest, a tie to the even one.

    The limits of the exponent are left out; no number the scheduler computes comes near them. */
module Doubles {

  /** Two to the power of `e`. */
  function Scale(e: int): (s: real)
    ensures 0.0 < s
    decreases if 0 <= e then e else -e
  {
    if e == 0 then 1.0 else if 0 < e then 2.0 * Scale(e - 1) else Scale(e + 1) / 2.0
  }

  /** The doubles around `x` are the multiples of `Scale(e)`. */
  predicate InBinade(x: real, e: int) {
    Scale(52 + e) <= x < Scale(53 + e)
  }

  function RoundToEven(t: real): int {
    var (low, rest) := (t.Floor, t - t.Floor as real);
    if rest < 0.5 || (rest == 0.5 && low % 2 == 0) then low else low + 1
  }

  ghost function Magnitude(x: real): real
    requires 0.0 <= x
  {
    if x == 0.0 then 0.0
    else
      HasBinade(x);
      var e :| InBinade(x, e);
      RoundToEven(x / Scale(e)) as real * Scale(e)
  }

  ghost function Double(x: real): real {
    if x < 0.0 then -Magnitude(-x) else Magnitude(x)
  }

  // ---------------------------------------------------------------------------------------------
  // Powers of two
  // ---------------------------------------------------------------------------------------------

  lemma {:induction false} ScaleNext(e: int)
    ensures Scale(e + 1) == 2.0 * Scale(e)
  {
  }

  lemma {:induction false} ScaleMonotone(a: int, b: int)
    requires a <= b
    ensures Scale(a) <= Scale(b)
    decreases b - a
  {
    if a < b {
      ScaleMonotone(a, b - 1);
      ScaleNext(b - 1);
    }
  }

  lemma {:induction false} TimesAssociate(a: real, b: real, c: real)
    ensures a * (b * c) == (a * b) * c
  {
  }

  lemma {:induction false} ScaleSum(a: int, n: int)
    requires 0 <= n
    ensures Scale(a + n) == Scale(a) * Scale(n)
    decreases n
  {
    hide Scale;
    if n == 0 {
      assert Scale(0) == 1.0 by { ScaleZero(); }
    } else {
      ScaleSum(a, n - 1);
      ScaleNext(n - 1);
      assert Scale(a + n) == 2.0 * Scale(a + (n - 1)) by { ScaleNext(a + (n - 1)); }
      TwiceProduct(Scale(a), Scale(n - 1));
    }
  }

  lemma {:induction false} ScaleZero()
    ensures Scale(0) == 1.0
  {
  }

  lemma {:induction false} TwiceProduct(a: real, b: real)
    ensures a * (2.0 * b) == 2.0 * (a * b)
  {
  }

  /** Up to 2^53 the powers of two are these. */
  lemma {:induction false} ScaleTable()
    ensures Scale(9) == 512.0 && Scale(10) == 1024.0 && Scale(43) == 8796093022208.0
    ensures Scale(52) == 4503599627370496.0 && Scale(53) == 9007199254740992.0
  {
    assert Scale(5) == 32.0;
    hide Scale;
    ScaleSum(5, 5);
    assert Scale(10) == 1024.0;
    ScaleNext(9);
    ScaleSum(10, 10);
    assert Scale(20) == 1048576.0;
    ScaleSum(20, 20);
    assert Scale(40) == 1099511627776.0;
    ScaleNext(40);
    ScaleNext(41);
    ScaleNext(42);
    ScaleSum(40, 10);
    assert Scale(50) == 1125899906842624.0;
    ScaleNext(50);
    ScaleNext(51);
    ScaleNext(52);
  }

  /** A power of two and its inverse. */
  lemma {:induction false} ScaleInverse(n: int)
    requires 0 <= n
    ensures Scale(-n) * Scale(n) == 1.0
  {
    ScaleSum(-n, n);
    assert -n + n == 0;
  }

  /** From 0 on the powers of two are whole and larger than their exponents. */
  lemma {:induction false} ScaleWhole(n: nat) returns (p: nat)
    ensures p as real == Scale(n) && n < p
  {
    assert Scale(0) == 1.0;
    hide Scale;
    p := 1;
    for k := 0 to n
      invariant p as real == Scale(k) && k < p
    {
      ScaleNext(k);
      p := 2 * p;
    }
  }

  // ---------------------------------------------------------------------------------------------
  // Binades
  // ---------------------------------------------------------------------------------------------

  /** A positive number lies above some power of two and below another. */
  lemma {:induction false} Between(x: real) returns (low: int, high: int)
    requires 0.0 < x
    ensures Scale(low) <= x < Scale(high)
  {
    hide Scale;
    var above := x.Floor + 1;
    var p := ScaleWhole(above);
    high := above;
    var below := (1.0 / x).Floor + 1;
    var q := ScaleWhole(below);
    low := -below;
    ScaleInverse(below);
    InverseBelow(x, Scale(low), Scale(below));
  }

  lemma {:induction false} InverseBelow(x: real, s: real, t: real)
    requires 0.0 < x && 0.0 < s && s * t == 1.0 && 1.0 / x <= t
    ensures s <= x
  {
    var i := 1.0 / x;
    assert i * x == 1.0;
    assert 1.0 <= t * x by { TimesMonotone(i, t, x); }
    TimesMonotone(1.0, t * x, s);
    TimesAssociate(s, t, x);
    assert (t * x) * s == s * (t * x);
  }

  lemma {:induction false} HasBinade(x: real)
    requires 0.0 < x
    ensures exists e :: InBinade(x, e)
  {
    hide Scale;
    var low, high := Between(x);
    var k := low;
    while Scale(k + 1) <= x
      invariant Scale(k) <= x
      decreases high - k
    {
      if high <= k {
        ScaleMonotone(high, k);
      }
      k := k + 1;
    }
    assert InBinade(x, k - 52);
  }

  lemma {:induction false} BinadeUnique(x: real, e: int, f: int)
    requires InBinade(x, e) && InBinade(x, f)
    ensures e == f
  {
    hide Scale;
    if e < f {
      ScaleMonotone(53 + e, 52 + f);
    } else if f < e {
      ScaleMonotone(53 + f, 52 + e);
    }
  }

  lemma {:induction false} DoubleIn(x: real, e: int)
    requires 0.0 <= x && InBinade(x, e)
    ensures Double(x) == RoundToEven(x / Scale(e)) as real * Scale(e)
  {
    forall f | InBinade(x, f)
      ensures f == e
    {
      BinadeUnique(x, e, f);
    }
  }

  /** In its binade a number is at least 2^52 steps, and rounding moves it by half a step at most. */
  lemma {:induction false} DoubleSteps(x: real) returns (e: int, t: real, n: int)
    requires 0.0 < x
    ensures InBinade(x, e) && t * Scale(e) == x && n == RoundToEven(t) && Double(x) == n as real * Scale(e)
    ensures TWO_52 as real <= t
  {
    hide Scale, InBinade, Double, RoundToEven;
    HasBinade(x);
    e :| InBinade(x, e);
    t := x / Scale(e);
    n := RoundToEven(t);
    DoubleIn(x, e);
    DividedBy(x, Scale(e));
    BinadeSteps(x, e);
    QuotientAtLeast(Scale(e), TWO_52 as real, t);
  }

  lemma {:induction false} DividedBy(x: real, s: real)
    requires 0.0 < s
    ensures x / s * s == x
  {
  }

  lemma {:induction false} BinadeSteps(x: real, e: int)
    requires InBinade(x, e)
    ensures TWO_52 as real * Scale(e) <= x
  {
    hide Scale;
    ScaleTable();
    ScaleSum(e, 52);
    assert 52 + e == e + 52;
  }

  lemma {:induction false} QuotientAtLeast(s: real, a: real, t: real)
    requires 0.0 < s && a * s <= t * s
    ensures a <= t
  {
    var d := t - a;
    assert d * s == t * s - a * s;
    assert 0.0 <= d * s;
  }

  lemma {:induction false} TimesMonotone(a: real, b: real, s: real)
    requires 0.0 <= s && a <= b
    ensures a * s <= b * s
  {
    var d := b - a;
    assert d * s == b * s - a * s;
  }

  // ---------------------------------------------------------------------------------------------
  // Laws
  // ---------------------------------------------------------------------------------------------

  const TWO_52: nat := 0x10_0000_0000_0000
  const TWO_53: nat := 0x20_0000_0000_0000

  /** How far rounding may move `x`. */
  function Error(x: real): real {
    x / 9007199254740992.0
  }

  /** Rounding to a whole number passes no whole number and moves by one half at most. */
  lemma {:induction false} RoundBounds(t: real, k: int)
    ensures t - 0.5 <= RoundToEven(t) as real <= t + 0.5
    ensures k as real <= t ==> k <= RoundToEven(t)
    ensures t <= k as real ==> RoundToEven(t) <= k
  {
  }

  lemma {:induction false} DoubleError(x: real)
    requires 0.0 <= x
    ensures x - Error(x) <= Double(x) <= x + Error(x)
    ensures 0.0 <= Double(x)
  {
    hide Scale, InBinade, RoundToEven;
    if 0.0 < x {
      hide Double;
      var e, t, n := DoubleSteps(x);
      RoundBounds(t, TWO_52);
      StepError(t, n as real, Scale(e), x);
    }
  }

  lemma {:induction false} StepError(t: real, n: real, s: real, x: real)
    requires 0.0 < s && t * s == x && TWO_52 as real <= t && t - 0.5 <= n <= t + 0.5 && 0.0 <= n
    ensures x - Error(x) <= n * s <= x + Error(x) && 0.0 <= n * s
  {
    assert 4503599627370496.0 * s <= x by { TimesMonotone(4503599627370496.0, t, s); }
    TimesMonotone(t - 0.5, n, s);
    TimesMonotone(n, t + 0.5, s);
    TimesMonotone(0.0, n, s);
    assert (t - 0.5) * s == t * s - 0.5 * s;
    assert (t + 0.5) * s == t * s + 0.5 * s;
  }

  /** Rounding passes no whole number up to 2^53. */
  lemma {:induction false} DoubleKeepsOrder(x: real, n: nat)
    requires 0.0 <= x && n <= TWO_53
    ensures n as real <= x ==> n as real <= Double(x)
    ensures x <= n as real ==> Double(x) <= n as real
  {
    hide Scale, InBinade, RoundToEven;
    if 0.0 < x {
      hide Double;
      var e, t, m := DoubleSteps(x);
      if e <= 0 {
        OnGrid(x, n, e, t, m);
      } else {
        AboveGrid(x, n, e, t, m);
      }
    }
  }

  /** Here whole numbers are whole multiples of the step. */
  lemma {:induction false} OnGrid(x: real, n: nat, e: int, t: real, m: int)
    requires e <= 0 && t * Scale(e) == x && m == RoundToEven(t)
    ensures n as real <= x ==> n as real <= m as real * Scale(e)
    ensures x <= n as real ==> m as real * Scale(e) <= n as real
  {
    hide Scale, RoundToEven;
    var s := Scale(e);
    var p := ScaleWhole(-e);
    ScaleInverse(-e);
    WholeSteps(n, p, s);
    var k := n * p;
    RoundBounds(t, k);
    if n as real <= x {
      QuotientAtLeast(s, k as real, t);
      TimesMonotone(k as real, m as real, s);
    }
    if x <= n as real {
      QuotientAtLeast(s, t, k as real);
      TimesMonotone(m as real, k as real, s);
    }
  }

  lemma {:induction false} WholeSteps(n: nat, p: nat, s: real)
    requires s * p as real == 1.0
    ensures (n * p) as real * s == n as real
  {
    assert (n * p) as real == n as real * p as real;
    TimesAssociate(n as real, p as real, s);
  }

  /** Here every number is 2^53 or more. */
  lemma {:induction false} AboveGrid(x: real, n: nat, e: int, t: real, m: int)
    requires 1 <= e && TWO_52 as real <= t && t * Scale(e) == x && m == RoundToEven(t) && n <= TWO_53
    ensures n as real <= m as real * Scale(e)
    ensures x <= n as real ==> m as real * Scale(e) <= n as real
  {
    var s := Scale(e);
    assert Scale(1) == 2.0;
    hide Scale, RoundToEven;
    ScaleMonotone(1, e);
    RoundBounds(t, TWO_52);
    TimesMonotone(TWO_52 as real, m as real, s);
    TimesMonotone(2.0, s, TWO_52 as real);
    if x <= n as real {
      TimesMonotone(TWO_52 as real, t, s);
      SmallestProduct(t, s);
    }
  }

  lemma {:induction false} SmallestProduct(t: real, s: real)
    requires 2.0 <= s && TWO_52 as real <= t && t * s <= TWO_53 as real
    ensures t == TWO_52 as real && s == 2.0
  {
    TimesMonotone(2.0, s, t);
    TimesMonotone(TWO_52 as real, t, s);
  }

  /** Whole numbers up to 2^53 are doubles. */
  lemma {:induction false} DoubleOfWhole(n: nat)
    requires n <= TWO_53
    ensures Double(n as real) == n as real
  {
    DoubleKeepsOrder(n as real, n);
  }

  /** The double next to `x`, when the steps around it have `k` binary places. */
  lemma {:induction false} DoubleDown(x: real, k: int, steps: real, n: int)
    requires 0 <= k && Scale(k) == steps && 0.0 <= x && InBinade(x, -k) && n == RoundToEven(x * steps)
    ensures Double(x) == n as real / steps
  {
    hide Scale, InBinade, RoundToEven, Double;
    DoubleIn(x, -k);
    ScaleInverse(k);
    DivideByInverse(x, n as real, Scale(-k), steps);
  }

  lemma {:induction false} DivideByInverse(x: real, n: real, s: real, t: real)
    requires 0.0 < s && 0.0 < t && s * t == 1.0
    ensures x / s == x * t && n * s == n / t
  {
    TimesAssociate(x, t, s);
    assert x * t * s == x;
    TimesAssociate(n, s, t);
    assert n * s * t == n;
  }
}
