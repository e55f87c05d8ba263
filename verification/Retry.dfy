/** Retry delays: a strategy's product, cut off at a cap, and spread by jitter.

    The product is a 64-bit multiplication that is not checked: it wraps in a release build, and a
    build with overflow checks stops there. The laws hold as long as the product fits, and
    `CapExact` says when a wrapped product still gives the right delay. */
module Retry {
  import opened Doubles
  import opened Types
  import opened StoreSpec

  const TWO_64: nat := 0x1_0000_0000_0000_0000

  function Pow2(n: nat): (p: nat)
    ensures 0 < p
  {
    if n == 0 then 1 else 2 * Pow2(n - 1)
  }

  /** `2u64.saturating_pow(n)`. */
  function SaturatingPow2(n: nat): nat {
    if n < 64 then Pow2(n) else TWO_64 - 1
  }

  function Factor(strategy: RetryStrategy, attempt: u32): nat {
    match strategy
    case Fixed => 1
    case Linear => attempt
    case Exponential => SaturatingPow2(if attempt == 0 then 0 else attempt - 1)
  }

  /** The product before it is cut to 64 bits. */
  function Product(policy: RetryPolicy, attempt: u32): nat {
    policy.baseDelayMs * Factor(policy.strategy, attempt)
  }

  function Capped(policy: RetryPolicy, attempt: u32): u64 {
    Min(Product(policy, attempt) % TWO_64, policy.maxDelayMs)
  }

  /** The jitter's factor, in double precision: one half and the given number of thousandths. */
  ghost function JitterFactor(thousandths: nat): real
  {
    Double(0.5 + Double(thousandths as real / 1000.0))
  }

  ghost function Multiplied(a: real, b: real): real {
    Double(a * b)
  }

  /** The product of delay and factor, a double as well. */
  ghost function JitterProduct(delay: nat, thousandths: nat): real {
    Multiplied(Double(delay as real), JitterFactor(thousandths))
  }

  /** `seed` is the clock's nanoseconds mixed with the attempt. The conversion of the product to 64
      bits cuts off the fraction and saturates. */
  ghost function ApplyJitter(delay: u64, seed: nat): nat {
    var cut := JitterProduct(delay, seed % 1000).Floor;
    if cut < 0 then 0 else Min(cut, TWO_64 - 1)
  }

  /** Bitwise exclusive or. */
  function Xor(a: nat, b: nat): nat {
    if a == 0 && b == 0 then 0 else 2 * Xor(a / 2, b / 2) + if a % 2 == b % 2 then 0 else 1
  }

  function Mixed(attempt: u32): u32 {
    attempt * 2_654_435_761 % 0x1_0000_0000
  }

  function Seed(nanos: nat, attempt: u32): nat {
    Xor(nanos, Mixed(attempt))
  }

  /** `nanos` is the part of the clock below a second. */
  ghost function ComputeDelay(policy: RetryPolicy, attempt: u32, nanos: nat): nat {
    var capped := Capped(policy, attempt);
    if policy.jitter then ApplyJitter(capped, Seed(nanos, attempt)) else capped
  }

  predicate ShouldRetry(policy: RetryPolicy, currentAttempt: u32) {
    currentAttempt < policy.maxAttempts
  }

  // ---------------------------------------------------------------------------------------------
  // The capped delay
  // ---------------------------------------------------------------------------------------------

  predicate Fits(policy: RetryPolicy, attempt: u32) {
    Product(policy, attempt) < TWO_64
  }

  /** The attempt gets the delay that product and cap call for. */
  predicate DelayRight(policy: RetryPolicy, attempt: u32) {
    Fits(policy, attempt) || policy.maxDelayMs <= Product(policy, attempt) % TWO_64
  }

  /** The delay is the smaller of product and cap exactly when the product fits 64 bits, or what
      wrapping leaves of it still reaches the cap. */
  lemma {:induction false} CapExact(policy: RetryPolicy, attempt: u32)
    ensures Capped(policy, attempt) <= policy.maxDelayMs
    ensures Capped(policy, attempt) == Min(Product(policy, attempt), policy.maxDelayMs)
            <==> DelayRight(policy, attempt)
  {
    hide Product;
  }

  lemma {:induction false} Pow2Monotone(m: nat, n: nat)
    requires m <= n
    ensures Pow2(m) <= Pow2(n)
  {
    if m < n {
      Pow2Monotone(m, n - 1);
    }
  }

  lemma {:induction false} Pow2Sum(m: nat, n: nat)
    ensures Pow2(m + n) == Pow2(m) * Pow2(n)
  {
    if m != 0 {
      Pow2Sum(m - 1, n);
      assert Pow2(m + n) == 2 * Pow2(m - 1 + n);
    }
  }

  lemma {:induction false} Pow2Of64()
    ensures Pow2(64) == TWO_64
  {
    assert Pow2(8) == 0x100;
    hide Pow2;
    Pow2Sum(8, 8);
    assert Pow2(16) == 0x1_0000;
    Pow2Sum(16, 16);
    assert Pow2(32) == 0x1_0000_0000;
    Pow2Sum(32, 32);
  }

  lemma {:induction false} FactorMonotone(strategy: RetryStrategy, a: u32, b: u32)
    requires a <= b
    ensures Factor(strategy, a) <= Factor(strategy, b)
  {
    if strategy.Exponential? {
      var (m, n) := (if a == 0 then 0 else a - 1, if b == 0 then 0 else b - 1);
      if n < 64 {
        Pow2Monotone(m, n);
      } else if m < 64 {
        Pow2Monotone(m, 63);
        Pow2Of64();
        assert Pow2(64) == 2 * Pow2(63);
      }
    }
  }

  lemma {:induction false} ProductMonotone(policy: RetryPolicy, a: u32, b: u32)
    requires a <= b
    ensures Product(policy, a) <= Product(policy, b)
  {
    hide Factor;
    FactorMonotone(policy.strategy, a, b);
    var (f, g) := (Factor(policy.strategy, a), Factor(policy.strategy, b));
    assert policy.baseDelayMs * g == policy.baseDelayMs * f + policy.baseDelayMs * (g - f);
  }

  /** For every strategy, as long as the product fits: later attempts wait no less, and once the
      cap is reached the delay stays there. */
  lemma {:induction false} DelayMonotone(policy: RetryPolicy, a: u32, b: u32)
    requires a <= b && Fits(policy, b)
    ensures Capped(policy, a) <= Capped(policy, b) <= policy.maxDelayMs
    ensures Capped(policy, a) == policy.maxDelayMs ==> Capped(policy, b) == policy.maxDelayMs
    ensures Capped(policy, b) == Min(Product(policy, b), policy.maxDelayMs)
  {
    hide Product;
    ProductMonotone(policy, a, b);
  }

  ghost predicate DelaysRise(policy: RetryPolicy, n: u32) {
    forall a: u32, b: u32 :: a <= b <= n ==> Capped(policy, a) <= Capped(policy, b)
  }

  /** The delays of the attempts up to `n` never fall exactly if each of these attempts gets the
      right delay: the first product to wrap below the cap is a fall. */
  lemma {:induction false} DelaysRiseWhen(policy: RetryPolicy, n: u32)
    ensures DelaysRise(policy, n) <==> forall a: u32 :: a <= n ==> DelayRight(policy, a)
  {
    hide Capped, DelayRight;
    if forall a: u32 :: a <= n ==> DelayRight(policy, a) {
      forall a: u32, b: u32 | a <= b <= n
        ensures Capped(policy, a) <= Capped(policy, b)
      {
        RightDelaysRise(policy, a, b);
      }
    } else {
      var f := FirstWrong(policy, n);
      FirstWrongFalls(policy, f);
      assert Capped(policy, f) < Capped(policy, f - 1);
    }
  }

  lemma {:induction false} RightDelaysRise(policy: RetryPolicy, a: u32, b: u32)
    requires a <= b && DelayRight(policy, a) && DelayRight(policy, b)
    ensures Capped(policy, a) <= Capped(policy, b)
  {
    hide Product, Capped;
    CapExact(policy, a);
    CapExact(policy, b);
    ProductMonotone(policy, a, b);
  }

  /** The first attempt that gets the wrong delay; it is not attempt 0, whose product fits. */
  lemma {:induction false} FirstWrong(policy: RetryPolicy, n: u32) returns (f: u32)
    requires !forall a: u32 :: a <= n ==> DelayRight(policy, a)
    ensures 1 <= f <= n && !DelayRight(policy, f) && DelayRight(policy, f - 1)
  {
    hide DelayRight;
    f := 0;
    ZeroRight(policy);
    while DelayRight(policy, f)
      invariant f <= n && forall a: u32 :: a < f ==> DelayRight(policy, a)
      invariant 0 < f ==> DelayRight(policy, f - 1)
      decreases n - f
    {
      f := f + 1;
    }
  }

  lemma {:induction false} ZeroRight(policy: RetryPolicy)
    ensures DelayRight(policy, 0)
  {
    assert Pow2(0) == 1;
    assert Factor(policy.strategy, 0) <= 1;
    assert policy.baseDelayMs * Factor(policy.strategy, 0) <= policy.baseDelayMs;
  }

  lemma {:induction false} FirstWrongFalls(policy: RetryPolicy, f: u32)
    requires 1 <= f && !DelayRight(policy, f) && DelayRight(policy, f - 1)
    ensures Capped(policy, f) < Capped(policy, f - 1)
  {
    hide Product;
    CapExact(policy, f - 1);
    if Fits(policy, f - 1) {
      NextProduct(policy, f);
      assert Product(policy, f) % TWO_64 == Product(policy, f) - TWO_64;
    }
  }

  /** A product that wraps right after one that fits wraps once, to less than that one. */
  lemma {:induction false} NextProduct(policy: RetryPolicy, f: u32)
    requires 1 <= f && Fits(policy, f - 1) && !Fits(policy, f)
    ensures TWO_64 <= Product(policy, f) < TWO_64 + Product(policy, f - 1) < 2 * TWO_64
  {
    var base := policy.baseDelayMs;
    match policy.strategy
    case Fixed =>
    case Linear => Distribute(base, f - 1, 1);
    case Exponential =>
      if 2 <= f <= 64 {
        assert Pow2(f - 1) == 2 * Pow2(f - 2);
        Distribute(base, Pow2(f - 2), Pow2(f - 2));
      } else if 65 <= f {
        Saturated(base, f);
      }
  }

  /** Where the factor saturates no product begins to wrap. */
  lemma {:induction false} Saturated(base: u64, f: u32)
    requires 65 <= f && base * Factor(Exponential, f - 1) < TWO_64
    ensures base * Factor(Exponential, f) < TWO_64
  {
    if f == 65 {
      Pow2Of64();
      assert Pow2(64) == 2 * Pow2(63);
      AtMostOne(base, Pow2(63));
    }
  }

  lemma {:induction false} AtMostOne(base: nat, half: nat)
    requires 0 < half && base * half < 2 * half
    ensures base <= 1
  {
  }

  const DEFAULT_POLICY := RetryPolicy(5, Exponential, 1000, 60_000, true)

  /** When the product wraps the laws fail: with the default delays, attempt 62 gets no delay at
      all, although attempt 7 already waits as long as the cap allows. */
  lemma {:induction false} WrappedDelayVanishes()
    ensures Capped(DEFAULT_POLICY, 7) == 60_000 && Fits(DEFAULT_POLICY, 7)
    ensures Capped(DEFAULT_POLICY, 62) == 0 && !Fits(DEFAULT_POLICY, 62)
  {
    assert Pow2(6) == 64;
    Pow2Of64();
    Pow2Sum(3, 61);
    assert Pow2(3) == 8;
    assert Product(DEFAULT_POLICY, 62) == 125 * TWO_64;
  }

  // ---------------------------------------------------------------------------------------------
  // All retries of a run
  // ---------------------------------------------------------------------------------------------

  /** How often a run is retried, from the given attempt on. */
  function Retries(policy: RetryPolicy, attempt: u32): nat
    decreases policy.maxAttempts - attempt
  {
    if ShouldRetry(policy, attempt) then 1 + Retries(policy, attempt + 1) else 0
  }

  function TotalWait(policy: RetryPolicy, attempt: u32): nat
    decreases policy.maxAttempts - attempt
  {
    if ShouldRetry(policy, attempt) then Capped(policy, attempt) + TotalWait(policy, attempt + 1) else 0
  }

  lemma {:induction false} RetriesLeft(policy: RetryPolicy, attempt: u32)
    ensures Retries(policy, attempt) == if attempt < policy.maxAttempts then policy.maxAttempts - attempt else 0
    decreases policy.maxAttempts - attempt
  {
    if ShouldRetry(policy, attempt) {
      RetriesLeft(policy, attempt + 1);
    }
  }

  lemma {:induction false} WaitLeft(policy: RetryPolicy, attempt: u32)
    ensures TotalWait(policy, attempt) <= Retries(policy, attempt) * policy.maxDelayMs
    decreases policy.maxAttempts - attempt
  {
    hide Capped;
    if ShouldRetry(policy, attempt) {
      WaitLeft(policy, attempt + 1);
      CapExact(policy, attempt);
      assert Retries(policy, attempt) * policy.maxDelayMs
          == Retries(policy, attempt + 1) * policy.maxDelayMs + policy.maxDelayMs;
    }
  }

  /** From its first attempt a run is retried max(max_attempts, 1) - 1 times, and waits in total no
      longer than that many times the cap. */
  lemma {:induction false} RetryBudget(policy: RetryPolicy)
    ensures Retries(policy, 1) == (if policy.maxAttempts < 1 then 1 else policy.maxAttempts) - 1
    ensures TotalWait(policy, 1) <= Retries(policy, 1) * policy.maxDelayMs
  {
    RetriesLeft(policy, 1);
    WaitLeft(policy, 1);
  }

  /** What the retries wait if no delay reaches the cap. */
  function UncappedTotal(policy: RetryPolicy, retries: nat): int {
    match policy.strategy
    case Fixed => policy.baseDelayMs * retries
    case Linear => policy.baseDelayMs * (retries * (retries + 1) / 2)
    case Exponential => policy.baseDelayMs * (Pow2(retries) - 1)
  }

  lemma {:induction false} WaitFrom(policy: RetryPolicy, attempt: u32)
    requires 1 <= attempt <= policy.maxAttempts && (policy.strategy.Exponential? ==> policy.maxAttempts <= 65)
    requires forall a: u32 :: 1 <= a < policy.maxAttempts ==> Fits(policy, a) && Product(policy, a) <= policy.maxDelayMs
    ensures UncappedTotal(policy, attempt - 1) + TotalWait(policy, attempt)
            == UncappedTotal(policy, policy.maxAttempts - 1)
    decreases policy.maxAttempts - attempt
  {
    hide Product, UncappedTotal;
    if attempt < policy.maxAttempts {
      WaitFrom(policy, attempt + 1);
      TotalStep(policy, attempt);
      assert Fits(policy, attempt);
    }
  }

  lemma {:induction false} TotalStep(policy: RetryPolicy, attempt: u32)
    requires 1 <= attempt && (policy.strategy.Exponential? ==> attempt <= 64)
    ensures UncappedTotal(policy, attempt) == UncappedTotal(policy, attempt - 1) + Product(policy, attempt)
  {
    var base := policy.baseDelayMs;
    match policy.strategy
    case Fixed =>
      assert base * attempt == base * (attempt - 1) + base;
    case Linear =>
      assert attempt * (attempt + 1) == (attempt - 1) * attempt + 2 * attempt;
      assert attempt * (attempt + 1) / 2 == (attempt - 1) * attempt / 2 + attempt;
      Distribute(base, (attempt - 1) * attempt / 2, attempt);
    case Exponential =>
      Distribute(base, Pow2(attempt - 1) - 1, Pow2(attempt - 1));
  }

  lemma {:induction false} Distribute(base: nat, x: int, y: int)
    ensures base * (x + y) == base * x + base * y
  {
  }

  /** Below the cap the total wait has a closed form: linear, quadratic or exponential in the number
      of retries. */
  lemma {:induction false} TotalWaitClosed(policy: RetryPolicy)
    requires 1 <= policy.maxAttempts && (policy.strategy.Exponential? ==> policy.maxAttempts <= 65)
    requires forall a: u32 :: 1 <= a < policy.maxAttempts ==> Fits(policy, a) && Product(policy, a) <= policy.maxDelayMs
    ensures TotalWait(policy, 1) == UncappedTotal(policy, Retries(policy, 1))
  {
    RetriesLeft(policy, 1);
    WaitFrom(policy, 1);
    assert Pow2(0) == 1;
    assert UncappedTotal(policy, 0) == 0;
  }

  // ---------------------------------------------------------------------------------------------
  // Jitter
  // ---------------------------------------------------------------------------------------------

  /** Rounding moves the factor by less than 3 / 2^53. */
  lemma {:induction false} FactorPositive(thousandths: nat)
    requires thousandths < 1000
    ensures 0.0 < JitterFactor(thousandths)
    ensures var exact := (500 + thousandths) as real / 1000.0;
            exact - Error(3.0) <= JitterFactor(thousandths) <= exact + Error(3.0)
  {
    hide Double;
    var part := thousandths as real / 1000.0;
    DoubleError(part);
    DoubleError(0.5 + Double(part));
  }

  /** 2^53 steps to one between 0.5 and 1, and 2^52 between 1 and 2. */
  lemma {:induction false} UnitBinades(x: real)
    ensures 0.5 <= x < 1.0 ==> InBinade(x, -53)
    ensures 1.0 <= x < 2.0 ==> InBinade(x, -52)
    ensures 512.0 <= x < 1024.0 ==> InBinade(x, -43)
    ensures Scale(52) == 4503599627370496.0 && Scale(53) == 9007199254740992.0 && Scale(43) == 8796093022208.0
  {
    ScaleTable();
    assert Scale(-1) == 0.5 && Scale(0) == 1.0 && Scale(1) == 2.0;
  }

  lemma {:induction false} SmallestFactor()
    ensures JitterFactor(0) == 0.5
  {
    hide Scale, InBinade;
    assert Double(0.0) == 0.0;
    UnitBinades(0.5);
    DoubleDown(0.5, 53, 9007199254740992.0, 4503599627370496);
  }

  lemma {:induction false} FactorAtLeastHalf(thousandths: nat)
    requires thousandths < 1000
    ensures 0.5 <= JitterFactor(thousandths)
  {
    hide JitterFactor;
    if thousandths == 0 {
      SmallestFactor();
    } else {
      FactorPositive(thousandths);
    }
  }

  /** The largest factor, a tie: rounding takes it just above 1.499. */
  lemma {:induction false} LargestFactor()
    ensures 1.499 <= JitterFactor(999)
  {
    hide Scale, InBinade, Double;
    var part := 999 as real / 1000.0;
    UnitBinades(part);
    DoubleDown(part, 53, 9007199254740992.0, 8998192055486251);
    var factor := 0.5 + Double(part);
    UnitBinades(factor);
    DoubleDown(factor, 52, 4503599627370496.0, 6750895841428374);
  }

  lemma {:induction false} ProductPositive(d: real, f: real)
    requires 0.0 <= d && 0.0 <= f
    ensures 0.0 <= d * f && 0.0 <= Multiplied(d, f)
    ensures d * f - Error(d * f) <= Multiplied(d, f) <= d * f + Error(d * f)
  {
    hide Double;
    TimesMonotone(0.0, d, f);
    DoubleError(d * f);
  }

  /** How far rounding moves the product. */
  lemma {:induction false} ProductError(delay: nat, thousandths: nat)
    requires delay <= TWO_53 && thousandths < 1000
    ensures var exact := (delay * (500 + thousandths)) as real / 1000.0;
            && exact - Error(5.0 * delay as real) <= JitterProduct(delay, thousandths)
            && JitterProduct(delay, thousandths) <= exact + Error(5.0 * delay as real)
  {
    hide Double, JitterFactor, Multiplied;
    var (d, f, e) := (delay as real, JitterFactor(thousandths), (500 + thousandths) as real / 1000.0);
    DoubleOfWhole(delay);
    FactorPositive(thousandths);
    ProductPositive(d, f);
    ErrorOfProduct(d, e, f, JitterProduct(delay, thousandths));
    ExactProduct(delay, 500 + thousandths);
  }

  lemma {:induction false} ErrorOfProduct(d: real, e: real, f: real, product: real)
    requires 0.0 <= d && 0.0 <= f <= 1.6 && e - Error(3.0) <= f <= e + Error(3.0)
    requires d * f - Error(d * f) <= product <= d * f + Error(d * f)
    ensures e * d - Error(5.0 * d) <= product <= e * d + Error(5.0 * d)
  {
    TimesMonotone(e - Error(3.0), f, d);
    TimesMonotone(f, e + Error(3.0), d);
    TimesMonotone(f, 1.6, d);
    ErrorShare(d, e);
    AddErrors(d, e * d, d * f, product);
  }

  lemma {:induction false} AddErrors(d: real, exact: real, between: real, product: real)
    requires 0.0 <= d && between <= 1.6 * d
    requires exact - Error(3.0 * d) <= between <= exact + Error(3.0 * d)
    requires between - Error(between) <= product <= between + Error(between)
    ensures exact - Error(5.0 * d) <= product <= exact + Error(5.0 * d)
  {
  }

  lemma {:induction false} ErrorShare(d: real, e: real)
    ensures (e - Error(3.0)) * d == e * d - Error(3.0 * d)
    ensures (e + Error(3.0)) * d == e * d + Error(3.0 * d)
  {
    assert Error(3.0) * d == Error(3.0 * d);
  }

  lemma {:induction false} ExactProduct(delay: nat, k: nat)
    ensures (k as real / 1000.0) * delay as real == (delay * k) as real / 1000.0
  {
    assert (delay * k) as real == delay as real * k as real;
  }

  /** Cutting off the fraction of a number close to n / 1000. */
  lemma {:induction false} FloorNear(product: real, n: nat)
    requires n as real / 1000.0 - 0.001 < product < n as real / 1000.0 + 0.001
    ensures product.Floor == n / 1000 || (n % 1000 == 0 && product.Floor == n / 1000 - 1)
  {
    var (q, m) := (n / 1000, n % 1000);
    assert n == 1000 * q + m;
    assert n as real / 1000.0 == q as real + m as real / 1000.0;
  }

  /** About 35 years, in milliseconds: up to here rounding moves a jittered delay by less than the
      thousandth of a millisecond that two of them may lie apart. */
  const TWO_40: nat := 0x100_0000_0000

  /** Up to there the jittered delay is the exact one with its fraction cut off - or, when the exact
      one is a whole number of milliseconds, perhaps one less. */
  lemma {:induction false} JitterExact(delay: u64, seed: nat)
    requires delay <= TWO_40
    ensures var n := delay * (500 + seed % 1000);
            var jittered := ApplyJitter(delay, seed);
            jittered == n / 1000 || (n % 1000 == 0 && jittered == n / 1000 - 1)
  {
    hide JitterProduct;
    var r := seed % 1000;
    var n := delay * (500 + r);
    ProductError(delay, r);
    JitterProducts(delay, r);
    FloorNear(JitterProduct(delay, r), n);
  }

  lemma {:induction false} JitterProducts(delay: nat, r: nat)
    requires r < 1000
    ensures 500 * delay <= delay * (500 + r) <= 1499 * delay
  {
    Distribute(delay, 500, r);
    Distribute(delay, 500 + r, 999 - r);
  }

  /** Jitter at least halves the delay of up to 2^53 ms, and never makes it longer than one and a half
      times. */
  lemma {:induction false} JitterBounds(delay: u64, seed: nat)
    ensures delay <= TWO_53 ==> delay / 2 <= ApplyJitter(delay, seed)
    ensures 2 * ApplyJitter(delay, seed) <= 3 * delay
  {
    hide Double, JitterFactor, Multiplied;
    var (d, f) := (Double(delay as real), JitterFactor(seed % 1000));
    FactorPositive(seed % 1000);
    DoubleError(delay as real);
    JitterAtMost(delay as real, d, f);
    assert JitterProduct(delay, seed % 1000) == Multiplied(d, f);
    if delay <= TWO_53 {
      FactorAtLeastHalf(seed % 1000);
      DoubleOfWhole(delay);
      MultipliedAtLeast(delay, f, 0.5, delay / 2);
    }
  }

  lemma {:induction false} MultipliedAtLeast(delay: nat, f: real, low: real, n: nat)
    requires 0.0 <= low <= f && n <= TWO_53 && n as real <= delay as real * low
    ensures n as real <= Multiplied(delay as real, f)
  {
    hide Double;
    var d := delay as real;
    assert n as real <= d * f by {
      TimesMonotone(low, f, d);
      assert low * d == d * low && f * d == d * f;
    }
    DoubleKeepsOrder(d * f, n);
  }

  lemma {:induction false} JitterAtMost(delay: real, d: real, f: real)
    requires 0.0 <= delay && 0.0 <= d <= delay + Error(delay) && 0.0 <= f <= 1.499 + Error(3.0)
    ensures 0.0 <= Multiplied(d, f) <= 1.5 * delay
  {
    hide Multiplied;
    TimesMonotone(f, 1.4995, d);
    ProductPositive(d, f);
    BelowHalfMore(delay, d, d * f, Multiplied(d, f));
  }

  lemma {:induction false} BelowHalfMore(delay: real, d: real, exact: real, product: real)
    requires 0.0 <= delay && d <= delay + Error(delay) && exact <= 1.4995 * d && product <= exact + Error(exact)
    ensures product <= 1.5 * delay
  {
  }

  lemma {:induction false} DelayBounds(policy: RetryPolicy, attempt: u32, nanos: nat)
    ensures var (delay, capped) := (ComputeDelay(policy, attempt, nanos), Capped(policy, attempt));
            && (capped <= TWO_53 ==> capped / 2 <= delay)
            && 2 * delay <= 3 * capped && 2 * delay <= 3 * policy.maxDelayMs
            && (!policy.jitter ==> delay == capped)
  {
    hide Capped, Seed, ApplyJitter;
    CapExact(policy, attempt);
    if policy.jitter {
      JitterBounds(Capped(policy, attempt), Seed(nanos, attempt));
    }
  }

  /** A clock reading makes the delay pass the cap if the policy has jitter and the reading's share of
      the capped delay reaches beyond the next whole millisecond, and not if it falls short of it. */
  lemma {:induction false} PassesCap(policy: RetryPolicy, attempt: u32, nanos: nat)
    requires Capped(policy, attempt) <= TWO_40
    ensures var (next, share) := (1000 * (policy.maxDelayMs + 1),
                                  Capped(policy, attempt) * (500 + Seed(nanos, attempt) % 1000));
            && (policy.jitter && next < share ==> policy.maxDelayMs < ComputeDelay(policy, attempt, nanos))
            && (policy.maxDelayMs < ComputeDelay(policy, attempt, nanos) ==> policy.jitter && next <= share)
  {
    hide Capped, Seed, ApplyJitter;
    CapExact(policy, attempt);
    if policy.jitter {
      JitterExact(Capped(policy, attempt), Seed(nanos, attempt));
    }
  }

  /** A share that just reaches the next whole millisecond passes the cap or not as rounding has it:
      1000 times 1.001 comes out below 1001, and 100 times 1.01 does not come out below 101. */
  lemma {:induction false} RoundingDecides()
    ensures ApplyJitter(1000, 501) == 1000 && 1000 * (500 + 501) == 1000 * 1001
    ensures ApplyJitter(100, 510) == 101 && 100 * (500 + 510) == 1000 * 101
  {
    RoundedDown();
    RoundedUp();
  }

  lemma {:induction false} RoundedDown()
    ensures ApplyJitter(1000, 501) == 1000
  {
    hide Scale, InBinade, Double, JitterFactor;
    FactorRoundedDown();
    DoubleOfWhole(1000);
    var product := 1000.0 * JitterFactor(501);
    UnitBinades(product);
    DoubleDown(product, 43, 8796093022208.0, 8804889115230207);
  }

  lemma {:induction false} FactorRoundedDown()
    ensures JitterFactor(501) == 4508103226997866.0 / 4503599627370496.0
  {
    hide Scale, InBinade, Double;
    var part := 501 as real / 1000.0;
    UnitBinades(part);
    DoubleDown(part, 53, 9007199254740992.0, 4512606826625237);
    var factor := 0.5 + Double(part);
    UnitBinades(factor);
    DoubleDown(factor, 52, 4503599627370496.0, 4508103226997866);
  }

  lemma {:induction false} RoundedUp()
    ensures ApplyJitter(100, 510) == 101
  {
    hide Double, JitterFactor, Multiplied;
    FactorRoundedUp();
    DoubleOfWhole(100);
    MultipliedAtLeast(100, JitterFactor(510), 1.01, 101);
    assert ApplyJitter(100, 510) <= 101 by {
      hide JitterProduct;
      JitterExact(100, 510);
    }
  }

  lemma {:induction false} FactorRoundedUp()
    ensures 1.01 <= JitterFactor(510)
  {
    hide Scale, InBinade, Double;
    var part := 510 as real / 1000.0;
    UnitBinades(part);
    DoubleDown(part, 53, 9007199254740992.0, 4593671619917906);
    var factor := 0.5 + Double(part);
    UnitBinades(factor);
    DoubleDown(factor, 52, 4503599627370496.0, 4548635623644201);
  }

  const NANOS_IN_SECOND := 1_000_000_000

  /** The cap is kept at every clock reading exactly if there is no jitter, or the capped delay is so
      far below the cap that even the largest factor, 1.499, does not reach past it. */
  lemma {:induction false} CapKept(policy: RetryPolicy, attempt: u32)
    requires Capped(policy, attempt) <= TWO_40
    ensures (forall nanos: nat :: nanos < NANOS_IN_SECOND ==> ComputeDelay(policy, attempt, nanos) <= policy.maxDelayMs)
            <==> !policy.jitter || Capped(policy, attempt) * 1499 / 1000 <= policy.maxDelayMs
  {
    hide Capped, Seed, ApplyJitter;
    var capped: nat := Capped(policy, attempt);
    CapExact(policy, attempt);
    if policy.jitter {
      forall nanos: nat | nanos < NANOS_IN_SECOND
        ensures ComputeDelay(policy, attempt, nanos) <= capped * 1499 / 1000
      {
        JitterExact(capped, Seed(nanos, attempt));
        JitterProducts(capped, Seed(nanos, attempt) % 1000);
      }
      var worst := WorstReading(attempt);
      LargestJitter(capped, Seed(worst, attempt));
      assert capped * 1499 / 1000 <= ComputeDelay(policy, attempt, worst);
    }
  }

  lemma {:induction false} LargestJitter(delay: u64, seed: nat)
    requires delay <= TWO_40 && seed % 1000 == 999
    ensures delay * 1499 / 1000 <= ApplyJitter(delay, seed)
  {
    hide Double, JitterFactor, Multiplied;
    LargestFactor();
    DoubleOfWhole(delay);
    MultipliedAtLeast(delay, JitterFactor(999), 1.499, delay * 1499 / 1000);
  }

  // ---------------------------------------------------------------------------------------------
  // The clock reading with the largest factor
  // ---------------------------------------------------------------------------------------------

  lemma {:induction false} XorSelf(a: nat)
    ensures Xor(a, a) == 0
  {
    if a != 0 {
      XorSelf(a / 2);
    }
  }

  lemma {:induction false} XorTwice(a: nat, b: nat)
    ensures Xor(Xor(a, b), b) == a
  {
    if !(a == 0 && b == 0) {
      XorTwice(a / 2, b / 2);
      var x := Xor(a, b);
      assert x / 2 == Xor(a / 2, b / 2) && x % 2 == if a % 2 == b % 2 then 0 else 1;
    }
  }

  /** Numbers that agree above their last `width` bits differ by less than those can hold. */
  lemma {:induction false} XorBelow(width: nat, q: nat, i: nat, j: nat)
    requires i < Pow2(width) && j < Pow2(width)
    ensures Xor(q * Pow2(width) + i, q * Pow2(width) + j) < Pow2(width)
  {
    hide Xor;
    if width == 0 {
      XorSelf(q);
    } else {
      Distribute(q, Pow2(width - 1), Pow2(width - 1));
      XorBelow(width - 1, q, i / 2, j / 2);
      XorDouble(q * Pow2(width - 1), i, j);
    }
  }

  lemma {:induction false} XorDouble(m: nat, i: nat, j: nat)
    ensures Xor(2 * m + i, 2 * m + j) <= 2 * Xor(m + i / 2, m + j / 2) + 1
  {
    assert (2 * m + i) / 2 == m + i / 2 && (2 * m + j) / 2 == m + j / 2;
  }

  /** Whatever the attempt, some reading of the clock gives the largest factor: 1024 consecutive seeds
      are within reach of the last ten bits. */
  lemma {:induction false} WorstReading(attempt: u32) returns (nanos: nat)
    ensures nanos < NANOS_IN_SECOND && Seed(nanos, attempt) % 1000 == 999
  {
    hide Xor, Mixed, Pow2;
    var mixed: nat := Mixed(attempt);
    var q := mixed / 1024;
    var k := 999 - q * 1024 % 1000;
    NearSeed(q, k);
    Pow2Of10();
    assert mixed == q * 1024 + mixed % 1024;
    XorBelow(10, q, k, mixed % 1024);
    XorTwice(q * 1024 + k, mixed);
    nanos := Xor(q * 1024 + k, mixed);
  }

  lemma {:induction false} NearSeed(q: nat, k: int)
    requires k == 999 - q * 1024 % 1000
    ensures 0 <= k && (q * 1024 + k) % 1000 == 999
  {
  }

  lemma {:induction false} Pow2Of10()
    ensures Pow2(10) == 1024
  {
    Pow2Sum(5, 5);
  }
}
