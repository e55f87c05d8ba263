/** Timestamps as text: the printer and parser behind `dt_to_str` and `str_to_dt`, and the proof
    that comparing the printed texts byte by byte is comparing the instants.

    The printed form has no fraction, or one of three, six or nine digits, whichever is the
    shortest that loses nothing, and always ends in "+00:00". Section 5.1 of RFC 3339 warns that
    such texts need not sort; these do because '+' < '.' < '0' in ASCII. */
module Timestamps {
  import opened Calendar
  import opened Wrappers

  const UTC_SUFFIX := "+00:00"

  // ---------------------------------------------------------------------------------------------
  // Byte order of texts (SQLite's BINARY collation)
  // ---------------------------------------------------------------------------------------------

  predicate TextLess(a: string, b: string) {
    if b == "" then false
    else if a == "" then true
    else if a[0] != b[0] then a[0] < b[0]
    else TextLess(a[1..], b[1..])
  }

  predicate TextAtMost(a: string, b: string) {
    !TextLess(b, a)
  }

  // ---------------------------------------------------------------------------------------------
  // Digits
  // ---------------------------------------------------------------------------------------------

  function Pow10(width: nat): (p: nat)
    ensures 0 < p
  {
    if width == 0 then 1 else 10 * Pow10(width - 1)
  }

  function DigitChar(d: nat): char
    requires d < 10
  {
    ('0' as int + d) as char
  }

  predicate IsDigit(c: char) {
    '0' <= c <= '9'
  }

  function DigitValue(c: char): nat
    requires IsDigit(c)
  {
    c as int - '0' as int
  }

  /** `n` as exactly `width` decimal digits. */
  function Digits(width: nat, n: nat): (s: string)
    ensures |s| == width
  {
    if width == 0 then "" else Digits(width - 1, n / 10) + [DigitChar(n % 10)]
  }

  /** `n` in decimal, without leading zeros. */
  function Decimal(n: nat): (s: string)
    ensures s != ""
  {
    if n < 10 then [DigitChar(n)] else Decimal(n / 10) + [DigitChar(n % 10)]
  }

  // ---------------------------------------------------------------------------------------------
  // Printing
  // ---------------------------------------------------------------------------------------------

  /** Years beyond 9999 carry a sign. */
  function YearText(year: nat): string {
    if year <= 9999 then Digits(4, year) else "+" + Decimal(year)
  }

  /** The number of fraction digits printed for `nano`: as many as it needs, in groups of three. */
  function FractionWidth(nano: nat): nat {
    if nano == 0 then 0 else if nano % 1_000_000 == 0 then 3 else if nano % 1_000 == 0 then 6 else 9
  }

  /** How many nanoseconds the last of `width` fraction digits stands for. */
  function Unit(width: nat): (u: nat)
    ensures 0 < u
  {
    if width == 3 then 1_000_000 else if width == 6 then 1_000 else 1
  }

  function FractionText(nano: nat): string {
    var width := FractionWidth(nano);
    if width == 0 then "" else "." + Digits(width, nano / Unit(width))
  }

  function CivilText(c: Civil): string {
    YearText(c.year) + ("-" + (Digits(2, c.month) + ("-" + (Digits(2, c.day) + ClockText(c)))))
  }

  function ClockText(c: Civil): string {
    "T" + (Digits(2, c.hour) + (":" + (Digits(2, c.minute) + (":" + (Digits(2, c.second) +
    (FractionText(c.nano) + UTC_SUFFIX))))))
  }

  function DtToStr(t: Instant): string {
    if 0 <= t then CivilText(ToCivil(t)) else "-" + BeforeYearZero(t)
  }

  /** The years before 0 count down: the date is the one some whole number of 400-year periods later,
      whose year has four digits. */
  function BeforeYearZero(t: Instant): string
    requires t < 0
  {
    var periods := (PERIOD - 1 - t) / PERIOD;
    var c := ToCivil(t + periods * PERIOD);
    YearDigits(400 * periods - c.year) + CivilText(c.(year := 0))[4..]
  }

  function YearDigits(year: int): string {
    if year < 0 then "" else if year <= 9999 then Digits(4, year) else Decimal(year)
  }

  function OptDtToStr(t: Option<Instant>): Option<string> {
    if t.Some? then Some(DtToStr(t.value)) else None
  }

  // ---------------------------------------------------------------------------------------------
  // Parsing (section 5.6 of RFC 3339)
  // ---------------------------------------------------------------------------------------------

  /** The value of the first `width` characters, all of which must be digits. */
  function TakeDigits(s: string, width: nat): Option<nat> {
    if width == 0 then Some(0)
    else if |s| < width || !IsDigit(s[width - 1]) then None
    else
      var high :- TakeDigits(s[..width - 1], width - 1);
      Some(10 * high + DigitValue(s[width - 1]))
  }

  /** How many digits `s` starts with. */
  function DigitRun(s: string): (n: nat)
    ensures n <= |s|
  {
    if s == "" || !IsDigit(s[0]) then 0 else 1 + DigitRun(s[1..])
  }

  /** Two digits after a separator; what follows them is the second component. */
  function TakeField(s: string, separator: char): Option<(nat, string)> {
    if |s| < 3 || s[0] != separator then None
    else
      var n :- TakeDigits(s[1..], 2);
      Some((n, s[3..]))
  }

  /** An optional fraction of a second, in nanoseconds; digits past the ninth are dropped. */
  function TakeFraction(s: string): Option<(nat, string)> {
    if s == "" || s[0] != '.' then Some((0, s))
    else
      var run := DigitRun(s[1..]);
      if run == 0 then None
      else
        var used := if run < 9 then run else 9;
        var n :- TakeDigits(s[1..], used);
        Some((n * Pow10(9 - used), s[1 + run..]))
  }

  /** The offset from UTC, in seconds; it must end the text. */
  function ParseOffset(s: string): Option<int> {
    if s == "Z" then Some(0)
    else if |s| != 6 || s[0] !in "+-" then None
    else
      var (hour, rest) :- TakeField(s, s[0]);
      var (minute, end) :- TakeField(rest, ':');
      if hour < 24 && minute < 60
      then Some((if s[0] == '-' then -1 else 1) * (hour * 3600 + minute * 60))
      else None
  }

  /** Adds the time of day to a date, and gives the offset from UTC as well. */
  function ParseClock(date: Civil, s: string): Option<(Civil, int)> {
    var (hour, s1) :- TakeField(s, 'T');
    var (minute, s2) :- TakeField(s1, ':');
    var (second, s3) :- TakeField(s2, ':');
    var (nano, s4) :- TakeFraction(s3);
    var offset :- ParseOffset(s4);
    Some((date.(hour := hour, minute := minute, second := second, nano := nano), offset))
  }

  /** The date, at midnight, and the text after it. */
  function ParseDate(s: string): Option<(Civil, string)> {
    var year :- TakeDigits(s, 4);
    var (month, s1) :- TakeField(s[4..], '-');
    var (day, s2) :- TakeField(s1, '-');
    Some((Civil(year, month, day, 0, 0, 0, 0), s2))
  }

  function ParseInstant(s: string): Option<Instant> {
    var (date, s1) :- ParseDate(s);
    var (c, offset) :- ParseClock(date, s1);
    if ValidCivil(c) then Some(FromCivil(c) - offset * NANOS_PER_SECOND) else None
  }

  function StrToDt(s: string): Result<Instant> {
    match ParseInstant(s)
    case Some(t) => Ok(t)
    case None => Err(Internal("not an RFC 3339 timestamp: " + s))
  }

  // ---------------------------------------------------------------------------------------------
  // Laws of the byte order
  // ---------------------------------------------------------------------------------------------

  lemma {:induction false} TextLessPrefix(p: string, a: string, b: string)
    ensures TextLess(p + a, p + b) <==> TextLess(a, b)
  {
    if p == "" {
      assert p + a == a && p + b == b;
    } else {
      assert (p + a)[1..] == p[1..] + a && (p + b)[1..] == p[1..] + b;
      TextLessPrefix(p[1..], a, b);
    }
  }

  /** Two different texts of one length already decide the order of whatever follows them. */
  lemma {:induction false} TextLessDecided(a: string, b: string, x: string, y: string)
    requires |a| == |b| && a != b
    ensures TextLess(a + x, b + y) <==> TextLess(a, b)
  {
    assert (a + x)[0] == a[0] && (b + y)[0] == b[0];
    if a[0] == b[0] {
      assert (a + x)[1..] == a[1..] + x && (b + y)[1..] == b[1..] + y;
      assert a == [a[0]] + a[1..] && b == [b[0]] + b[1..];
      TextLessDecided(a[1..], b[1..], x, y);
    }
  }

  lemma {:induction false} DigitsOrder(width: nat, m: nat, n: nat)
    requires m < n < Pow10(width)
    ensures TextLess(Digits(width, m), Digits(width, n))
    ensures !TextLess(Digits(width, n), Digits(width, m))
    ensures Digits(width, m) != Digits(width, n)
  {
    var p, q := Digits(width - 1, m / 10), Digits(width - 1, n / 10);
    var c, d := [DigitChar(m % 10)], [DigitChar(n % 10)];
    if m / 10 < n / 10 {
      DigitsOrder(width - 1, m / 10, n / 10);
      TextLessDecided(p, q, c, d);
      TextLessDecided(q, p, d, c);
      assert (p + c)[..width - 1] == p && (q + d)[..width - 1] == q;
    } else {
      TextLessPrefix(p, c, d);
      TextLessPrefix(p, d, c);
      assert (p + c)[width - 1] != (p + d)[width - 1];
    }
  }

  /** A fixed-width number followed by more text compares like the pair of the two. */
  lemma {:induction false} FieldOrder(width: nat, m: nat, n: nat, x: string, y: string)
    requires m < Pow10(width) && n < Pow10(width)
    ensures TextLess(Digits(width, m) + x, Digits(width, n) + y) <==> m < n || (m == n && TextLess(x, y))
  {
    if m == n {
      TextLessPrefix(Digits(width, m), x, y);
    } else {
      DigitsOrder(width, if m < n then m else n, if m < n then n else m);
      TextLessDecided(Digits(width, m), Digits(width, n), x, y);
    }
  }

  /** A separator, a two-digit number, and the rest. */
  lemma {:induction false} SeparatedFieldOrder(sep: char, m: nat, n: nat, x: string, y: string)
    requires m < 100 && n < 100
    ensures TextLess([sep] + (Digits(2, m) + x), [sep] + (Digits(2, n) + y)) <==> m < n || (m == n && TextLess(x, y))
  {
    TextLessPrefix([sep], Digits(2, m) + x, Digits(2, n) + y);
    assert Pow10(2) == 100;
    FieldOrder(2, m, n, x, y);
  }

  // ---------------------------------------------------------------------------------------------
  // Order of the fractions
  // ---------------------------------------------------------------------------------------------

  /** The digits of a number are those of its high part followed by those of its low part. */
  lemma {:induction false} DigitsSplit(high: nat, low: nat, q: nat, r: nat)
    requires r < Pow10(low)
    ensures Digits(high + low, q * Pow10(low) + r) == Digits(high, q) + Digits(low, r)
  {
    if low == 0 {
      assert Digits(high, q) + "" == Digits(high, q);
    } else {
      hide Digits;
      DigitsSplit(high, low - 1, q, r / 10);
      Tenfold(q, Pow10(low - 1));
      LastDigit(high + low - 1, q * Pow10(low - 1), r);
      LastDigit(low - 1, 0, r);
    }
  }

  lemma {:induction false} Tenfold(q: nat, p: nat)
    ensures q * (10 * p) == 10 * (q * p)
  {
  }

  lemma {:induction false} LastDigit(width: nat, m: nat, r: nat)
    ensures Digits(width + 1, 10 * m + r) == Digits(width, m + r / 10) + [DigitChar(r % 10)]
  {
    assert (10 * m + r) / 10 == m + r / 10;
    assert (10 * m + r) % 10 == r % 10;
  }

  lemma {:induction false} ProductAtLeast(d: int, x: int)
    requires 0 < d
    ensures 0 < x ==> d <= d * x
  {
  }

  lemma {:induction false} FirstDigit(width: nat, n: nat)
    requires 0 < width
    ensures IsDigit(Digits(width, n)[0])
  {
    if 1 < width {
      FirstDigit(width - 1, n / 10);
    }
  }

  lemma {:induction false} PowersOfTen()
    ensures Pow10(2) == 100 && Pow10(3) == 1_000 && Pow10(4) == 10_000
    ensures Pow10(6) == 1_000_000 && Pow10(9) == 1_000_000_000
  {
    assert Pow10(2) == 100;
    assert Pow10(4) == 100 * Pow10(2);
    assert Pow10(6) == 100 * Pow10(4);
    assert Pow10(8) == 100 * Pow10(6);
  }

  /** The printed number, as the number its first `width` digits show and what is left. */
  lemma {:induction false} UnitSplit(nano: nat, width: nat) returns (r: nat)
    requires nano < NANOS_PER_SECOND
    requires width in {3, 6, 9} && width <= FractionWidth(nano)
    ensures var more := FractionWidth(nano) - width;
            r < Pow10(more) && nano / Unit(FractionWidth(nano)) == nano / Unit(width) * Pow10(more) + r
    ensures nano / Unit(width) < Pow10(width)
    ensures FractionWidth(nano) == width ==> nano % Unit(width) == 0
  {
    PowersOfTen();
    assert Pow10(0) == 1;
    hide Pow10;
    Thousands(nano);
    var shown := FractionWidth(nano);
    r := if shown == width then 0
         else if width == 3 && shown == 6 then nano / 1_000 % 1_000
         else if width == 3 then nano % 1_000_000
         else nano % 1_000;
  }

  lemma {:induction false} Thousands(nano: nat)
    requires nano < NANOS_PER_SECOND
    ensures nano / 1_000 == nano / 1_000_000 * 1_000 + nano / 1_000 % 1_000
    ensures nano == nano / 1_000_000 * 1_000_000 + nano % 1_000_000
    ensures nano == nano / 1_000 * 1_000 + nano % 1_000
    ensures nano / 1_000_000 < 1_000 && nano / 1_000 < 1_000_000
  {
  }

  /** A printed fraction, split after its first `width` digits. */
  lemma {:induction false} FractionSplit(nano: nat, width: nat) returns (rest: string)
    requires nano < NANOS_PER_SECOND
    requires width in {3, 6, 9} && width <= FractionWidth(nano)
    ensures FractionText(nano) == "." + (Digits(width, nano / Unit(width)) + rest)
    ensures rest != "" ==> IsDigit(rest[0])
    ensures rest == "" ==> nano % Unit(width) == 0
    ensures rest == "" <==> FractionWidth(nano) == width
    ensures nano / Unit(width) < Pow10(width)
  {
    var shown := FractionWidth(nano);
    var r := UnitSplit(nano, width);
    hide Unit, Pow10, Digits;
    DigitsSplit(width, shown - width, nano / Unit(width), r);
    rest := Digits(shown - width, r);
    if shown != width {
      FirstDigit(shown - width, r);
    }
  }

  /** Fractions of different lengths still sort by value, because '+' < '.' < '0'. */
  lemma {:induction false} FractionOrder(m: nat, n: nat)
    requires m < n < NANOS_PER_SECOND
    ensures TextLess(FractionText(m) + UTC_SUFFIX, FractionText(n) + UTC_SUFFIX)
    ensures !TextLess(FractionText(n) + UTC_SUFFIX, FractionText(m) + UTC_SUFFIX)
  {
    if m == 0 {
      assert (FractionText(m) + UTC_SUFFIX)[0] == '+' && (FractionText(n) + UTC_SUFFIX)[0] == '.';
    } else {
      var width := if FractionWidth(m) < FractionWidth(n) then FractionWidth(m) else FractionWidth(n);
      var x := FractionSplit(m, width);
      var y := FractionSplit(n, width);
      QuotientOrder(m, n, Unit(width));
      SplitOrder(width, m / Unit(width), n / Unit(width), x, y);
    }
  }

  lemma {:induction false} SplitOrder(width: nat, u: nat, v: nat, x: string, y: string)
    requires u < v < Pow10(width) || (u == v < Pow10(width) && x == "" && y != "" && IsDigit(y[0]))
    ensures var a, b := "." + (Digits(width, u) + x) + UTC_SUFFIX, "." + (Digits(width, v) + y) + UTC_SUFFIX;
            TextLess(a, b) && !TextLess(b, a)
  {
    var a, b := x + UTC_SUFFIX, y + UTC_SUFFIX;
    FieldOrder(width, u, v, a, b);
    FieldOrder(width, v, u, b, a);
    TextLessPrefix(".", Digits(width, u) + a, Digits(width, v) + b);
    TextLessPrefix(".", Digits(width, v) + b, Digits(width, u) + a);
    assert "." + (Digits(width, u) + x) + UTC_SUFFIX == "." + (Digits(width, u) + a);
    assert "." + (Digits(width, v) + y) + UTC_SUFFIX == "." + (Digits(width, v) + b);
  }

  /** Quotients keep the order, and a smaller number with the same quotient has the larger one inexact. */
  lemma {:induction false} QuotientOrder(m: nat, n: nat, p: nat)
    requires m < n && 0 < p
    ensures m / p <= n / p
    ensures m / p == n / p ==> n % p != 0
  {
    assert m == p * (m / p) + m % p && n == p * (n / p) + n % p;
    ProductAtLeast(p, m / p - n / p);
    assert p * (m / p - n / p) == (m - m % p) - (n - n % p);
  }

  lemma {:induction false} TextLessIrreflexive(a: string)
    ensures !TextLess(a, a)
  {
    if a != "" {
      TextLessIrreflexive(a[1..]);
    }
  }

  lemma {:induction false} FractionCompare(m: nat, n: nat)
    requires m < NANOS_PER_SECOND && n < NANOS_PER_SECOND
    ensures TextLess(FractionText(m) + UTC_SUFFIX, FractionText(n) + UTC_SUFFIX) <==> m < n
  {
    if m < n {
      FractionOrder(m, n);
    } else if n < m {
      FractionOrder(n, m);
    } else {
      TextLessIrreflexive(FractionText(m) + UTC_SUFFIX);
    }
  }

  // ---------------------------------------------------------------------------------------------
  // Order of the timestamps
  // ---------------------------------------------------------------------------------------------

  lemma {:induction false} ClockOrder(a: Civil, b: Civil)
    requires ValidCivil(a) && ValidCivil(b)
    ensures TextLess(ClockText(a), ClockText(b)) <==>
            a.hour < b.hour || (a.hour == b.hour && (
            a.minute < b.minute || (a.minute == b.minute && (
            a.second < b.second || (a.second == b.second && a.nano < b.nano)))))
  {
    var x, y := FractionText(a.nano) + UTC_SUFFIX, FractionText(b.nano) + UTC_SUFFIX;
    FractionCompare(a.nano, b.nano);
    SeparatedFieldOrder(':', a.second, b.second, x, y);
    x, y := ":" + (Digits(2, a.second) + x), ":" + (Digits(2, b.second) + y);
    SeparatedFieldOrder(':', a.minute, b.minute, x, y);
    x, y := ":" + (Digits(2, a.minute) + x), ":" + (Digits(2, b.minute) + y);
    SeparatedFieldOrder('T', a.hour, b.hour, x, y);
  }

  lemma {:induction false} CivilTextOrder(a: Civil, b: Civil)
    requires ValidCivil(a) && ValidCivil(b) && a.year <= 9999 && b.year <= 9999
    ensures TextLess(CivilText(a), CivilText(b)) <==> Earlier(a, b)
  {
    ClockOrder(a, b);
    var x, y := ClockText(a), ClockText(b);
    SeparatedFieldOrder('-', a.day, b.day, x, y);
    x, y := "-" + (Digits(2, a.day) + x), "-" + (Digits(2, b.day) + y);
    SeparatedFieldOrder('-', a.month, b.month, x, y);
    x, y := "-" + (Digits(2, a.month) + x), "-" + (Digits(2, b.month) + y);
    PowersOfTen();
    FieldOrder(4, a.year, b.year, x, y);
  }

  /** Order embedding: for every two instants in years 0000 to 9999, comparing the printed texts
      byte by byte is comparing the instants. */
  lemma {:induction false} OrderEmbedding(a: Instant, b: Instant)
    requires FourDigitYear(a) && FourDigitYear(b)
    ensures TextLess(DtToStr(a), DtToStr(b)) <==> a < b
    ensures TextAtMost(DtToStr(a), DtToStr(b)) <==> a <= b
    ensures DtToStr(a) == DtToStr(b) <==> a == b
  {
    CivilOfInstant(a);
    CivilOfInstant(b);
    FourDigitYearMeaning(a);
    FourDigitYearMeaning(b);
    CivilTextOrder(ToCivil(a), ToCivil(b));
    CivilTextOrder(ToCivil(b), ToCivil(a));
    CivilOrder(ToCivil(a), ToCivil(b));
    CivilOrder(ToCivil(b), ToCivil(a));
    TextLessIrreflexive(DtToStr(a));
  }

  /** The texts of years before 0 begin with '-', those of years past 9999 with '+': both sort before
      every digit. */
  lemma {:induction false} SignsFirst(t: Instant, now: Instant)
    requires FourDigitYear(now) && !FourDigitYear(t)
    ensures TextLess(DtToStr(t), DtToStr(now)) && TextAtMost(DtToStr(t), DtToStr(now))
  {
    hide BeforeYearZero;
    FourDigitYearMeaning(now);
    FirstDigit(4, ToCivil(now).year);
    assert DtToStr(now)[0] == Digits(4, ToCivil(now).year)[0];
    if 0 <= t {
      FourDigitYearMeaning(t);
    }
    assert DtToStr(t)[0] == if t < 0 then '-' else '+';
  }

  /** Compared with a four-digit year, the text of any instant sorts by time exactly if its year is
      not past 9999; such a late one sorts before. */
  lemma {:induction false} OrderEmbeddingLimit(t: Instant, now: Instant)
    requires FourDigitYear(now)
    ensures TextLess(DtToStr(t), DtToStr(now)) <==> t < now || YEAR_10000 <= t
    ensures TextAtMost(DtToStr(t), DtToStr(now)) <==> t <= now || YEAR_10000 <= t
    ensures (TextLess(DtToStr(t), DtToStr(now)) <==> t < now) <==> t < YEAR_10000
  {
    hide DtToStr, TextLess;
    if FourDigitYear(t) {
      OrderEmbedding(t, now);
    } else {
      SignsFirst(t, now);
    }
  }

  // ---------------------------------------------------------------------------------------------
  // Round trip
  // ---------------------------------------------------------------------------------------------

  lemma {:induction false} TakeDigitsOfDigits(width: nat, n: nat, rest: string)
    requires n < Pow10(width)
    ensures TakeDigits(Digits(width, n) + rest, width) == Some(n)
  {
    if width != 0 {
      var s := Digits(width, n) + rest;
      TakeDigitsOfDigits(width - 1, n / 10, "");
      assert s[..width - 1] == Digits(width - 1, n / 10) + "";
      assert s[width - 1] == DigitChar(n % 10);
    }
  }

  lemma {:induction false} TakePrintedField(sep: char, n: nat, rest: string)
    requires n < 100
    ensures TakeField([sep] + (Digits(2, n) + rest), sep) == Some((n, rest))
  {
    var s := [sep] + (Digits(2, n) + rest);
    PowersOfTen();
    TakeDigitsOfDigits(2, n, rest);
    assert s[1..] == Digits(2, n) + rest && s[3..] == rest;
  }

  lemma {:induction false} DigitRunOfDigits(width: nat, n: nat, rest: string)
    requires rest == "" || !IsDigit(rest[0])
    ensures DigitRun(Digits(width, n) + rest) == width
  {
    DigitRunAfterDigits(Digits(width, n), rest);
    DigitsAreDigits(width, n);
  }

  lemma {:induction false} DigitsAreDigits(width: nat, n: nat)
    ensures forall i :: 0 <= i < width ==> IsDigit(Digits(width, n)[i])
  {
    if width != 0 {
      DigitsAreDigits(width - 1, n / 10);
    }
  }

  lemma {:induction false} DigitRunAfterDigits(s: string, rest: string)
    requires rest == "" || !IsDigit(rest[0])
    ensures (forall i :: 0 <= i < |s| ==> IsDigit(s[i])) ==> DigitRun(s + rest) == |s|
  {
    if s == "" {
      assert s + rest == rest;
    } else {
      assert (s + rest)[1..] == s[1..] + rest;
      DigitRunAfterDigits(s[1..], rest);
    }
  }

  /** The printed digits, put back to nanoseconds. */
  lemma {:induction false} ShownUnits(nano: nat)
    requires nano < NANOS_PER_SECOND && nano != 0
    ensures var width := FractionWidth(nano);
            && width in {3, 6, 9} && nano / Unit(width) < Pow10(width)
            && nano / Unit(width) * Pow10(9 - width) == nano
  {
    PowersOfTen();
    assert Pow10(0) == 1;
    hide Pow10;
    if nano % 1_000_000 == 0 {
      assert nano / 1_000_000 * 1_000_000 == nano;
    } else if nano % 1_000 == 0 {
      assert nano / 1_000 * 1_000 == nano;
    }
  }

  lemma {:induction false} TakePrintedFraction(nano: nat)
    requires nano < NANOS_PER_SECOND
    ensures TakeFraction(FractionText(nano) + UTC_SUFFIX) == Some((nano, UTC_SUFFIX))
  {
    var width, s := FractionWidth(nano), FractionText(nano) + UTC_SUFFIX;
    if nano == 0 {
      assert s == UTC_SUFFIX;
    } else {
      ShownUnits(nano);
      hide FractionWidth, Unit, Pow10, Digits, DigitRun, TakeDigits;
      var shown := nano / Unit(width);
      assert s[1..] == Digits(width, shown) + UTC_SUFFIX && s[0] == '.';
      DigitRunOfDigits(width, shown, UTC_SUFFIX);
      TakeDigitsOfDigits(width, shown, UTC_SUFFIX);
      assert s[1 + width..] == UTC_SUFFIX;
    }
  }

  lemma {:induction false} ParseUtcSuffix()
    ensures ParseOffset(UTC_SUFFIX) == Some(0)
  {
    var s := UTC_SUFFIX;
    assert s[1..][..1] == "0" && s[1..][..1][..0] == "";
    assert TakeDigits(s[1..], 2) == Some(0) by { assert TakeDigits(s[1..][..1], 1) == Some(0); }
    var t := s[3..];
    assert t == ":00" && t[1..] == "00" && t[1..][..1] == "0" && t[1..][..1][..0] == "";
    assert TakeDigits(t[1..], 2) == Some(0) by { assert TakeDigits(t[1..][..1], 1) == Some(0); }
  }

  lemma {:induction false} ParseClockText(c: Civil, date: Civil)
    requires ValidCivil(c)
    ensures ParseClock(date, ClockText(c)) ==
            Some((date.(hour := c.hour, minute := c.minute, second := c.second, nano := c.nano), 0))
  {
    hide TakeField, TakeFraction, ParseOffset, FractionText, Digits;
    ParseUtcSuffix();
    TakePrintedFraction(c.nano);
    var s := FractionText(c.nano) + UTC_SUFFIX;
    TakePrintedField(':', c.second, s);
    s := ":" + (Digits(2, c.second) + s);
    TakePrintedField(':', c.minute, s);
    s := ":" + (Digits(2, c.minute) + s);
    TakePrintedField('T', c.hour, s);
  }

  lemma {:induction false} ParseDateText(year: nat, month: nat, day: nat, rest: string)
    requires year <= 9999 && month < 100 && day < 100
    ensures var s := Digits(4, year) + ("-" + (Digits(2, month) + ("-" + (Digits(2, day) + rest))));
            ParseDate(s) == Some((Civil(year, month, day, 0, 0, 0, 0), rest))
  {
    hide TakeField, TakeDigits, Digits;
    TakePrintedField('-', day, rest);
    var s := "-" + (Digits(2, day) + rest);
    TakePrintedField('-', month, s);
    s := "-" + (Digits(2, month) + s);
    PowersOfTen();
    TakeDigitsOfDigits(4, year, s);
    assert (Digits(4, year) + s)[4..] == s;
  }

  lemma {:induction false} ParseCivilText(c: Civil)
    requires ValidCivil(c) && c.year <= 9999
    ensures ParseInstant(CivilText(c)) == Some(FromCivil(c))
  {
    hide ParseDate, ParseClock, FromCivil, ClockText, Digits;
    ParseDateText(c.year, c.month, c.day, ClockText(c));
    var date := Civil(c.year, c.month, c.day, 0, 0, 0, 0);
    ParseClockText(c, date);
    assert date.(hour := c.hour, minute := c.minute, second := c.second, nano := c.nano) == c;
  }

  /** Round trip: parsing a printed instant gives it back, exactly as long as the year has four
      digits; a later or a negative year prints a text the parser rejects. */
  lemma {:induction false} TimestampRoundTrip(t: Instant)
    ensures StrToDt(DtToStr(t)) == Ok(t) <==> FourDigitYear(t)
    ensures !FourDigitYear(t) ==> StrToDt(DtToStr(t)).Err? && StrToDt(DtToStr(t)).error.Internal?
  {
    hide BeforeYearZero;
    if 0 <= t {
      CivilOfInstant(t);
      FourDigitYearMeaning(t);
    }
    if FourDigitYear(t) {
      ParseCivilText(ToCivil(t));
    } else {
      var s := DtToStr(t);
      assert s[0] == if t < 0 then '-' else '+';
      RejectSign(s, 4);
    }
  }

  lemma {:induction false} RejectSign(s: string, width: nat)
    requires s != "" && !IsDigit(s[0]) && 0 < width
    ensures TakeDigits(s, width) == None
  {
    if 1 < width && width <= |s| {
      RejectSign(s[..width - 1], width - 1);
    }
  }
}
