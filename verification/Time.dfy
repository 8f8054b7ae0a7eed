/** Timespec arithmetic as nanosecond arithmetic, and conversion from and to ratio values. */
module Time {
  import opened Basics

  const NSEC_PER_SEC: int := 1_000_000_000

  /** timespec: `sec` whole seconds and `nsec` nanoseconds, within time_t and long. */
  datatype Timespec = Timespec(sec: int, nsec: int) {
    predicate Normal() {
      0 <= nsec < NSEC_PER_SEC
    }

    function Nanos(): int {
      sec * NSEC_PER_SEC + nsec
    }

    predicate Equal(that: Timespec) {
      sec == that.sec && nsec == that.nsec
    }

    predicate Less(that: Timespec) {
      sec < that.sec || (sec == that.sec && nsec < that.nsec)
    }

    predicate Greater(that: Timespec) {
      sec > that.sec || (sec == that.sec && nsec > that.nsec)
    }

    predicate AtMost(that: Timespec) {
      !Greater(that)
    }

    predicate AtLeast(that: Timespec) {
      !Less(that)
    }
  }

  /** The normal timespec of a number of nanoseconds. */
  function OfNanos(n: int): (t: Timespec)
    ensures t.Normal() && t.Nanos() == n
  {
    Timespec(n / NSEC_PER_SEC, n % NSEC_PER_SEC)
  }

  /** On normal values the nanoseconds determine the timespec, and the lexicographic
      comparisons are the comparisons of nanoseconds. */
  lemma CompareIsNanos(a: Timespec, b: Timespec)
    requires a.Normal() && b.Normal()
    ensures a.Equal(b) <==> a.Nanos() == b.Nanos()
    ensures a.Less(b) <==> a.Nanos() < b.Nanos()
    ensures a.Greater(b) <==> a.Nanos() > b.Nanos()
    ensures a.AtMost(b) <==> a.Nanos() <= b.Nanos()
    ensures a.AtLeast(b) <==> a.Nanos() >= b.Nanos()
    ensures a == OfNanos(a.Nanos())
  {
  }

  // timespec_add and timespec_subtract: one conditional carry.
  method TimespecAdd(lhs: Timespec, that: Timespec) returns (result: Timespec)
    requires lhs.Normal() && that.Normal()
    ensures result == OfNanos(lhs.Nanos() + that.Nanos())
  {
    result := Timespec(lhs.sec + that.sec, lhs.nsec + that.nsec);
    if result.nsec >= NSEC_PER_SEC {
      result := result.(sec := result.sec + 1, nsec := result.nsec - NSEC_PER_SEC);
    }
    CompareIsNanos(result, OfNanos(lhs.Nanos() + that.Nanos()));
  }

  method TimespecSubtract(lhs: Timespec, that: Timespec) returns (result: Timespec)
    requires lhs.Normal() && that.Normal()
    ensures result == OfNanos(lhs.Nanos() - that.Nanos())
  {
    result := Timespec(lhs.sec - that.sec, lhs.nsec - that.nsec);
    if result.nsec < 0 {
      result := result.(sec := result.sec - 1, nsec := result.nsec + NSEC_PER_SEC);
    }
    CompareIsNanos(result, OfNanos(lhs.Nanos() - that.Nanos()));
  }

  /** Duration and Clock keep their timespec in place. */
  class Duration {
    var value: Timespec

    constructor (value: Timespec)
      ensures this.value == value
    {
      this.value := value;
    }

    method AddAssign(that: Timespec)
      requires value.Normal() && that.Normal()
      modifies this
      ensures value.Normal() && value.Nanos() == old(value.Nanos()) + that.Nanos()
    {
      value := TimespecAdd(value, that);
    }

    method SubtractAssign(that: Timespec)
      requires value.Normal() && that.Normal()
      modifies this
      ensures value.Normal() && value.Nanos() == old(value.Nanos()) - that.Nanos()
    {
      value := TimespecSubtract(value, that);
    }

    /** Adding and subtracting the same amount restores the value, not just its total. */
    method AddThenSubtract(that: Timespec)
      requires value.Normal() && that.Normal()
      modifies this
      ensures value == old(value)
    {
      AddAssign(that);
      SubtractAssign(that);
      CompareIsNanos(value, old(value));
    }
  }

  // ---- Ratio values ----

  const INT64_MAX: int := 0x7FFF_FFFF_FFFF_FFFF
  const TWO_64: int := 0x1_0000_0000_0000_0000

  // Integer division of C++ for a positive divisor.
  function Truncated(a: int, b: int): int
    requires b > 0
  {
    if a >= 0 then a / b else -((-a) / b)
  }

  /** The constructor of Duration from `ticks` of num/den seconds.  The modulus is by an
      unsigned constant, so the product is first converted to an unsigned 64-bit number. */
  function FromRatio(ticks: int, num: int, den: int): Timespec
    requires num > 0 && den > 0
  {
    var factor := NSEC_PER_SEC * num / den;
    Timespec(Truncated(ticks * num, den), (ticks * factor) % TWO_64 % NSEC_PER_SEC)
  }

  // No signed 64-bit overflow in the constructor.
  predicate InRange(ticks: int, num: int, den: int)
    requires num > 0 && den > 0
  {
    && -INT64_MAX <= ticks * num <= INT64_MAX
    && NSEC_PER_SEC * num <= INT64_MAX
    && -INT64_MAX <= ticks * (NSEC_PER_SEC * num / den) <= INT64_MAX
  }

  /** `t` is exactly `ticks` of num/den seconds. */
  predicate IsExact(t: Timespec, ticks: int, num: int, den: int) {
    t.Normal() && t.Nanos() * den == ticks * num * NSEC_PER_SEC
  }

  lemma DivideBoth(a: int, b: int, k: int)
    requires a >= 0 && b > 0 && k > 0
    ensures b * k > 0 && (a * k) / (b * k) == a / b
  {
    var q, r := a / b, a % b;
    assert a * k == q * (b * k) + r * k by { assert a == q * b + r; }
    MultiplyOrder(r, b, k);
    assert 0 <= r * k < b * k;
    DivisionUnique(a * k, b * k, q, r * k);
  }

  // Whole seconds of `ticks`, from its nanoseconds.
  lemma SecondsOf(ticks: int, num: int, den: int, factor: int)
    requires ticks >= 0 && num > 0 && den > 0 && factor > 0 && NSEC_PER_SEC * num == factor * den
    ensures ticks * num / den == ticks * factor / NSEC_PER_SEC
  {
    DivideBoth(ticks * num, den, NSEC_PER_SEC);
    DivideBoth(ticks * factor, NSEC_PER_SEC, den);
    assert ticks * num * NSEC_PER_SEC == ticks * factor * den by {
      assert ticks * num * NSEC_PER_SEC == ticks * (NSEC_PER_SEC * num);
      assert ticks * factor * den == ticks * (factor * den);
    }
  }

  lemma FactorIsExact(num: int, den: int)
    requires num > 0 && den > 0 && NSEC_PER_SEC * num % den == 0
    ensures var factor := NSEC_PER_SEC * num / den; factor > 0 && NSEC_PER_SEC * num == factor * den
  {
  }

  // What the constructor computes, in nanoseconds, when the factor is exact.
  lemma NanosOfRatio(ticks: int, num: int, den: int)
    requires num > 0 && den > 0 && NSEC_PER_SEC * num % den == 0 && InRange(ticks, num, den)
    ensures var n := ticks * (NSEC_PER_SEC * num / den);
      FromRatio(ticks, num, den)
      == Timespec(Truncated(n, NSEC_PER_SEC), n % TWO_64 % NSEC_PER_SEC)
  {
    var factor := NSEC_PER_SEC * num / den;
    FactorIsExact(num, den);
    if ticks >= 0 {
      SecondsOf(ticks, num, den, factor);
      assert ticks * num >= 0 && ticks * factor >= 0;
    } else {
      SecondsOf(-ticks, num, den, factor);
      assert -(ticks * num) == (-ticks) * num && -(ticks * factor) == (-ticks) * factor;
      assert (-ticks) * num > 0 && (-ticks) * factor > 0;
    }
  }

  // The unsigned modulus of a negative number never complements the truncated seconds.
  lemma SplitExact(n: int)
    requires -INT64_MAX <= n <= INT64_MAX
    ensures Timespec(Truncated(n, NSEC_PER_SEC), n % TWO_64 % NSEC_PER_SEC).Nanos() == n <==> n >= 0
    ensures n < 0 ==> Timespec(Truncated(n, NSEC_PER_SEC), n % TWO_64 % NSEC_PER_SEC).Nanos()
                      == n + if -n % NSEC_PER_SEC <= 709_551_616 then 709_551_616 else 1_709_551_616
  {
    if n >= 0 {
      assert n % TWO_64 == n;
    } else {
      var y := -n;
      assert n % TWO_64 == TWO_64 - y;
      assert TWO_64 == 18_446_744_073 * NSEC_PER_SEC + 709_551_616;
      var q, r := y / NSEC_PER_SEC, y % NSEC_PER_SEC;
      if r <= 709_551_616 {
        DivisionUnique(TWO_64 - y, NSEC_PER_SEC, 18_446_744_073 - q, 709_551_616 - r);
      } else {
        DivisionUnique(TWO_64 - y, NSEC_PER_SEC, 18_446_744_072 - q, NSEC_PER_SEC + 709_551_616 - r);
      }
    }
  }

  /** For a ratio whose denominator divides 10^9 * num, the conversion is exact for exactly
      the non-negative tick counts. */
  lemma ConversionExact(ticks: int, num: int, den: int)
    requires num > 0 && den > 0 && NSEC_PER_SEC * num % den == 0 && InRange(ticks, num, den)
    ensures IsExact(FromRatio(ticks, num, den), ticks, num, den) <==> ticks >= 0
  {
    var factor := NSEC_PER_SEC * num / den;
    var n := ticks * factor;
    FactorIsExact(num, den);
    NanosOfRatio(ticks, num, den);
    SplitExact(n);
    SameSign(ticks, factor);
    Regroup(ticks, num, den, factor);
    MultiplyOrder(FromRatio(ticks, num, den).Nanos(), n, den);
  }

  /** A negative count of such a ratio comes out too large by the same amount whatever the
      count: 2^64 modulo 10^9 nanoseconds, or a second more. */
  lemma NegativeTicksOff(ticks: int, num: int, den: int)
    requires num > 0 && den > 0 && NSEC_PER_SEC * num % den == 0 && InRange(ticks, num, den) && ticks < 0
    ensures var n := ticks * (NSEC_PER_SEC * num / den);
      FromRatio(ticks, num, den).Nanos() == n + if -n % NSEC_PER_SEC <= 709_551_616 then 709_551_616 else 1_709_551_616
  {
    FactorIsExact(num, den);
    NanosOfRatio(ticks, num, den);
    SameSign(ticks, NSEC_PER_SEC * num / den);
    SplitExact(ticks * (NSEC_PER_SEC * num / den));
  }

  /** For other ratios a negative count can come out exactly: -871345152 thirds of a second. */
  lemma NegativeCanBeExact()
    ensures InRange(-871345152, 1, 3) && IsExact(FromRatio(-871345152, 1, 3), -871345152, 1, 3)
  {
  }

  lemma SameSign(ticks: int, factor: int)
    requires factor > 0
    ensures ticks >= 0 <==> ticks * factor >= 0
  {
    MultiplyOrder(ticks, 0, factor);
    MultiplyOrder(-1, ticks, factor);
  }

  lemma Regroup(ticks: int, num: int, den: int, factor: int)
    requires NSEC_PER_SEC * num == factor * den
    ensures ticks * num * NSEC_PER_SEC == ticks * factor * den
  {
    assert ticks * num * NSEC_PER_SEC == ticks * (NSEC_PER_SEC * num);
    assert ticks * factor * den == ticks * (factor * den);
  }

  /** For any other ratio one tick is not exact: it is no whole number of nanoseconds. */
  lemma OtherRatiosAreInexact(num: int, den: int)
    requires num > 0 && den > 0 && NSEC_PER_SEC * num % den != 0
    ensures !IsExact(FromRatio(1, num, den), 1, num, den)
  {
    var n := FromRatio(1, num, den).Nanos();
    if n * den == 1 * num * NSEC_PER_SEC {
      DivisionUnique(NSEC_PER_SEC * num, den, n, 0);
    }
  }

  /** Every representable non-negative count of a ratio is converted exactly if and only if
      the ratio's denominator divides 10^9 times its numerator. */
  lemma RatioExactIff(num: int, den: int)
    requires num > 0 && den > 0 && NSEC_PER_SEC * num <= INT64_MAX
    ensures (forall ticks | ticks >= 0 && InRange(ticks, num, den) ::
               IsExact(FromRatio(ticks, num, den), ticks, num, den))
       <==> NSEC_PER_SEC * num % den == 0
  {
    if NSEC_PER_SEC * num % den == 0 {
      forall ticks | ticks >= 0 && InRange(ticks, num, den)
        ensures IsExact(FromRatio(ticks, num, den), ticks, num, den)
      {
        ConversionExact(ticks, num, den);
      }
    } else {
      OtherRatiosAreInexact(num, den);
      OneTickInRange(num, den);
    }
  }

  lemma OneTickInRange(num: int, den: int)
    requires num > 0 && den > 0 && NSEC_PER_SEC * num <= INT64_MAX
    ensures InRange(1, num, den)
  {
    QuotientBelow(NSEC_PER_SEC * num, den);
    hide Truncated;
    assert 1 * num == num && 1 * (NSEC_PER_SEC * num / den) == NSEC_PER_SEC * num / den;
  }

  lemma QuotientBelow(a: int, b: int)
    requires a >= 0 && b > 0
    ensures 0 <= a / b <= a
  {
    assert a == (a / b) * b + a % b;
    AtLeastOnce(a / b, b);
  }

  lemma {:induction false} AtLeastOnce(q: int, b: int)
    requires q >= 0 && b > 0
    ensures q * b >= q
    decreases b
  {
    if b > 1 {
      AtLeastOnce(q, b - 1);
      assert q * b == q * (b - 1) + q;
    }
  }

  /** With at most 10^9 parts to the second, even a count that is a whole number of seconds
      is converted wrongly. */
  lemma WholeSecondsInexact(num: int, den: int)
    requires num > 0 && 0 < den <= NSEC_PER_SEC && NSEC_PER_SEC * num % den != 0
    requires NSEC_PER_SEC * num <= INT64_MAX
    ensures !IsExact(FromRatio(den, num, den), den, num, den)
  {
    var whole := NSEC_PER_SEC * num;
    var factor, rest := whole / den, whole % den;
    assert den * factor == whole - rest;
    DivisionUnique(den * num, den, num, 0);
    assert den * num >= 0;
    RestOfSecond(whole, rest, num);
    var t := FromRatio(den, num, den);
    assert t == Timespec(num, NSEC_PER_SEC - rest);
    assert t.Nanos() == whole + (NSEC_PER_SEC - rest);
    MultiplyOrder(whole, t.Nanos(), den);
    assert den * num * NSEC_PER_SEC == whole * den;
  }

  lemma RestOfSecond(whole: int, rest: int, num: int)
    requires whole == NSEC_PER_SEC * num && 0 < rest < NSEC_PER_SEC && 0 < num && whole <= INT64_MAX
    ensures (whole - rest) % TWO_64 % NSEC_PER_SEC == NSEC_PER_SEC - rest
  {
    DivisionUnique(whole - rest, NSEC_PER_SEC, num - 1, NSEC_PER_SEC - rest);
  }

  /** Duration::to for a unit of 1/den seconds: the nanoseconds over those of one unit. */
  function ToUnit(t: Timespec, den: int): int
    requires den > 0 && NSEC_PER_SEC / den > 0
  {
    Truncated(t.Nanos(), NSEC_PER_SEC / den)
  }

  // Seconds, milli-, micro- and nanoseconds.
  predicate IsUnit(den: int) {
    den == 1 || den == 1_000 || den == 1_000_000 || den == 1_000_000_000
  }

  /** What is no whole number of units is cut off towards zero. */
  lemma ToUnitTruncates(t: Timespec, den: int)
    requires IsUnit(den)
    ensures var unit, n, k := NSEC_PER_SEC / den, t.sec * NSEC_PER_SEC + t.nsec, ToUnit(t, den);
      if n >= 0 then 0 <= k * unit <= n < k * unit + unit else k * unit - unit < n <= k * unit <= 0
  {
    var unit, n := NSEC_PER_SEC / den, t.Nanos();
    assert unit == 1 || unit == 1_000 || unit == 1_000_000 || unit == 1_000_000_000;
  }

  /** Converting ticks of a unit to a Duration and back returns them if and only if they are
      not negative. */
  lemma UnitRoundTripExact(ticks: int, den: int)
    requires IsUnit(den) && InRange(ticks, 1, den)
    ensures ToUnit(FromRatio(ticks, 1, den), den) == ticks <==> ticks >= 0
  {
    var unit := NSEC_PER_SEC / den;
    var n := ticks * unit;
    assert NSEC_PER_SEC * 1 % den == 0 && unit > 0;
    NanosOfRatio(ticks, 1, den);
    SplitExact(n);
    var nanos := FromRatio(ticks, 1, den).Nanos();
    if ticks >= 0 {
      assert nanos == n;
      DivisionUnique(n, unit, ticks, 0);
    } else {
      TooLarge(nanos, n, ticks, unit);
    }
  }

  lemma TooLarge(nanos: int, n: int, ticks: int, unit: int)
    requires unit > 0 && n == ticks * unit && ticks < 0
    requires nanos >= n + 709_551_616 && unit <= NSEC_PER_SEC
    ensures Truncated(nanos, unit) != ticks
  {
    if nanos < 0 {
      var m := -nanos;
      assert m == (m / unit) * unit + m % unit;
      assert m < (-ticks) * unit by { assert (-ticks) * unit == -n; }
    }
  }
}
