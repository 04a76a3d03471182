/**
  Simple-interest arithmetic and day counting (src-tauri/src/calculator.rs).
  Money is exact `real` arithmetic; the rounding to cents is written out.
*/
module Calculator {
  import opened Civil

  /** Rust's `f64::round`: the nearest integer, with halves rounded away
      from zero. */
  function RoundHalfAway(x: real): (n: int)
    ensures -0.5 <= n as real - x <= 0.5
    ensures n as real - x == 0.5 ==> x > 0.0
    ensures x - n as real == 0.5 ==> x < 0.0
  {
    if x >= 0.0 then (x + 0.5).Floor else -((-x + 0.5).Floor)
  }

  /** A whole number of cents. */
  predicate WholeCents(x: real) {
    (x * 100.0).Floor as real == x * 100.0
  }

  /** `(x * 100).round() / 100`: `x` rounded to cents, halves away from zero. */
  function Round2(x: real): (r: real)
    ensures WholeCents(r)
    ensures -0.005 <= r - x <= 0.005
    ensures r - x == 0.005 ==> x > 0.0
    ensures x - r == 0.005 ==> x < 0.0
  {
    var n := RoundHalfAway(x * 100.0);
    assert (n as real / 100.0) * 100.0 == n as real;
    assert (n as real / 100.0 - x) * 100.0 == n as real - x * 100.0;
    n as real / 100.0
  }

  /** Interest before rounding: principal × rate × days / 365. */
  function SimpleInterest(principal: real, rate: real, days: int): real {
    principal * rate * (days as real / 365.0)
  }

  /** Simple interest on `principal` at the annual decimal `rate` for
      `days` days, rounded to cents. */
  function ComputeInterest(principal: real, rate: real, days: int): (r: real)
    ensures WholeCents(r)
    ensures -0.005 <= r - SimpleInterest(principal, rate, days) <= 0.005
    ensures principal == 0.0 || rate == 0.0 || days == 0 ==> r == 0.0
    ensures r - SimpleInterest(principal, rate, days) == 0.005 ==> SimpleInterest(principal, rate, days) > 0.0
    ensures SimpleInterest(principal, rate, days) - r == 0.005 ==> SimpleInterest(principal, rate, days) < 0.0
  {
    var exact := SimpleInterest(principal, rate, days);
    assert principal == 0.0 || rate == 0.0 || days == 0 ==> exact == 0.0;
    Round2(exact)
  }

  /** chrono's `(to_date - from_date).num_days()`: signed, negative when
      `to` is the earlier date. */
  function DaysBetween(from: Date, to: Date): (n: int)
    ensures n >= 0 <==> !Before(to, from)
    ensures n == 0 <==> from == to
  {
    OrdinalMonotone(to, from);
    Ordinal(to) - Ordinal(from)
  }

  // ---------------------------------------------------------------------
  // Lemmas

  /** Rounding is determined by its contract: the unique integer within
      one half of `x`, ties going away from zero. */
  lemma RoundHalfAwayUnique(x: real, n: int)
    requires -0.5 <= n as real - x <= 0.5
    requires n as real - x == 0.5 ==> x > 0.0
    requires x - n as real == 0.5 ==> x < 0.0
    ensures n == RoundHalfAway(x)
  {
    var m := RoundHalfAway(x);
    assert -1.0 <= n as real - m as real <= 1.0;
  }

  /** Rounding commutes with negation: halves go away from zero on both sides. */
  lemma RoundHalfAwayOdd(x: real)
    ensures RoundHalfAway(-x) == -RoundHalfAway(x)
  {
    RoundHalfAwayUnique(-x, -RoundHalfAway(x));
  }

  /** The interest is the unique whole number of cents closest to the exact
      interest; an exact half cent goes away from zero. */
  lemma ComputeInterestUnique(principal: real, rate: real, days: int, c: real)
    requires WholeCents(c)
    requires -0.005 < c - SimpleInterest(principal, rate, days) < 0.005
    ensures c == ComputeInterest(principal, rate, days)
  {
    var x := SimpleInterest(principal, rate, days) * 100.0;
    var n := (c * 100.0).Floor;
    RoundHalfAwayUnique(x, n);
  }

  /** Interest on a non-negative exact amount is non-negative. */
  lemma ComputeInterestNonNegative(principal: real, rate: real, days: int)
    requires SimpleInterest(principal, rate, days) >= 0.0
    ensures ComputeInterest(principal, rate, days) >= 0.0
  {
  }

  /** $10,000 at 5% for 365 days earns exactly $500. */
  lemma FullYearExample()
    ensures ComputeInterest(10000.0, 0.05, 365) == 500.0
  {
    ComputeInterestUnique(10000.0, 0.05, 365, 500.0);
  }

  /** $10,000 at 10% for 180 days earns $493.15 (exact: 493.1506…). */
  lemma PartialYearExample()
    ensures ComputeInterest(10000.0, 0.10, 180) == 493.15
    ensures -0.01 < ComputeInterest(10000.0, 0.10, 180) - 493.15 < 0.01
  {
    ComputeInterestUnique(10000.0, 0.10, 180, 493.15);
  }

  /** $0.01 at 50% for 365 days is exactly half a cent, which rounds up to
      $0.01 rather than down to nothing. */
  lemma HalfCentExample()
    ensures SimpleInterest(0.01, 0.5, 365) == 0.005
    ensures ComputeInterest(0.01, 0.5, 365) == 0.01
  {
    var r := ComputeInterest(0.01, 0.5, 365);
    assert (r * 100.0).Floor as real == r * 100.0;
  }

  /** Day counts compose: a → b → c spans the days of a → c. */
  lemma DaysBetweenAdditive(a: Date, b: Date, c: Date)
    ensures DaysBetween(a, c) == DaysBetween(a, b) + DaysBetween(b, c)
    ensures DaysBetween(b, a) == -DaysBetween(a, b)
  {
  }

  /** Counting the days to a date `n` days later gives `n`. */
  lemma DaysBetweenAddDays(d: Date, n: int)
    ensures DaysBetween(d, AddDays(d, n)) == n
  {
  }

  /** 2024 is a leap year: 2024-01-01 to 2024-12-31 is 365 days. */
  lemma LeapYearExample()
    ensures DaysBetween(YearMonthDay(2024, 1, 1), YearMonthDay(2024, 12, 31)) == 365
  {
  }
}
