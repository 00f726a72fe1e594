/** quotes/service.py: satoshis to duffs, always rounded up, under finite-precision division. */
module Quotes {
  import opened Base
  import opened Decimal
  import opened Amounts

  datatype QuoteError = SatsTooSmall | RateNotPositive

  datatype DuffsResult = Duffs(duffs: nat) | Refused(error: QuoteError)

  function SatsPerDash(dashBtc: Dec): Dec { Mul(Dec(COIN, 0), dashBtc) }

  function Collected(sats: nat): Dec { Mul(Dec(sats, 0), Dec(COIN, 0)) }

  /** duffs_from_sats; a rate whose product rounds to zero does not occur, since rounding keeps 28 digits. */
  function DuffsFromSats(sats: int, dashBtc: Dec): DuffsResult {
    if sats < 1 then Refused(SatsTooSmall)
    else if dashBtc.coef == 0 then Refused(RateNotPositive)
    else
      RateStaysPositive(dashBtc);
      Duffs(Ceiling(Div(Collected(sats), SatsPerDash(dashBtc))))
  }

  /** The exact price: the least whole number of duffs worth at least sats at dashBtc = m / 10^k. */
  function ExactDuffs(sats: nat, m: nat, k: nat): nat
    requires m > 0
  {
    CeilDiv(Shift(sats, k), m)
  }

  lemma RoundedPositive(d: Dec)
    requires d.coef > 0
    ensures Rounded(d).coef > 0
  {
    var n := Excess(d.coef);
    ExcessFacts(d.coef);
    if n == 0 {
      assert Pow10(0) == 1;
      HalfEvenExact(d.coef, 1);
    } else {
      assert d.coef >= LIMIT * Pow10(n - 1) == LIMIT / 10 * Pow10(n);
      HalfEvenNearest(d.coef, Pow10(n));
    }
  }

  lemma RateStaysPositive(dashBtc: Dec)
    requires dashBtc.coef > 0
    ensures SatsPerDash(dashBtc).coef > 0
  {
    MulStrict(0, dashBtc.coef, COIN);
    RoundedPositive(Dec(COIN * dashBtc.coef, dashBtc.exp));
  }

  // ---------- the quotient the context computes ----------

  lemma RoundedBelowLimit(d: Dec)
    ensures Rounded(d).coef < LIMIT
  {
    var n := Excess(d.coef);
    ExcessFacts(d.coef);
    HalfEvenNearest(d.coef, Pow10(n));
    var c := HalfEven(d.coef, Pow10(n));
    if c > LIMIT {
      MulMonotone(LIMIT + 1, c, Pow10(n));
    }
  }

  /** The rate m / 10^k as a decimal. */
  function Rate(m: nat, k: nat): Dec { Dec(m, -(k as int)) }

  /** Both operands of the division are exact: only the quotient is rounded. */
  lemma OperandsExact(sats: nat, m: nat, k: nat) returns (u: nat, v: nat)
    requires sats < LIMIT && m < LIMIT
    ensures u <= 8 && v <= 8
    ensures Collected(sats) == Dec(Shift(sats, 8 - u), u)
    ensures SatsPerDash(Rate(m, k)) == Dec(Shift(m, 8 - v), v - k)
  {
    assert Pow10(8) == COIN;
    u := RoundedExact(sats, 8, 0);
    v := RoundedExact(m, 8, -(k as int));
    assert COIN * m == Shift(m, 8);
  }

  lemma Rearrange(a: int, x: int, b: int, y: int)
    ensures a * x * (b * y) == a * b * (x * y)
  {
    assert x * (b * y) == b * (x * y);
    MulAssociates(a, x, b * y);
    MulAssociates(a, b, x * y);
  }

  lemma SameRatio(p: nat, q: nat, a: nat, b: nat, c: nat, d: nat)
    requires a + d == b + c
    ensures Shift(p, a) * Shift(q, d) == Shift(p, b) * Shift(q, c)
  {
    Rearrange(p, Pow10(a), q, Pow10(d));
    Rearrange(p, Pow10(b), q, Pow10(c));
    Pow10Add(a, d);
    Pow10Add(b, c);
  }

  /**
   * A product identity num * m == n * den turns bounds and rounding of num/den into those of n/m.
   */
  lemma TransferBounds(num: nat, den: nat, n: nat, m: nat)
    requires den > 0 && m > 0 && num * m == n * den
    requires den * (LIMIT / 10) <= num < den * LIMIT
    ensures m * (LIMIT / 10) <= n < m * LIMIT
    ensures HalfEven(num, den) == HalfEven(n, m)
  {
    HalfEvenRatio(num, den, n, m);
    MulMonotone(den * (LIMIT / 10), num, m);
    MulStrict(num, den * LIMIT, m);
    assert den * (LIMIT / 10) * m == m * (LIMIT / 10) * den;
    assert den * LIMIT * m == m * LIMIT * den;
    MulCancel(n, m * LIMIT, den);
    MulCancel(n, m * (LIMIT / 10), den);
  }

  /** The number of fractional digits 28 significant digits leave for n/m. */
  function FractionDigits(n: nat, m: nat): nat
    requires n > 0 && m > 0
  {
    ScaleUp(n, m)
  }

  lemma FractionDigitsUnique(n: nat, m: nat, t: nat)
    requires n > 0 && m > 0
    requires m * (LIMIT / 10) <= Shift(n, t) < m * LIMIT
    requires n < m * LIMIT
    ensures t == FractionDigits(n, m)
  {
    var s := ScaleUp(n, m);
    ScaleUpFacts(n, m);
    assert Shift(n, 0) == n;
    if s < t {
      OneScaleFits(n, m, s, t);
    } else if t < s {
      OneScaleFits(n, m, t, s);
    }
  }

  lemma OneScaleFits(n: nat, m: nat, s: nat, t: nat)
    requires s < t && m * (LIMIT / 10) <= Shift(n, s)
    ensures m * LIMIT <= Shift(n, t)
  {
    GrowsTenfold(n, s, t);
    Tenths(m);
  }

  lemma Tenths(m: nat)
    ensures m * LIMIT == 10 * (m * (LIMIT / 10))
  {
  }

  lemma GrowsTenfold(n: nat, s: nat, t: nat)
    requires s < t
    ensures Shift(n, t) >= 10 * Shift(n, s)
  {
    Pow10AtMost(s + 1, t);
    MulMonotone(Pow10(s + 1), Pow10(t), n);
  }

  lemma CeilDivTenth(num: nat, den: nat)
    requires den > 0
    ensures CeilDiv(num, den) == CeilDiv(10 * num, 10 * den)
  {
    var q := CeilDiv(num, den);
    MulAssociates(10, q, den);
    MulAssociates(10, (q as int) - 1, den);
    CeilDivUnique(10 * num, 10 * den, q);
  }

  lemma CeilingOfDec(c: nat, t: nat)
    ensures Ceiling(Dec(c, -(t as int))) == CeilDiv(c, Pow10(t))
  {
    if t == 0 {
      CeilDivUnique(c, 1, c);
    }
  }

  lemma CeilingOfLimit(t: nat)
    ensures Ceiling(Dec(LIMIT / 10, 1 - t)) == CeilDiv(LIMIT, Pow10(t))
  {
    if t == 0 {
      CeilDivUnique(LIMIT, 1, LIMIT);
      assert Pow10(1) == 10;
    } else {
      CeilingOfDec(LIMIT / 10, t - 1);
      CeilDivTenth(LIMIT / 10, Pow10(t - 1));
    }
  }

  /** Rounding up a quotient kept to t fractional digits, carried or not. */
  lemma CeilingOfCarried(c: nat, t: nat)
    requires c <= LIMIT
    ensures Ceiling(Carried(c, -(t as int))) == CeilDiv(c, Pow10(t))
  {
    CeilingOfDec(c, t);
    CeilingOfLimit(t);
  }

  lemma TooLarge(n: nat, m: nat, over: nat)
    requires over > 0 && Shift(m, over) * (LIMIT / 10) <= n
    ensures m * LIMIT <= n
  {
    Pow10AtMost(1, over);
    MulMonotone(10, Pow10(over), m);
  }

  /** A quotient scaled to 28 digits whose point lies beyond them is at least 10^28. */
  lemma PointWithinDigits(sats: nat, m: nat, k: nat, i: nat, j: nat, over: nat)
    requires m > 0 && over > 0
    requires i + over == k + j
    requires Shift(m, j) * (LIMIT / 10) <= Shift(sats, i) < Shift(m, j) * LIMIT
    ensures m * LIMIT <= Shift(sats, k)
  {
    MulStrict(0, m, Pow10(j));
    MulStrict(0, m, Pow10(over));
    SameRatio(sats, m, i, k, j, over);
    TransferBounds(Shift(sats, i), Shift(m, j), Shift(sats, k), Shift(m, over));
    TooLarge(Shift(sats, k), m, over);
  }

  lemma SameDigits(sats: nat, m: nat, i: nat, j: nat, n: nat)
    requires m > 0 && i == n + j
    requires Shift(m, j) * (LIMIT / 10) <= Shift(sats, i) < Shift(m, j) * LIMIT
    ensures m * (LIMIT / 10) <= Shift(sats, n) < m * LIMIT
    ensures Shift(m, j) > 0 && HalfEven(Shift(sats, i), Shift(m, j)) == HalfEven(Shift(sats, n), m)
  {
    MulStrict(0, m, Pow10(j));
    assert Shift(m, 0) == m;
    SameRatio(sats, m, i, n, j, 0);
    TransferBounds(Shift(sats, i), Shift(m, j), Shift(sats, n), m);
  }

  /** Dividing sats by m, each with some of its zeros moved into the exponent. */
  lemma DivideShifted(sats: nat, m: nat, k: nat, i: nat, j: nat, a: Dec, b: Dec, quotient: Dec) returns (t: nat)
    requires m > 0 && 0 < Shift(sats, i) < LIMIT && Shift(m, j) > 0
    requires Shift(sats, k) < m * LIMIT
    requires a.coef == Shift(sats, i) && b.coef == Shift(m, j) && i + a.exp - b.exp - j == k
    requires quotient == Div(a, b)
    ensures m * (LIMIT / 10) <= Shift(sats, k + t) < m * LIMIT
    ensures quotient == Carried(HalfEven(Shift(sats, k + t), m), -(t as int))
  {
    MulMonotone(1, Shift(m, j), LIMIT);
    var s := DivBelowLimit(a, b);
    SplitPower(sats, i, s);
    var digits := s - a.exp + b.exp;
    if digits < 0 {
      PointWithinDigits(sats, m, k, i + s, j, -digits);
    }
    t := digits;
    SameDigits(sats, m, i + s, j, k + t);
  }

  lemma RoundedQuotientAtMost(n: nat, m: nat)
    requires m > 0 && n < m * LIMIT
    ensures HalfEven(n, m) <= LIMIT
  {
    DivisionFacts(n, m);
    MulCancel(n / m, LIMIT, m);
  }

  /** What the context computes: the exact quotient rounded half-even to t digits, then rounded up. */
  lemma QuotientAsRounded(sats: nat, m: nat, k: nat) returns (t: nat)
    requires 0 < sats < LIMIT && 0 < m < LIMIT
    requires Shift(sats, k) < m * LIMIT
    ensures m * (LIMIT / 10) <= Shift(sats, k + t) < m * LIMIT
    ensures DuffsFromSats(sats, Rate(m, k)) == Duffs(CeilDiv(HalfEven(Shift(sats, k + t), m), Pow10(t)))
  {
    var u, v := OperandsExact(sats, m, k);
    RateStaysPositive(Rate(m, k));
    RoundedBelowLimit(Dec(sats * COIN, 0));
    MulStrict(0, sats, Pow10(8 - u));
    var a, b := Collected(sats), SatsPerDash(Rate(m, k));
    t := DivideShifted(sats, m, k, 8 - u, 8 - v, a, b, Div(a, b));
    RoundedQuotientAtMost(Shift(sats, k + t), m);
    CeilingOfCarried(HalfEven(Shift(sats, k + t), m), t);
  }

  // ---------- when the quote is the exact price ----------

  /**
   * The exact price n/m is not whole, but so little above a whole number of duffs that
   * 28 significant digits drop the fraction.
   */
  predicate RoundsAway(n: nat, m: nat)
    requires n > 0 && m > 0
  {
    var rest := Shift(n % m, FractionDigits(n, m));
    n % m > 0 && (2 * rest < m || (2 * rest == m && Shift(n / m, FractionDigits(n, m)) % 2 == 0))
  }

  lemma AddMultiple(low: nat, rest: nat, m: nat)
    requires m > 0
    ensures (low * m + rest) / m == low + rest / m
    ensures (low * m + rest) % m == rest % m
  {
    DivisionFacts(rest, m);
    assert (low + rest / m) * m == low * m + rest / m * m;
    QuotientUnique(low * m + rest, m, low + rest / m, rest % m);
  }

  lemma Distribute(j: nat, m: nat, r: nat, p: nat)
    ensures (j * m + r) * p == j * p * m + r * p
  {
  }

  /** Rounding low + rest/m, a fraction of p parts above low, ends between low and low + p. */
  lemma RoundedFraction(low: nat, rest: nat, m: nat, p: nat, c: nat)
    requires m > 0 && rest < m * p
    requires c == HalfEven(low * m + rest, m)
    ensures low <= c <= low + p
    ensures c == low <==> 2 * rest < m || (2 * rest == m && low % 2 == 0)
  {
    AddMultiple(low, rest, m);
    DivisionFacts(rest, m);
    MulCancel(rest / m, p, m);
    if rest < m {
      QuotientUnique(rest, m, 0, rest);
    } else if rest / m <= 0 {
      MulMonotone(rest / m, 0, m);
    }
  }

  /** The ceiling of a value between two whole numbers j and j + 1, in parts of p. */
  lemma CeilBetween(c: nat, j: nat, p: nat)
    requires p > 0 && j * p <= c <= j * p + p
    ensures CeilDiv(c, p) == if c == j * p then j else j + 1
  {
    assert (j + 1) * p == j * p + p;
    if c == j * p {
      MulStrict(j - 1, j, p);
      CeilDivUnique(c, p, j);
    } else {
      CeilDivUnique(c, p, j + 1);
    }
  }

  lemma CeilingOfRounded(n: nat, m: nat)
    requires 0 < n && 0 < m
    ensures CeilDiv(HalfEven(Shift(n, FractionDigits(n, m)), m), Pow10(FractionDigits(n, m)))
         == CeilDiv(n, m) - if RoundsAway(n, m) then 1 else 0
  {
    var t := FractionDigits(n, m);
    var j, r := n / m, n % m;
    DivisionFacts(n, m);
    Distribute(j, m, r, Pow10(t));
    MulStrict(r, m, Pow10(t));
    var c := HalfEven(Shift(n, t), m);
    RoundedFraction(Shift(j, t), Shift(r, t), m, Pow10(t), c);
    CeilBetween(c, j, Pow10(t));
    CeilBetween(n, j, m);
    if r == 0 {
      assert Shift(0, t) == 0;
    }
  }

  /**
   * The quote in full: for operands of at most 28 digits and a price below 10^28 duffs it is the
   * exact price, or one duff less exactly when the division rounds the fraction away.
   */
  lemma QuoteExactly(sats: nat, m: nat, k: nat)
    requires 0 < sats < LIMIT && 0 < m < LIMIT
    requires Shift(sats, k) < m * LIMIT
    ensures Shift(sats, k) > 0
    ensures DuffsFromSats(sats, Rate(m, k))
         == Duffs(ExactDuffs(sats, m, k) - if RoundsAway(Shift(sats, k), m) then 1 else 0)
  {
    MulStrict(0, sats, Pow10(k));
    var t := QuotientAsRounded(sats, m, k);
    SplitPower(sats, k, t);
    FractionDigitsUnique(Shift(sats, k), m, t);
    CeilingOfRounded(Shift(sats, k), m);
  }

  /** A rate with few enough digits for the size of the price never rounds a fraction away. */
  lemma NeverRoundsAway(n: nat, m: nat, magnitude: nat)
    requires m > 0 && 0 < n < Shift(m, magnitude)
    requires Shift(m, magnitude) < 2 * LIMIT
    ensures !RoundsAway(n, m)
  {
    var t := FractionDigits(n, m);
    ScaleUpFacts(n, m);
    EnoughDigits(n, m, magnitude, t);
    At28Digits(magnitude + t);
    Pow10Add(t, magnitude);
    if n % m > 0 {
      MulMonotone(1, n % m, Pow10(t));
      if 2 * Pow10(t) <= m {
        MulMonotone(2 * Pow10(t), m, Pow10(magnitude));
        MulAssociates(2, Pow10(t), Pow10(magnitude));
      }
    }
  }

  lemma EnoughDigits(n: nat, m: nat, magnitude: nat, t: nat)
    requires m > 0 && n < Shift(m, magnitude) && m * (LIMIT / 10) <= n * Pow10(t)
    ensures LIMIT / 10 < Pow10(magnitude + t)
  {
    MulStrict(n, Shift(m, magnitude), Pow10(t));
    SplitPower(m, magnitude, t);
    MulCancel(LIMIT / 10, Pow10(magnitude + t), m);
  }

  lemma At28Digits(n: nat)
    requires LIMIT / 10 < Pow10(n)
    ensures LIMIT <= Pow10(n)
  {
    LimitIsPow10();
    Pow10Below(27, n);
    Pow10AtMost(28, n);
  }

  lemma MagnitudeAtMost28(m: nat, magnitude: nat)
    requires m > 0 && Shift(m, magnitude) < 2 * LIMIT
    ensures magnitude <= 28 && Shift(m, magnitude) <= m * LIMIT
  {
    LimitIsPow10();
    MulMonotone(1, m, Pow10(magnitude));
    Pow10Below(magnitude, 29);
    Pow10AtMost(magnitude, 28);
    MulMonotone(Pow10(magnitude), LIMIT, m);
  }

  /** With m * 10^magnitude < 2 * 10^28 and a price below 10^magnitude, the quote is the exact price. */
  lemma QuoteExactUnderBound(sats: nat, m: nat, k: nat, magnitude: nat)
    requires 0 < sats < LIMIT && 0 < m < LIMIT
    requires Shift(sats, k) < Shift(m, magnitude)
    requires Shift(m, magnitude) < 2 * LIMIT
    ensures DuffsFromSats(sats, Rate(m, k)) == Duffs(ExactDuffs(sats, m, k))
  {
    MagnitudeAtMost28(m, magnitude);
    QuoteExactly(sats, m, k);
    NeverRoundsAway(Shift(sats, k), m, magnitude);
  }

  /** The exact price is the least number of duffs whose worth at the rate covers the satoshis. */
  lemma ExactDuffsIsLeast(sats: nat, m: nat, k: nat, d: nat)
    requires m > 0
    ensures d * m >= Shift(sats, k) <==> d >= ExactDuffs(sats, m, k)
  {
    var q := ExactDuffs(sats, m, k);
    if d >= q {
      MulMonotone(q, d, m);
    } else {
      MulMonotone(d, q - 1, m);
    }
  }

  const SHORT_RATE: nat := 398105020104303515267327521

  lemma ShortfallQuotient()
    ensures Shift(1, 31) == 25_119 * SHORT_RATE + 1
    ensures Shift(1, 31) / SHORT_RATE == 25_119 && Shift(1, 31) % SHORT_RATE == 1
  {
    LimitIsPow10();
    Pow10Add(28, 3);
    assert Pow10(3) == 1000;
    QuotientUnique(Shift(1, 31), SHORT_RATE, 25_119, 1);
  }

  lemma ShortfallDigits()
    ensures FractionDigits(Shift(1, 31), SHORT_RATE) == 23
  {
    ShortfallQuotient();
    LimitIsPow10();
    Pow10Add(31, 23);
    Pow10Add(27, 27);
    FractionDigitsUnique(Shift(1, 31), SHORT_RATE, 23);
  }

  lemma UnitRoundsAway(n: nat, m: nat, t: nat)
    requires n > 0 && m > 0 && n % m == 1 && t == FractionDigits(n, m) && 2 * Pow10(t) < m
    ensures RoundsAway(n, m)
  {
    assert Shift(1, t) == Pow10(t);
  }

  lemma ShortfallRoundsAway()
    ensures Shift(1, 31) > 0 && RoundsAway(Shift(1, 31), SHORT_RATE)
  {
    ShortfallQuotient();
    ShortfallDigits();
    Pow10AtMost(23, 24);
    assert Pow10(24) == 1_000_000_000_000_000_000_000_000;
    UnitRoundsAway(Shift(1, 31), SHORT_RATE, 23);
  }

  lemma ShortfallPrice()
    ensures ExactDuffs(1, SHORT_RATE, 31) == 25_120
  {
    ShortfallQuotient();
    CeilDivUnique(Shift(1, 31), SHORT_RATE, 25_120);
  }

  /** A rate of 27 digits at which one satoshi is quoted below its worth: rounding up alone does not prevent it. */
  lemma QuoteCanFallShort(m: nat)
    requires m == SHORT_RATE
    ensures DuffsFromSats(1, Rate(m, 31)) == Duffs(25_119)
    ensures ExactDuffs(1, m, 31) == 25_120 && 25_119 * m < Shift(1, 31)
  {
    ShortfallQuotient();
    ShortfallRoundsAway();
    ShortfallPrice();
    QuoteExactly(1, m, 31);
  }
}
