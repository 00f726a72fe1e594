/** How create_invoice prices a request: fees on top, then the quote for what is collected. */
module Pricing {
  import opened Base
  import opened Decimal
  import opened Quotes
  import opened HiveConfig

  lemma CeilDivSubadditive(x: nat, y: nat, z: nat, m: nat)
    requires m > 0 && x <= y + z
    ensures CeilDiv(x, m) <= CeilDiv(y, m) + CeilDiv(z, m)
  {
    CoversBoth(x, y, z, m, CeilDiv(x, m), CeilDiv(y, m), CeilDiv(z, m));
  }

  lemma CoversBoth(x: nat, y: nat, z: nat, m: nat, q: nat, r: nat, s: nat)
    requires m > 0 && x <= y + z && y <= r * m && z <= s * m && (q > 0 ==> (q - 1) * m < x)
    ensures q <= r + s
  {
    assert (r + s) * m == r * m + s * m;
    if q > 0 {
      MulCancel(q - 1, r + s, m);
    }
  }

  lemma PriceSubadditive(x: nat, y: nat, z: nat, m: nat, k: nat)
    requires m > 0 && x <= y + z
    ensures ExactDuffs(x, m, k) <= ExactDuffs(y, m, k) + ExactDuffs(z, m, k)
  {
    MulMonotone(x, y + z, Pow10(k));
    assert (y + z) * Pow10(k) == y * Pow10(k) + z * Pow10(k);
    CeilDivSubadditive(Shift(x, k), Shift(y, k), Shift(z, k), m);
  }

  /** Splitting a request in two never lowers the exact price either. */
  lemma SplitNeverPricesLess(a: nat, b: nat, f: Fees, m: nat, k: nat)
    requires ValidFees(f) && f.percent >= 0 && f.baseSats >= 0 && f.routingSats >= 0
    requires f.baseSats + f.routingSats >= 1
    requires m > 0
    ensures SatsCollect(a, f) >= 0 && SatsCollect(b, f) >= 0 && SatsCollect(a + b, f) >= 0
    ensures ExactDuffs(SatsCollect(a + b, f), m, k)
         <= ExactDuffs(SatsCollect(a, f), m, k) + ExactDuffs(SatsCollect(b, f), m, k)
  {
    CollectNonNegative(a, f);
    CollectNonNegative(b, f);
    CollectNonNegative(a + b, f);
    SplitNeverCollectsLess(a, b, f);
    PriceSubadditive(SatsCollect(a + b, f), SatsCollect(a, f), SatsCollect(b, f), m, k);
  }

  lemma CollectNonNegative(sats: nat, f: Fees)
    requires ValidFees(f) && f.percent >= 0 && f.baseSats >= 0 && f.routingSats >= 0
    ensures SatsCollect(sats, f) >= sats
  {
    MulMonotone(0, f.percent, sats);
    MulMonotone(0, f.baseSats, f.scale);
  }

  /** Quotes below the digit bound are subadditive. */
  lemma QuotesAdd(x: nat, y: nat, z: nat, m: nat, k: nat, magnitude: nat)
    requires 0 < x <= y + z && y > 0 && z > 0
    requires 0 < m < LIMIT && Shift(m, magnitude) < 2 * LIMIT
    requires y + z < LIMIT && Shift(y + z, k) < Shift(m, magnitude)
    ensures var whole, first := DuffsFromSats(x, Rate(m, k)), DuffsFromSats(y, Rate(m, k));
      var second := DuffsFromSats(z, Rate(m, k));
      whole.Duffs? && first.Duffs? && second.Duffs? && whole.duffs <= first.duffs + second.duffs
  {
    MulMonotone(x, y + z, Pow10(k));
    MulMonotone(y, y + z, Pow10(k));
    MulMonotone(z, y + z, Pow10(k));
    PriceSubadditive(x, y, z, m, k);
    QuoteExactUnderBound(x, m, k, magnitude);
    QuoteExactUnderBound(y, m, k, magnitude);
    QuoteExactUnderBound(z, m, k, magnitude);
  }

  /**
   * Nor does splitting lower the quotes create_invoice makes, of the amounts it computes in the decimal context, while
   * the scaled fee of the whole stays below 10^28 and the price of the parts within the digit bound.
   */
  lemma SplitNeverQuotesLess(a: nat, b: nat, c: FeeConfig, m: nat, k: nat, magnitude: nat)
    requires a > 0 && b > 0
    requires c.percent.exp <= 0 && c.routingSats >= 0 && c.baseSats + c.routingSats >= 1
    requires c.percent.coef * (a + b) + Shift(c.baseSats, -c.percent.exp) < LIMIT
    requires 0 < m < LIMIT && Shift(m, magnitude) < 2 * LIMIT
    requires 0 <= CollectDecimal(a, c) + CollectDecimal(b, c) < LIMIT
    requires Shift(CollectDecimal(a, c) + CollectDecimal(b, c), k) < Shift(m, magnitude)
    ensures CollectDecimal(a, c) >= 0 && CollectDecimal(b, c) >= 0 && CollectDecimal(a + b, c) >= 0
    ensures var whole := DuffsFromSats(CollectDecimal(a + b, c), Rate(m, k));
      var first := DuffsFromSats(CollectDecimal(a, c), Rate(m, k));
      var second := DuffsFromSats(CollectDecimal(b, c), Rate(m, k));
      whole.Duffs? && first.Duffs? && second.Duffs? && whole.duffs <= first.duffs + second.duffs
  {
    var f := Fees(c.percent.coef, Pow10(-c.percent.exp), c.baseSats, c.routingSats);
    CollectsExactly(a, c, f, a + b);
    CollectsExactly(b, c, f, a + b);
    CollectsExactly(a + b, c, f, a + b);
    CollectNonNegative(a, f);
    CollectNonNegative(b, f);
    CollectNonNegative(a + b, f);
    SplitNeverCollectsLess(a, b, f);
    QuotesAdd(SatsCollect(a + b, f), SatsCollect(a, f), SatsCollect(b, f), m, k, magnitude);
  }

  lemma CollectsExactly(sats: nat, c: FeeConfig, f: Fees, whole: nat)
    requires c.percent.exp <= 0 && sats <= whole
    requires c.percent.coef * whole + Shift(c.baseSats, -c.percent.exp) < LIMIT
    requires f == Fees(c.percent.coef, Pow10(-c.percent.exp), c.baseSats, c.routingSats)
    ensures CollectDecimal(sats, c) == SatsCollect(sats, f)
  {
    MulMonotone(sats, whole, c.percent.coef);
    CollectDecimalExact(sats, c.percent.coef, -c.percent.exp, c.baseSats, c.routingSats);
  }
}
