/** What a created invoice is priced at, from the request and the market alone. */
module CreationLaws {
  import opened Base
  import opened Decimal
  import opened Quotes
  import opened Settlement
  import opened Invoices
  import opened Collection
  import opened HiveConfig
  import opened Creation

  /** fee is the integer nearest to exact/scale, the larger of two. */
  predicate NearestUp(fee: int, exact: int, scale: nat) {
    2 * (fee * scale) <= 2 * exact + scale && 2 * exact < 2 * (fee * scale) + scale
  }

  lemma NearestUpUnique(a: int, b: int, exact: int, scale: nat)
    requires scale > 0 && NearestUp(a, exact, scale) && NearestUp(b, exact, scale)
    ensures a == b
  {
    assert (b + 1) * scale == b * scale + scale && (a + 1) * scale == a * scale + scale;
    if a >= b + 1 {
      MulMonotone(b + 1, a, scale);
    }
    if b >= a + 1 {
      MulMonotone(a + 1, b, scale);
    }
  }

  /** What is collected for a request: the request, the fee, and the routing fee. */
  lemma CollectedWithFee(sats: nat, c: FeeConfig, percent: nat, j: nat, fee: int)
    requires c.percent == Dec(percent, -(j as int)) && percent * sats + Shift(c.baseSats, j) < LIMIT
    requires NearestUp(fee, percent * sats + c.baseSats * Pow10(j), Pow10(j))
    ensures CollectDecimal(sats, c) == sats + fee + c.routingSats
  {
    CollectDecimalExact(sats, percent, j, c.baseSats, c.routingSats);
    MulMonotone(0, percent, sats);
    NearestUpUnique(fee, HalfUp(percent * sats + c.baseSats * Pow10(j), Pow10(j)),
      percent * sats + c.baseSats * Pow10(j), Pow10(j));
  }

  /** The rate percent / 10^j of the configuration, and a fee as it comes to. */
  predicate FeeOf(req: Request, c: FeeConfig, percent: nat, j: nat, fee: int) {
    && c.percent == Dec(percent, -(j as int)) && percent * req.sats + c.baseSats * Pow10(j) < LIMIT
    && NearestUp(fee, percent * req.sats + c.baseSats * Pow10(j), Pow10(j))
  }

  /** No quote can be made exactly without a price, at a rate of zero, or when less than one satoshi is collected. */
  lemma QuoteRefusedExactlyWhen(req: Request, market: Market, percent: nat, j: nat, fee: int)
    requires FeeOf(req, market.fees, percent, j, fee)
    ensures PriceOf(req, market).None? <==>
      market.dashBtc.None? || market.dashBtc.value.coef == 0 || req.sats + fee + market.fees.routingSats < 1
  {
    CollectedWithFee(req.sats, market.fees, percent, j, fee);
  }

  /** d is the least number of duffs worth sats at m / 10^k. */
  ghost predicate LeastWorth(d: nat, sats: nat, m: nat, k: nat) {
    d * m >= sats * Pow10(k) && forall e: nat :: e < d ==> Falls(e, sats, m, k)
  }

  predicate Falls(e: nat, sats: nat, m: nat, k: nat) { e * m < sats * Pow10(k) }

  lemma LeastExact(sats: nat, m: nat, k: nat)
    requires m > 0
    ensures LeastWorth(ExactDuffs(sats, m, k), sats, m, k)
  {
    var d := ExactDuffs(sats, m, k);
    forall e: nat | e < d ensures Falls(e, sats, m, k) {
      MulMonotone(e, d - 1, m);
    }
  }

  /** The price of a request is the least number of duffs worth the satoshis to collect. */
  lemma PriceIsLeast(req: Request, market: Market, percent: nat, j: nat, fee: int, m: nat, k: nat, magnitude: nat,
                     collected: int)
    requires FeeOf(req, market.fees, percent, j, fee) && market.dashBtc == Some(Rate(m, k)) && 0 < m < LIMIT
    requires collected == req.sats + fee + market.fees.routingSats && 0 < collected < LIMIT
    requires Shift(collected, k) < Shift(m, magnitude) < 2 * LIMIT
    ensures PriceOf(req, market).Some? && LeastWorth(PriceOf(req, market).value, collected, m, k)
  {
    CollectedWithFee(req.sats, market.fees, percent, j, fee);
    QuoteExactUnderBound(collected, m, k, magnitude);
    LeastExact(collected, m, k);
  }

  /**
   * A created invoice asks for the least number of duffs worth the requested satoshis and the fees on top, while fee
   * and price stay within the digit bounds; and it will credit what was requested.
   */
  lemma CreatedQuote(before: Stores, after: Stores, req: Request, c: Config, market: Market, xpub: string, id: Id,
                     now: Time, result: CreateResult, percent: nat, j: nat, fee: int, m: nat, k: nat, magnitude: nat,
                     collected: int)
    requires FeeOf(req, market.fees, percent, j, fee) && market.dashBtc == Some(Rate(m, k)) && 0 < m < LIMIT
    requires collected == req.sats + fee + market.fees.routingSats && 0 < collected < LIMIT
    requires Shift(collected, k) < Shift(m, magnitude) < 2 * LIMIT
    requires PriceOf(req, market).Some? && result.Created?
    requires IndexTaken(before, after, req, c, xpub, PriceOf(req, market).value, id, now, result)
    ensures id in after.docs && after.docs[id] == result.inv
    ensures result.inv.terms.duffsQuoted >= 0 && LeastWorth(result.inv.terms.duffsQuoted, collected, m, k)
    ensures result.inv.terms.satsRequested == req.sats
  {
    PriceIsLeast(req, market, percent, j, fee, m, k, magnitude, collected);
  }

  /** The policy a new invoice stores: the settings, and the confirmations the rule in force asks for. */
  lemma StoredPolicy(req: Request, c: Config, duffs: nat, now: Time)
    ensures var p := TermsFor(req, c, duffs, now).policy;
      && p.settle == Some(c.settlePolicy) && p.toleranceBps == Some(c.underpayBps)
      && p.toleranceDuffs == Some(c.underpayDuffs)
      && p.minConfirmations == Some(
           if c.settlePolicy != InstantSendOrChainLock
           then if req.minConfirmations.Some? then req.minConfirmations.value else c.minConf
           else match c.network case Mainnet => 6 case Testnet => 2 case Regtest => 1)
  {
  }
}
