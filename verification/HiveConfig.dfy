/** limits/hive_config.py: rate windows as parsed from the live configuration, and invoice fees. */
module HiveConfig {
  import opened Base
  import opened Decimal

  // ---------- rate windows ----------

  datatype RateWindow = RateWindow(hours: int, sats: int)

  /** An entry of lightning_rate_limits: not a dictionary, or one whose values may be missing. */
  datatype RawWindow = NotADictionary | Entry(hours: Option<int>, sats: Option<int>)

  function OrZero(value: Option<int>): int { if value.Some? then value.value else 0 }

  predicate Usable(item: RawWindow) {
    item.Entry? && OrZero(item.hours) > 0 && OrZero(item.sats) > 0
  }

  function UsableWindows(raw: seq<RawWindow>): seq<RateWindow> {
    if raw == [] then []
    else
      var last := raw[|raw| - 1];
      UsableWindows(raw[..|raw| - 1])
        + if Usable(last) then [RateWindow(last.hours.value, last.sats.value)] else []
  }

  function SameHours(hours: int): RateWindow -> bool { (w: RateWindow) => w.hours == hours }

  predicate SortedByHours(s: seq<RateWindow>) { forall i, j :: 0 <= i < j < |s| ==> s[i].hours <= s[j].hours }

  /** Python's stable list sort with hours as the key. */
  function SortByHours(s: seq<RateWindow>): (r: seq<RateWindow>)
    ensures SortedByHours(r)
    ensures multiset(r) == multiset(s)
  {
    if s == [] then []
    else
      assert s == [s[0]] + s[1..];
      InsertByHours(s[0], SortByHours(s[1..]))
  }

  function InsertByHours(w: RateWindow, s: seq<RateWindow>): (r: seq<RateWindow>)
    requires SortedByHours(s)
    ensures SortedByHours(r)
    ensures r != [] && (r[0] == w || (s != [] && r[0] == s[0]))
    ensures multiset(r) == multiset{w} + multiset(s)
  {
    if s == [] || w.hours <= s[0].hours then [w] + s
    else
      assert s == [s[0]] + s[1..];
      [s[0]] + InsertByHours(w, s[1..])
  }

  lemma {:induction false} InsertIsStable(w: RateWindow, s: seq<RateWindow>, hours: int)
    requires SortedByHours(s)
    ensures Filter(InsertByHours(w, s), SameHours(hours)) == Filter([w] + s, SameHours(hours))
  {
    if s != [] && w.hours > s[0].hours {
      var rest := InsertByHours(w, s[1..]);
      InsertIsStable(w, s[1..], hours);
      assert ([w] + s)[1..] == s;
      assert ([w] + s[1..])[1..] == s[1..];
      assert ([s[0]] + rest)[1..] == rest;
    }
  }

  /** Windows of the same length keep their order: together with the contract this fixes the sort. */
  lemma {:induction false} SortIsStable(s: seq<RateWindow>, hours: int)
    ensures Filter(SortByHours(s), SameHours(hours)) == Filter(s, SameHours(hours))
  {
    if s != [] {
      SortIsStable(s[1..], hours);
      InsertIsStable(s[0], SortByHours(s[1..]), hours);
      assert ([s[0]] + SortByHours(s[1..]))[1..] == SortByHours(s[1..]);
    }
  }

  lemma {:induction false} UsableExactly(raw: seq<RawWindow>, w: RateWindow)
    ensures multiset(UsableWindows(raw))[w]
         == if w.hours > 0 && w.sats > 0 then multiset(raw)[Entry(Some(w.hours), Some(w.sats))] else 0
  {
    if raw != [] {
      var front, last := raw[..|raw| - 1], raw[|raw| - 1];
      UsableExactly(front, w);
      OneMoreCount(front, last, Entry(Some(w.hours), Some(w.sats)));
      assert raw == front + [last];
      if Usable(last) {
        OneMoreCount(UsableWindows(front), RateWindow(last.hours.value, last.sats.value), w);
      }
    }
  }

  lemma OneMoreCount<T>(front: seq<T>, last: T, x: T)
    ensures multiset(front + [last])[x] == multiset(front)[x] + if last == x then 1 else 0
  {
  }

  /** _parse_windows: keeps the entries with positive hours and sats, shortest window first. */
  method ParseWindows(raw: seq<RawWindow>) returns (windows: seq<RateWindow>)
    ensures windows == SortByHours(UsableWindows(raw))
    ensures forall w :: w in windows ==> w.hours > 0 && w.sats > 0
  {
    windows := [];
    for i := 0 to |raw|
      invariant windows == UsableWindows(raw[..i])
      invariant forall w :: w in windows ==> w.hours > 0 && w.sats > 0
    {
      assert raw[..i + 1][..i] == raw[..i];
      if Usable(raw[i]) {
        windows := windows + [RateWindow(raw[i].hours.value, raw[i].sats.value)];
      }
    }
    assert raw[..|raw|] == raw;
    ghost var unsorted := windows;
    windows := SortByHours(windows);
    PermutationMembers(windows, unsorted);
  }

  // ---------- fees ----------

  /** num/den rounded to the nearest integer, ties away from zero (ROUND_HALF_UP). */
  function HalfUp(num: int, den: nat): (r: int)
    requires den > 0
    ensures 2 * (r * den) <= 2 * num + den && 2 * num <= 2 * (r * den) + den
    ensures num >= 0 ==> 2 * num < 2 * (r * den) + den
    ensures num < 0 ==> 2 * (r * den) < 2 * num + den
  {
    if num >= 0 then
      var r := (2 * num + den) / (2 * den);
      DivisionFacts(2 * num + den, 2 * den);
      assert r * (2 * den) == 2 * (r * den);
      r
    else
      var r := (2 * -num + den) / (2 * den);
      DivisionFacts(2 * -num + den, 2 * den);
      assert r * (2 * den) == 2 * (r * den);
      assert (-r) * den == -(r * den);
      -r
  }

  /** The fee configuration with the percentage as the rational percent/scale. */
  datatype Fees = Fees(percent: int, scale: nat, baseSats: int, routingSats: int)

  ghost predicate ValidFees(f: Fees) { f.scale > 0 }

  function ConvFee(sats: int, f: Fees): int
    requires ValidFees(f)
  {
    HalfUp(f.percent * sats + f.baseSats * f.scale, f.scale)
  }

  /** calculate_invoice_fees: what the customer is charged on top of the requested satoshis. */
  function SatsCollect(sats: int, f: Fees): int
    requires ValidFees(f)
  {
    sats + ConvFee(sats, f) + f.routingSats
  }

  /** The conversion fee is within one half of percent * sats + base, and grows with sats. */
  lemma ConvFeeNearestAndMonotone(s1: int, s2: int, f: Fees)
    requires ValidFees(f) && f.percent >= 0 && s1 <= s2
    ensures var exact := f.percent * s1 + f.baseSats * f.scale; var fee := ConvFee(s1, f) * f.scale;
      2 * fee <= 2 * exact + f.scale && 2 * exact <= 2 * fee + f.scale
    ensures ConvFee(s1, f) <= ConvFee(s2, f)
  {
    MulMonotone(s1, s2, f.percent);
    HalfUpMonotone(f.percent * s1 + f.baseSats * f.scale, f.percent * s2 + f.baseSats * f.scale, f.scale);
  }

  lemma RoundingsClose(a: int, b: int, x: int, y: int, den: nat)
    requires den > 0 && a <= b
    requires 2 * x <= 2 * a + den && 2 * b <= 2 * y + den && (b >= 0 ==> 2 * b < 2 * y + den)
    requires a < 0 ==> 2 * x < 2 * a + den
    ensures x < y + den
  {
  }

  lemma HalfUpMonotone(a: int, b: int, den: nat)
    requires den > 0 && a <= b
    ensures HalfUp(a, den) <= HalfUp(b, den)
  {
    var x, y := HalfUp(a, den), HalfUp(b, den);
    if x > y {
      MulMonotone(y + 1, x, den);
      RoundingsClose(a, b, x * den, y * den, den);
    }
  }

  /** Splitting a request in two never lowers what is collected, once base and routing reach one satoshi. */
  lemma SplitNeverCollectsLess(a: int, b: int, f: Fees)
    requires ValidFees(f) && f.percent >= 0 && f.baseSats >= 0 && f.routingSats >= 0
    requires f.baseSats + f.routingSats >= 1
    ensures SatsCollect(a + b, f) <= SatsCollect(a, f) + SatsCollect(b, f)
  {
    var ca, cb, cc := ConvFee(a, f), ConvFee(b, f), ConvFee(a + b, f);
    assert f.percent * (a + b) == f.percent * a + f.percent * b;
    ThreeRoundings(ca, cb, cc, f.baseSats, f.percent * a, f.percent * b, f.scale);
  }

  /** Three roundings err by at most three halves in total. */
  lemma ThreeRoundings(ca: int, cb: int, cc: int, base: int, pa: int, pb: int, d: nat)
    requires d > 0
    requires 2 * (pa + base * d) <= 2 * (ca * d) + d
    requires 2 * (pb + base * d) <= 2 * (cb * d) + d
    requires 2 * (cc * d) <= 2 * (pa + pb + base * d) + d
    ensures cc + base <= ca + cb + 1
  {
    assert (cc - ca - cb + base) * d == cc * d - ca * d - cb * d + base * d;
    HalfBound(cc - ca - cb + base, d);
  }

  lemma HalfBound(x: int, d: nat)
    requires d > 0 && 2 * (x * d) <= 3 * d
    ensures x <= 1
  {
    if x >= 2 {
      MulMonotone(2, x, d);
    }
  }

  /** Asking for a and b separately collects at least what asking for both at once does. */
  predicate SplitKeeps(f: Fees, a: nat, b: nat)
    requires ValidFees(f)
  {
    SatsCollect(a + b, f) <= SatsCollect(a, f) + SatsCollect(b, f)
  }

  ghost predicate SplitAlwaysKeeps(f: Fees)
    requires ValidFees(f)
  {
    forall a: nat, b: nat :: SplitKeeps(f, a, b)
  }

  /** A rounded half-integer is that or the integer above. */
  lemma HalfSteps(r: int, x: nat, d: nat, num: int)
    requires d > 0 && 2 * num == x * d && 2 * (r * d) <= 2 * num + d && 2 * num < 2 * (r * d) + d
    ensures x <= 2 * r <= x + 1
  {
    assert 2 * (r * d) == 2 * r * d && x * d + d == (x + 1) * d && 2 * r * d + d == (2 * r + 1) * d;
    MulCancel(x + 1, 2 * r, d);
    MulCancel(x, 2 * r + 1, d);
  }

  /** At a whole number of half satoshis per satoshi, rounding never goes down. */
  lemma HalvesKeep(f: Fees, m: nat, a: nat, b: nat)
    requires ValidFees(f) && f.baseSats == 0 && f.routingSats == 0 && f.percent >= 0 && 2 * f.percent == m * f.scale
    ensures SplitKeeps(f, a, b)
  {
    HalvesOf(f, m, a);
    HalvesOf(f, m, b);
    HalvesOf(f, m, a + b);
    HalvesAdd(m, a, b, ConvFee(a, f), ConvFee(b, f), ConvFee(a + b, f));
  }

  lemma HalvesAdd(m: nat, a: nat, b: nat, ra: int, rb: int, rc: int)
    requires m * a <= 2 * ra && m * b <= 2 * rb && 2 * rc <= m * (a + b) + 1
    ensures rc <= ra + rb
  {
    assert m * (a + b) == m * a + m * b;
  }

  lemma HalvesOf(f: Fees, m: nat, s: nat)
    requires ValidFees(f) && f.baseSats == 0 && f.percent >= 0 && 2 * f.percent == m * f.scale
    ensures m * s <= 2 * ConvFee(s, f) <= m * s + 1
  {
    assert 2 * (f.percent * s) == m * f.scale * s == m * s * f.scale;
    MulMonotone(0, s, f.percent);
    HalfSteps(ConvFee(s, f), m * s, f.scale, f.percent * s);
  }

  lemma SmallRemainderDown(p: nat, d: nat, q: nat, r: nat, f: int)
    requires d > 0 && p == q * d + r && 0 < r && 2 * r < d && 2 * (f * d) <= 2 * p + d
    ensures f * d < p
  {
    assert 2 * (f * d) < 2 * ((q + 1) * d) by {
      assert (q + 1) * d == q * d + d;
    }
    MulCancel(f, q + 1, d);
    MulMonotone(f, q, d);
  }

  lemma LargeRemainderDown(p: nat, d: nat, q: nat, s: nat, n: nat, f: int)
    requires d > 0 && p == q * d + d - s && d < 2 * (s * n) && s * n < d && 2 * (f * d) <= 2 * (p * n) + d
    ensures f * d < p * n
  {
    TimesTop(p, d, q, s, n);
    BelowTop((q + 1) * n, d, s * n, p * n, f);
  }

  lemma TimesTop(p: nat, d: nat, q: nat, s: nat, n: nat)
    requires p == q * d + d - s
    ensures p * n == (q + 1) * n * d - s * n
  {
    assert (q + 1) * d == q * d + d;
    assert p * n == (q + 1) * d * n - s * n;
    assert (q + 1) * d * n == (q + 1) * n * d;
  }

  lemma BelowTop(top: nat, d: nat, short: nat, num: int, f: int)
    requires d > 0 && num == top * d - short && d < 2 * short && short < d && 2 * (f * d) <= 2 * num + d
    ensures f * d < num
  {
    MulCancel(f, top, d);
    MulMonotone(f, top - 1, d);
    assert (top - 1) * d == top * d - d;
  }

  /** The first multiple of s above half of d is still below d. */
  lemma FirstAboveHalf(s: nat, d: nat) returns (n: nat)
    requires 0 < s && 2 * s < d
    ensures n > 0 && d < 2 * (s * n) && s * n < d
  {
    n := d / (2 * s) + 1;
    DivisionFacts(d, 2 * s);
    assert n * (2 * s) == d / (2 * s) * (2 * s) + 2 * s;
    assert 2 * (s * n) == n * (2 * s);
  }

  lemma RemainderOffHalf(p: nat, d: nat) returns (q: nat, r: nat)
    requires d > 0 && 2 * p % d != 0
    ensures p == q * d + r && 0 < r < d && 2 * r != d
  {
    q, r := p / d, p % d;
    DivisionFacts(p, d);
    if r == 0 {
      QuotientUnique(2 * p, d, 2 * q, 0);
    } else if 2 * r == d {
      assert (2 * q + 1) * d == 2 * (q * d) + d;
      QuotientUnique(2 * p, d, 2 * q + 1, 0);
    }
  }

  lemma HalfUpAtMost(num: int, den: nat, f: int)
    requires den > 0 && f == HalfUp(num, den)
    ensures 2 * (f * den) <= 2 * num + den
  {
  }

  /** Otherwise some request has its fee rounded down. */
  lemma SomeFeeRoundsDown(p: nat, d: nat) returns (n: nat, fee: int)
    requires d > 0 && 2 * p % d != 0
    ensures fee == HalfUp(p * n, d) && fee * d < p * n
  {
    var q, r := RemainderOffHalf(p, d);
    if 2 * r < d {
      n := 1;
      fee := HalfUp(p * n, d);
      HalfUpAtMost(p * n, d, fee);
      SmallRemainderDown(p, d, q, r, fee);
    } else {
      n := FirstAboveHalf(d - r, d);
      fee := HalfUp(p * n, d);
      HalfUpAtMost(p * n, d, fee);
      LargeRemainderDown(p, d, q, d - r, n, fee);
    }
  }

  /** What one more request of n adds at most, if no split lowers the fee. */
  lemma OneMoreRequest(f: Fees, n: nat, rest: nat)
    requires ValidFees(f) && f.percent >= 0 && f.baseSats == 0 && f.routingSats == 0 && SplitAlwaysKeeps(f)
    ensures ConvFee(rest + n, f) <= ConvFee(rest, f) + ConvFee(n, f)
  {
    assert SplitKeeps(f, rest, n);
  }

  /** If no split lowers the fee, k requests of n cost at least one of k * n. */
  lemma {:induction false} ManyRequests(f: Fees, n: nat, k: nat, all: nat, one: int)
    requires ValidFees(f) && f.percent >= 0 && f.baseSats == 0 && f.routingSats == 0 && SplitAlwaysKeeps(f)
    requires all == k * n && one == ConvFee(n, f)
    ensures ConvFee(all, f) <= k * one
    decreases k
  {
    if k == 0 {
      NoFeeForNothing(f);
    } else {
      MulMonotone(0, k - 1, n);
      assert all - n == (k - 1) * n && k * one == (k - 1) * one + one;
      ManyRequests(f, n, k - 1, all - n, one);
      OneMoreRequest(f, n, all - n);
    }
  }

  lemma NoFeeForNothing(f: Fees)
    requires ValidFees(f) && f.baseSats == 0
    ensures ConvFee(0, f) == 0
  {
  }

  /** A fee rounded down by g costs d of them d * g less than exact, more than one rounding of the whole can. */
  lemma RoundingCannotCatchUp(p: nat, d: nat, n: nat, one: int, many: int)
    requires d > 0 && one * d < p * n && 2 * (p * (d * n)) < 2 * (many * d) + d
    ensures many > d * one
  {
    assert 2 * (p * (d * n)) == 2 * (p * n) * d && 2 * (many * d) + d == (2 * many + 1) * d;
    MulCancel(2 * (p * n), 2 * many + 1, d);
    assert d * one == one * d;
  }

  /** For a given configuration: no split lowers what is collected, exactly if there is a fixed part or half steps. */
  lemma SplitKeepsExactlyWhen(f: Fees)
    requires ValidFees(f) && f.percent >= 0 && f.baseSats >= 0 && f.routingSats >= 0
    ensures SplitAlwaysKeeps(f) <==> f.baseSats + f.routingSats >= 1 || 2 * f.percent % f.scale == 0
  {
    if f.baseSats + f.routingSats >= 1 {
      forall a: nat, b: nat ensures SplitKeeps(f, a, b) {
        SplitNeverCollectsLess(a, b, f);
      }
    } else if 2 * f.percent % f.scale == 0 {
      DivisionFacts(2 * f.percent, f.scale);
      forall a: nat, b: nat ensures SplitKeeps(f, a, b) {
        HalvesKeep(f, 2 * f.percent / f.scale, a, b);
      }
    } else {
      SomeSplitLowers(f);
    }
  }

  lemma FeeAtLeast(f: Fees, s: nat, fee: int)
    requires ValidFees(f) && f.percent >= 0 && f.baseSats == 0 && fee == ConvFee(s, f)
    ensures 2 * (f.percent * s) < 2 * (fee * f.scale) + f.scale
  {
    MulMonotone(0, s, f.percent);
  }

  lemma SomeSplitLowers(f: Fees)
    requires ValidFees(f) && f.percent >= 0 && f.baseSats == 0 && f.routingSats == 0 && 2 * f.percent % f.scale != 0
    ensures !SplitAlwaysKeeps(f)
  {
    var p, d := f.percent, f.scale;
    var n, one := SomeFeeRoundsDown(p, d);
    if SplitAlwaysKeeps(f) {
      ManyRequests(f, n, d, d * n, one);
      FeeAtLeast(f, d * n, ConvFee(d * n, f));
      RoundingCannotCatchUp(p, d, n, one, ConvFee(d * n, f));
    }
  }

  // ---------- splits of the requests the endpoint accepts ----------

  /** No split of a request for at most maxSats lowers what is collected. */
  ghost predicate SplitKeepsUpTo(f: Fees, maxSats: nat)
    requires ValidFees(f)
  {
    forall a: nat, b: nat :: a >= 1 && b >= 1 && a + b <= maxSats ==> SplitKeeps(f, a, b)
  }

  lemma FeeIsZero(f: Fees, s: nat)
    requires ValidFees(f) && f.percent >= 0 && f.baseSats == 0 && 2 * (f.percent * s) < f.scale
    ensures ConvFee(s, f) == 0
  {
    MulMonotone(0, s, f.percent);
    var fee := ConvFee(s, f);
    if fee >= 1 {
      MulMonotone(1, fee, f.scale);
    } else if fee <= -1 {
      MulMonotone(fee, -1, f.scale);
    }
  }

  lemma FeeIsPositive(f: Fees, s: nat)
    requires ValidFees(f) && f.percent >= 0 && f.baseSats == 0 && f.scale <= 2 * (f.percent * s)
    ensures ConvFee(s, f) >= 1
  {
    var fee := ConvFee(s, f);
    if fee <= 0 {
      MulMonotone(fee, 0, f.scale);
    }
  }

  /** The smallest request that is charged at all. */
  lemma {:induction false} FirstCharged(p: nat, d: nat, maxSats: nat) returns (n: nat)
    requires d > 0 && d <= 2 * (p * maxSats)
    ensures 0 < n <= maxSats && 2 * (p * (n - 1)) < d <= 2 * (p * n)
    decreases maxSats
  {
    n := maxSats;
    if d <= 2 * (p * (maxSats - 1)) {
      n := FirstCharged(p, d, maxSats - 1);
    }
  }

  /**
   * For requests from one satoshi up to a maximum and a rate below one half: no split lowers what is collected, exactly
   * if there is a fixed part, or even the largest request is not charged.
   */
  lemma SplitKeepsUpToExactlyWhen(f: Fees, maxSats: nat)
    requires ValidFees(f) && 0 <= 2 * f.percent < f.scale && f.baseSats >= 0 && f.routingSats >= 0
    ensures SplitKeepsUpTo(f, maxSats) <==>
      f.baseSats + f.routingSats >= 1 || 2 * (f.percent * maxSats) < f.scale
  {
    if f.baseSats + f.routingSats >= 1 {
      forall a: nat, b: nat ensures SplitKeeps(f, a, b) {
        SplitNeverCollectsLess(a, b, f);
      }
    } else if 2 * (f.percent * maxSats) < f.scale {
      forall a: nat, b: nat | a + b <= maxSats ensures SplitKeeps(f, a, b) {
        UnchargedKeeps(f, a, b, maxSats);
      }
    } else {
      var n := FirstCharged(f.percent, f.scale, maxSats);
      assert n > 1;
      FeeIsZero(f, n - 1);
      FeeIsZero(f, 1);
      FeeIsPositive(f, n);
      assert !SplitKeeps(f, n - 1, 1);
    }
  }

  lemma UnchargedKeeps(f: Fees, a: nat, b: nat, maxSats: nat)
    requires ValidFees(f) && f.percent >= 0 && f.baseSats == 0 && f.routingSats >= 0 && a + b <= maxSats
    requires 2 * (f.percent * maxSats) < f.scale
    ensures SplitKeeps(f, a, b)
  {
    MulMonotone(a, maxSats, f.percent);
    MulMonotone(b, maxSats, f.percent);
    MulMonotone(a + b, maxSats, f.percent);
    FeeIsZero(f, a);
    FeeIsZero(f, b);
    FeeIsZero(f, a + b);
  }

  // ---------- the fee as the decimal context computes it ----------

  function Lifted(d: Dec, exp: int): nat
    requires exp <= d.exp
  {
    Shift(d.coef, d.exp - exp)
  }

  function Add(a: Dec, b: Dec): Dec {
    var e := Min(a.exp, b.exp);
    Rounded(Dec(Lifted(a, e) + Lifted(b, e), e))
  }

  /** to_integral_value with ROUND_HALF_UP. */
  function HalfUpIntegral(d: Dec): int {
    if d.exp >= 0 then Shift(d.coef, d.exp) else HalfUp(d.coef, Pow10(-d.exp))
  }

  function ConvFeeDecimal(sats: nat, percent: Dec, baseSats: nat): int {
    HalfUpIntegral(Add(Mul(percent, Dec(sats, 0)), Dec(baseSats, 0)))
  }

  lemma RoundedSmall(d: Dec)
    requires d.coef < LIMIT
    ensures Rounded(d) == d
  {
    assert Pow10(0) == 1;
    HalfEvenExact(d.coef, 1);
  }

  /** While the scaled fee fits in 28 digits, no rounding happens before the final half-up. */
  lemma ConvFeeDecimalExact(sats: nat, m: nat, k: nat, baseSats: nat)
    requires m * sats + Shift(baseSats, k) < LIMIT
    ensures ConvFeeDecimal(sats, Dec(m, -(k as int)), baseSats) == ConvFee(sats, Fees(m, Pow10(k), baseSats, 0))
  {
    MulMonotone(0, m, sats);
    RoundedSmall(Dec(m * sats, -(k as int)));
    assert Shift(m * sats, 0) == m * sats;
    RoundedSmall(Dec(m * sats + Shift(baseSats, k), -(k as int)));
    if k == 0 {
      var n := m * sats + baseSats;
      assert Shift(n, 0) == n;
    }
  }

  /** The fee settings as the configuration holds them. */
  datatype FeeConfig = FeeConfig(percent: Dec, baseSats: nat, routingSats: int)

  /** calculate_invoice_fees(...).sats_collect, in the decimal context. */
  function CollectDecimal(sats: nat, c: FeeConfig): int {
    sats + ConvFeeDecimal(sats, c.percent, c.baseSats) + c.routingSats
  }

  /** Within the same bound what is collected is the exact amount, of which the laws above speak. */
  lemma CollectDecimalExact(sats: nat, m: nat, k: nat, baseSats: nat, routingSats: int)
    requires m * sats + Shift(baseSats, k) < LIMIT
    ensures CollectDecimal(sats, FeeConfig(Dec(m, -(k as int)), baseSats, routingSats))
         == SatsCollect(sats, Fees(m, Pow10(k), baseSats, routingSats))
  {
    ConvFeeDecimalExact(sats, m, k, baseSats);
  }
}
