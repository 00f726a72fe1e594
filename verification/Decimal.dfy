/**
 * Non-negative numbers of Python's decimal module under its default context: 28 significant
 * digits, results rounded half-even, as in the "Arithmetic operations" chapter of the
 * General Decimal Arithmetic Specification.
 */
module Decimal {
  import opened Base

  /** The number coef * 10^exp. */
  datatype Dec = Dec(coef: nat, exp: int)

  /** Ten to the 28th: the first coefficient that no longer fits the context. */
  const LIMIT: nat := 10_000_000_000_000_000_000_000_000_000

  function Pow10(n: nat): (p: nat)
    ensures p >= 1
  {
    if n == 0 then 1 else 10 * Pow10(n - 1)
  }

  /** The coefficient d followed by z zeros. */
  function Shift(d: nat, z: nat): nat { d * Pow10(z) }

  // ---------- powers of ten ----------

  lemma {:induction false} Pow10Add(a: nat, b: nat)
    ensures Pow10(a + b) == Pow10(a) * Pow10(b)
  {
    if a != 0 {
      Pow10Add(a - 1, b);
      assert Pow10(a + b) == 10 * (Pow10(a - 1) * Pow10(b));
    }
  }

  lemma {:induction false} Pow10Increases(a: nat, b: nat)
    requires a < b
    ensures Pow10(a) < Pow10(b)
  {
    if a + 1 < b {
      Pow10Increases(a, b - 1);
    }
  }

  lemma Pow10AtMost(a: nat, b: nat)
    requires a <= b
    ensures Pow10(a) <= Pow10(b)
  {
    if a < b {
      Pow10Increases(a, b);
    }
  }

  lemma Pow10Below(a: nat, b: nat)
    requires Pow10(a) < Pow10(b)
    ensures a < b
  {
    if b < a {
      Pow10Increases(b, a);
    }
  }

  lemma LimitIsPow10()
    ensures Pow10(28) == LIMIT && Pow10(27) * 10 == LIMIT && Pow10(29) == 10 * LIMIT
    ensures Pow10(8) == 100_000_000
  {
    assert Pow10(8) == 100_000_000;
    Pow10Add(8, 8);
    Pow10Add(16, 8);
    Pow10Add(24, 3);
    assert Pow10(3) == 1000;
  }

  lemma SplitPower(d: nat, a: nat, b: nat)
    ensures Shift(d, a + b) == Shift(d, a) * Pow10(b)
  {
    Pow10Add(a, b);
    MulAssociates(d, Pow10(a), Pow10(b));
  }

  // ---------- rounding ----------

  /** The integer nearest to num/den, ties to even. */
  function HalfEven(num: nat, den: nat): nat
    requires den > 0
  {
    if 2 * (num % den) < den || (2 * (num % den) == den && num / den % 2 == 0) then num / den else num / den + 1
  }

  lemma HalfEvenNearest(num: nat, den: nat)
    requires den > 0
    ensures 2 * (HalfEven(num, den) * den) <= 2 * num + den
    ensures 2 * num <= 2 * (HalfEven(num, den) * den) + den
  {
    DivisionFacts(num, den);
    assert (num / den + 1) * den == num / den * den + den;
  }

  /** Equal ratios have equal quotients and proportional remainders. */
  lemma RatioRemainders(n1: nat, d1: nat, n2: nat, d2: nat)
    requires d1 > 0 && d2 > 0
    requires n1 * d2 == n2 * d1
    ensures n1 / d1 == n2 / d2 && n2 % d2 * d1 == n1 % d1 * d2
  {
    var q, r := n1 / d1, n1 % d1;
    DivisionFacts(n1, d1);
    var r2 := n2 - q * d2;
    assert r2 * d1 == r * d2 by {
      assert r2 * d1 == n2 * d1 - q * d2 * d1;
      assert n1 * d2 == (q * d1 + r) * d2 == q * d1 * d2 + r * d2;
    }
    MulMonotone(0, r, d2);
    MulCancel(-1, r2, d1);
    MulMonotone(r + 1, d1, d2);
    assert (r + 1) * d2 == r * d2 + d2;
    MulCancel(r2, d2, d1);
    QuotientUnique(n2, d2, q, r2);
  }

  /** Rounding depends only on the ratio. */
  lemma HalfEvenRatio(n1: nat, d1: nat, n2: nat, d2: nat)
    requires d1 > 0 && d2 > 0
    requires n1 * d2 == n2 * d1
    ensures HalfEven(n1, d1) == HalfEven(n2, d2)
  {
    RatioRemainders(n1, d1, n2, d2);
    HalvesCompare(n1 % d1, d1, n2 % d2, d2);
  }

  lemma HalvesCompare(r1: nat, d1: nat, r2: nat, d2: nat)
    requires d1 > 0 && d2 > 0 && r2 * d1 == r1 * d2
    ensures 2 * r1 < d1 <==> 2 * r2 < d2
    ensures 2 * r1 == d1 <==> 2 * r2 == d2
  {
    var p := d1 * d2;
    assert 2 * r2 * d1 == 2 * r1 * d2;
    MulCancel(2 * r2, d2, d1);
    MulCancel(d2, 2 * r2, d1);
    MulCancel(2 * r1, d1, d2);
    MulCancel(d1, 2 * r1, d2);
    if 2 * r1 < d1 { MulMonotone(2 * r1 + 1, d1, d2); }
    if 2 * r2 < d2 { MulMonotone(2 * r2 + 1, d2, d1); }
    if 2 * r1 == d1 { assert 2 * r2 * d1 == d2 * d1; }
    if 2 * r2 == d2 { assert 2 * r1 * d2 == d1 * d2; }
  }

  lemma HalfEvenExact(q: nat, den: nat)
    requires den > 0
    ensures HalfEven(q * den, den) == q
  {
    QuotientUnique(q * den, den, q, 0);
  }

  function CeilDiv(num: nat, den: nat): (q: nat)
    requires den > 0
    ensures q * den >= num
    ensures q > 0 ==> (q - 1) * den < num
  {
    DivisionFacts(num, den);
    if num % den == 0 then num / den
    else
      assert (num / den + 1) * den == num / den * den + den;
      num / den + 1
  }

  lemma CeilDivUnique(num: nat, den: nat, q: nat)
    requires den > 0 && q * den >= num && (q > 0 ==> (q - 1) * den < num)
    ensures CeilDiv(num, den) == q
  {
    var p := CeilDiv(num, den);
    if p > 0 { MulCancel(p - 1, q, den); }
    if q > 0 { MulCancel(q - 1, p, den); }
  }

  // ---------- arithmetic ----------

  /** Number of digits to drop from a coefficient so that 28 remain. */
  function Excess(coef: nat): nat {
    if coef < LIMIT then 0 else Excess(coef / 10) + 1
  }

  lemma {:induction false} ExcessFacts(coef: nat)
    ensures coef < LIMIT * Pow10(Excess(coef))
    ensures Excess(coef) > 0 ==> LIMIT * Pow10(Excess(coef) - 1) <= coef
  {
    if coef >= LIMIT {
      ExcessFacts(coef / 10);
    }
  }

  /** A coefficient rounded up to 10^28 carries into the exponent. */
  function Carried(coef: nat, exp: int): Dec {
    if coef == LIMIT then Dec(LIMIT / 10, exp + 1) else Dec(coef, exp)
  }

  function Rounded(d: Dec): Dec {
    var n := Excess(d.coef);
    Carried(HalfEven(d.coef, Pow10(n)), d.exp + n)
  }

  function Mul(a: Dec, b: Dec): Dec { Rounded(Dec(a.coef * b.coef, a.exp + b.exp)) }

  /** Smallest power of ten that lifts num/den to at least 10^27. */
  function ScaleUp(num: nat, den: nat): nat
    requires num > 0 && den > 0
    decreases den * (LIMIT / 10) - num
  {
    if num >= den * (LIMIT / 10) then 0 else ScaleUp(10 * num, den) + 1
  }

  lemma {:induction false} ScaleUpFacts(num: nat, den: nat)
    requires num > 0 && den > 0
    ensures num * Pow10(ScaleUp(num, den)) >= den * (LIMIT / 10)
    ensures ScaleUp(num, den) > 0 ==> num * Pow10(ScaleUp(num, den)) < den * LIMIT
    decreases den * (LIMIT / 10) - num
  {
    if num < den * (LIMIT / 10) {
      ScaleUpFacts(10 * num, den);
      MulAssociates(num, 10, Pow10(ScaleUp(10 * num, den)));
    }
  }

  /** Smallest power of ten that brings num/den below 10^28. */
  function ScaleDown(num: nat, den: nat): nat
    requires den > 0
    decreases num - den
  {
    if num < den * LIMIT then 0 else ScaleDown(num, 10 * den) + 1
  }

  /** Division: the exact quotient correctly rounded to 28 digits. */
  function Div(a: Dec, b: Dec): Dec
    requires b.coef > 0
  {
    if a.coef == 0 then Dec(0, a.exp - b.exp)
    else
      var down := ScaleDown(a.coef, b.coef);
      if down > 0 then
        Carried(HalfEven(a.coef, b.coef * Pow10(down)), a.exp - b.exp + down)
      else
        var up := ScaleUp(a.coef, b.coef);
        Carried(HalfEven(a.coef * Pow10(up), b.coef), a.exp - b.exp - up)
  }

  /** A quotient below 10^28 is taken to s fractional digits, s as small as 28 digits allow. */
  lemma DivBelowLimit(a: Dec, b: Dec) returns (s: nat)
    requires 0 < a.coef < b.coef * LIMIT
    ensures b.coef * (LIMIT / 10) <= a.coef * Pow10(s) < b.coef * LIMIT
    ensures Div(a, b) == Carried(HalfEven(a.coef * Pow10(s), b.coef), a.exp - b.exp - s)
  {
    s := ScaleUp(a.coef, b.coef);
    ScaleUpFacts(a.coef, b.coef);
  }

  lemma {:induction false} ScaleDownFacts(num: nat, den: nat)
    requires den > 0
    ensures num < den * Pow10(ScaleDown(num, den)) * LIMIT
    ensures ScaleDown(num, den) > 0 ==> den * Pow10(ScaleDown(num, den) - 1) * LIMIT <= num
    decreases num - den
  {
    if num >= den * LIMIT {
      ScaleDownFacts(num, 10 * den);
      var n := ScaleDown(num, 10 * den);
      MulAssociates(den, 10, Pow10(n));
      if n > 0 {
        MulAssociates(den, 10, Pow10(n - 1));
      }
    }
  }

  /** The value of d as a whole number of units of 10^exp. */
  function InUnits(d: Dec, exp: int): nat
    requires exp <= d.exp
  {
    Shift(d.coef, d.exp - exp)
  }

  lemma CarriedKeepsValue(coef: nat, exp: int, s: nat)
    ensures Carried(coef, exp + s).exp >= exp && InUnits(Carried(coef, exp + s), exp) == Shift(coef, s)
  {
  }

  /** A quotient of 10^28 or more is the nearest multiple of 10^s, s as small as 28 digits allow. */
  lemma DivAboveLimit(a: Dec, b: Dec) returns (s: nat)
    requires b.coef > 0 && a.coef >= b.coef * LIMIT
    ensures s > 0 && b.coef * Pow10(s - 1) * LIMIT <= a.coef < b.coef * Pow10(s) * LIMIT
    ensures Div(a, b).exp >= a.exp - b.exp
    ensures var q := InUnits(Div(a, b), a.exp - b.exp);
      q % Pow10(s) == 0 && 2 * a.coef - b.coef * Pow10(s) <= 2 * (q * b.coef) <= 2 * a.coef + b.coef * Pow10(s)
  {
    s := ScaleDown(a.coef, b.coef);
    ScaleDownFacts(a.coef, b.coef);
    var q := HalfEven(a.coef, b.coef * Pow10(s));
    CarriedKeepsValue(q, a.exp - b.exp, s);
    NearestMultiple(a.coef, b.coef, Pow10(s), b.coef * Pow10(s), q);
  }

  lemma NearestMultiple(num: nat, den: nat, unit: nat, both: nat, q: nat)
    requires den > 0 && unit > 0 && both == den * unit > 0 && q == HalfEven(num, both)
    ensures q * unit % unit == 0 && 2 * num - both <= 2 * (q * unit * den) <= 2 * num + both
  {
    HalfEvenNearest(num, both);
    MulAssociates(q, unit, den);
    QuotientUnique(q * unit, unit, q, 0);
  }

  /** to_integral_value with ROUND_CEILING. */
  function Ceiling(d: Dec): nat {
    if d.exp >= 0 then d.coef * Pow10(d.exp) else CeilDiv(d.coef, Pow10(-d.exp))
  }

  /** to_integral_value with the context's half-even rounding. */
  function ToIntegral(d: Dec): nat {
    if d.exp >= 0 then d.coef * Pow10(d.exp) else HalfEven(d.coef, Pow10(-d.exp))
  }

  // ---------- results that need no rounding ----------

  lemma ExcessWithin(d: nat, z: nat)
    requires d < LIMIT
    ensures Excess(Shift(d, z)) <= z
  {
    var n := Excess(Shift(d, z));
    ExcessFacts(Shift(d, z));
    MulStrict(d, LIMIT, Pow10(z));
    if n > 0 {
      Pow10Below(n - 1, z);
    }
  }

  lemma DropZeros(coef: nat, q: nat, power: nat)
    requires power > 0 && coef == q * power && coef < LIMIT * power
    ensures HalfEven(coef, power) == q && q < LIMIT
  {
    HalfEvenExact(q, power);
    MulCancel(q, LIMIT, power);
  }

  /** A coefficient whose digits beyond the 28th are zeros only trades them for a larger exponent. */
  lemma RoundedExact(d: nat, z: nat, exp: int) returns (n: nat)
    requires d < LIMIT
    ensures n <= z && Rounded(Dec(Shift(d, z), exp)) == Dec(Shift(d, z - n), exp + n)
  {
    ExcessWithin(d, z);
    n := Excess(Shift(d, z));
    ExcessFacts(Shift(d, z));
    SplitPower(d, z - n, n);
    DropZeros(Shift(d, z), Shift(d, z - n), Pow10(n));
  }
}
