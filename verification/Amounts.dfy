/** amounts.py: printing and parsing of DASH amounts, and their strings. */
module Amounts {
  import opened Base
  import opened Decimal

  /** Duffs in one DASH, and satoshis in one bitcoin. */
  const COIN: nat := 100_000_000

  // ---------- digit strings ----------

  predicate IsDigit(c: char) { '0' <= c <= '9' }

  predicate AllDigits(s: string) { forall c :: c in s ==> IsDigit(c) }

  function Digit(n: nat): (c: char)
    requires n < 10
    ensures IsDigit(c) && DigitValue(c) == n
  {
    '0' + n as char
  }

  function DigitValue(c: char): nat
    requires IsDigit(c)
  {
    (c - '0') as nat
  }

  function PrintNat(n: nat): (s: string)
    ensures AllDigits(s) && s != ""
  {
    if n < 10 then [Digit(n)] else PrintNat(n / 10) + [Digit(n % 10)]
  }

  /** The last w digits of n, padded with zeros. */
  function PrintFixed(n: nat, w: nat): (s: string)
    ensures AllDigits(s) && |s| == w
  {
    if w == 0 then "" else PrintFixed(n / 10, w - 1) + [Digit(n % 10)]
  }

  function ParseNat(s: string): nat
    requires AllDigits(s)
  {
    if s == "" then 0 else 10 * ParseNat(s[..|s| - 1]) + DigitValue(s[|s| - 1])
  }

  lemma {:induction false} ParsePrint(n: nat)
    ensures ParseNat(PrintNat(n)) == n
  {
    var s := PrintNat(n);
    if n < 10 {
      assert s[..|s| - 1] == "";
    } else {
      ParsePrint(n / 10);
      assert s[..|s| - 1] == PrintNat(n / 10);
    }
  }

  lemma {:induction false} ParseFixed(n: nat, w: nat)
    requires n < Pow10(w)
    ensures ParseNat(PrintFixed(n, w)) == n
  {
    if w != 0 {
      assert n / 10 < Pow10(w - 1);
      ParseFixed(n / 10, w - 1);
      var s := PrintFixed(n, w);
      assert s[..|s| - 1] == PrintFixed(n / 10, w - 1);
    }
  }

  lemma {:induction false} ParseConcat(a: string, b: string)
    requires AllDigits(a) && AllDigits(b)
    ensures ParseNat(a + b) == ParseNat(a) * Pow10(|b|) + ParseNat(b)
  {
    if b == "" {
      assert a + b == a;
    } else {
      var front := b[..|b| - 1];
      assert (a + b)[..|a + b| - 1] == a + front;
      ParseConcat(a, front);
      assert ParseNat(a) * Pow10(|b|) == 10 * (ParseNat(a) * Pow10(|front|));
    }
  }

  // ---------- decimal strings ----------

  function IndexOfChar(s: string, c: char): (i: nat)
    ensures i <= |s|
    ensures i < |s| ==> s[i] == c
    ensures forall j :: 0 <= j < i ==> s[j] != c
  {
    if s == "" || s[0] == c then 0 else 1 + IndexOfChar(s[1..], c)
  }

  /** Plain digits with at most one point. */
  function ParsePlain(s: string): Option<Dec> {
    var dot := IndexOfChar(s, '.');
    var whole := s[..dot];
    var frac := if dot < |s| then s[dot + 1..] else "";
    if AllDigits(whole + frac) && whole + frac != "" then Some(Dec(ParseNat(whole + frac), -|frac|)) else None
  }

  /** Digits with an optional sign. */
  function ParseExponent(s: string): Option<int> {
    var digits := if s != "" && s[0] in {'+', '-'} then s[1..] else s;
    if !AllDigits(digits) || digits == "" then None
    else Some(if s[0] == '-' then 0 - ParseNat(digits) else ParseNat(digits))
  }

  /** Decimal(str) on what Python prints for a float that is not negative; anything else is refused. */
  function ParseDecimal(s: string): Option<Dec> {
    var mark := IndexOfChar(s, 'e');
    var number := ParsePlain(s[..mark]);
    if mark == |s| then number else Scaled(number, ParseExponent(s[mark + 1..]))
  }

  function Scaled(number: Option<Dec>, exponent: Option<int>): Option<Dec> {
    if number.Some? && exponent.Some? then Some(Dec(number.value.coef, number.value.exp + exponent.value)) else None
  }

  lemma IndexOfFirst(head: string, c: char, tail: string)
    requires c !in head
    ensures IndexOfChar(head + [c] + tail, c) == |head|
  {
    var s := head + [c] + tail;
    assert s[|head|] == c;
    assert forall j :: 0 <= j < |head| ==> s[j] == head[j] && head[j] in head;
  }

  lemma IndexOfNone(s: string, c: char)
    requires c !in s
    ensures IndexOfChar(s, c) == |s|
  {
    assert forall j :: 0 <= j < |s| ==> s[j] in s;
  }

  /** The amount rounded half-even to eight places, as a count of the eighth place. */
  function EighthPlaces(d: Dec): nat {
    if d.exp >= -8 then d.coef * Pow10(d.exp + 8) else HalfEven(d.coef, Pow10(-8 - d.exp))
  }

  /** Formatting with ".8f". */
  function FormatEight(d: Dec): string {
    PrintNat(EighthPlaces(d) / COIN) + "." + PrintFixed(EighthPlaces(d) % COIN, 8)
  }

  function InDash(duffs: nat): Dec { Div(Dec(duffs, 0), Dec(COIN, 0)) }

  function DashAmountString(duffs: nat): string { FormatEight(InDash(duffs)) }

  /** The value rpc_dash_to_duffs takes from a decimal amount. */
  function ToDuffs(amount: Dec): nat { ToIntegral(Mul(amount, Dec(COIN, 0))) }

  function RpcDashToDuffs(amount: string): Option<nat> {
    var d := ParseDecimal(amount);
    if d.None? then None else Some(ToDuffs(d.value))
  }

  // ---------- round trip ----------

  lemma SmallScale(d: nat, s: nat)
    requires d < LIMIT && s <= 7
    ensures d * Pow10(s) < COIN * (LIMIT / 10)
  {
    Pow10AtMost(s, 7);
    assert Pow10(7) == 10_000_000;
    MulMonotone(Pow10(s), 10_000_000, d);
  }

  lemma CoinScale(d: nat, s: nat)
    requires d < LIMIT && d * Pow10(s) >= COIN * (LIMIT / 10)
    ensures s >= 8
  {
    if s <= 7 {
      SmallScale(d, s);
    }
  }

  lemma CoinQuotient(d: nat, quotient: Dec) returns (z: nat)
    requires 0 < d < LIMIT
    requires quotient == InDash(d)
    ensures quotient == Dec(Shift(d, z), -8 - z)
  {
    var s := DivBelowLimit(Dec(d, 0), Dec(COIN, 0));
    CoinScale(d, s);
    z := s - 8;
    assert Shift(d, s) == Shift(d, z) * COIN by {
      SplitPower(d, z, 8);
      LimitIsPow10();
    }
    DropZeros(Shift(d, s), Shift(d, z), COIN);
  }

  lemma EighthPlacesExact(d: nat, z: nat)
    ensures EighthPlaces(Dec(Shift(d, z), -8 - z)) == d
  {
    if z > 0 {
      HalfEvenExact(d, Pow10(z));
    }
  }

  /** Any duff amount below 10^28 divides into DASH exactly. */
  lemma DivisionByCoinExact(d: nat, quotient: Dec)
    requires d < LIMIT
    requires quotient == InDash(d)
    ensures EighthPlaces(quotient) == d
  {
    if d == 0 {
      assert quotient == Dec(0, 0);
    } else {
      var z := CoinQuotient(d, quotient);
      EighthPlacesExact(d, z);
    }
  }

  lemma ParseFormatEight(units: nat)
    ensures ParseDecimal(PrintNat(units / COIN) + "." + PrintFixed(units % COIN, 8)) == Some(Dec(units, -8))
  {
    var whole, frac := PrintNat(units / COIN), PrintFixed(units % COIN, 8);
    IndexOfFirst(whole, '.', frac);
    IndexOfNone(whole + "." + frac, 'e');
    assert (whole + "." + frac)[..|whole + "." + frac|] == whole + "." + frac;
    assert (whole + "." + frac)[..|whole|] == whole && (whole + "." + frac)[|whole| + 1..] == frac;
    assert ParseNat(whole + frac) == units by {
      LimitIsPow10();
      ParsePrint(units / COIN);
      ParseFixed(units % COIN, 8);
      ParseConcat(whole, frac);
    }
  }

  lemma ToDuffsOfEighths(d: nat)
    requires d < LIMIT
    ensures ToDuffs(Dec(d, -8)) == d
  {
    LimitIsPow10();
    var n := RoundedExact(d, 8, -8);
    if n == 8 {
      assert Pow10(0) == 1;
    } else {
      HalfEvenExact(d, Pow10(8 - n));
    }
  }

  /** Printing an amount and reading it back gives the amount. */
  lemma AmountRoundTrip(d: nat)
    requires d < LIMIT
    ensures RpcDashToDuffs(DashAmountString(d)) == Some(d)
    ensures ParseDecimal(DashAmountString(d)) == Some(Dec(d, -8)) && ToDuffs(Dec(d, -8)) == d
  {
    DivisionByCoinExact(d, InDash(d));
    ParseFormatEight(d);
    ToDuffsOfEighths(d);
  }

  // ---------- what reading an amount gives ----------

  /** Half-even rounding, written out: a nearest multiple, and the even one of two. */
  ghost predicate NearestEven(q: nat, num: nat, den: nat) {
    && 2 * num - den <= 2 * (q * den) <= 2 * num + den
    && (2 * (q * den) == 2 * num + den || 2 * (q * den) == 2 * num - den ==> q % 2 == 0)
  }

  lemma HalfEvenIsNearestEven(num: nat, den: nat)
    requires den > 0
    ensures NearestEven(HalfEven(num, den), num, den)
  {
    DivisionFacts(num, den);
    HalfEvenNearest(num, den);
    assert (num / den + 1) * den == num / den * den + den;
  }

  /** The product with the number of duffs in a DASH is exact: at most trailing zeros are dropped. */
  lemma InDuffs(c: nat, e: int) returns (n: nat)
    requires c < LIMIT
    ensures n <= 8 && Mul(Dec(c, e), Dec(COIN, 0)) == Dec(Shift(c, 8 - n), e + n)
  {
    LimitIsPow10();
    n := RoundedExact(c, 8, e);
  }

  /** With at most eight decimals an amount is read exactly. */
  lemma ToDuffsExact(c: nat, e: int)
    requires c < LIMIT && e >= -8
    ensures ToDuffs(Dec(c, e)) == c * Pow10(e + 8)
  {
    var n := InDuffs(c, e);
    if e + n >= 0 {
      SplitPower(c, 8 - n, e + n);
    } else {
      SplitPower(c, e + 8, -e - n);
      HalfEvenExact(Shift(c, e + 8), Pow10(-e - n));
    }
  }

  /** With more it is read as the nearest number of duffs, the even one of two. */
  lemma ToDuffsNearest(c: nat, e: int)
    requires c < LIMIT && e < -8
    ensures NearestEven(ToDuffs(Dec(c, e)), c, Pow10(-8 - e))
  {
    var n := InDuffs(c, e);
    Pow10Add(8 - n, -8 - e);
    MulAssociates(c, Pow10(8 - n), Pow10(-8 - e));
    HalfEvenRatio(Shift(c, 8 - n), Pow10(-e - n), c, Pow10(-8 - e));
    HalfEvenIsNearestEven(c, Pow10(-8 - e));
  }

  lemma ParsePointed(a: string, b: string)
    requires AllDigits(a) && AllDigits(b) && a + b != ""
    ensures ParsePlain(a + "." + b) == Some(Dec(ParseNat(a + b), -|b|))
  {
    IndexOfFirst(a, '.', b);
    assert (a + "." + b)[..|a|] == a && (a + "." + b)[|a| + 1..] == b;
  }

  lemma ParseWhole(a: string)
    requires AllDigits(a) && a != ""
    ensures ParsePlain(a) == Some(Dec(ParseNat(a), 0))
  {
    IndexOfNone(a, '.');
    assert a[..|a|] + "" == a;
  }

  lemma ParseUnmarked(s: string)
    requires 'e' !in s
    ensures ParseDecimal(s) == ParsePlain(s)
  {
    IndexOfNone(s, 'e');
    assert s[..|s|] == s;
  }

  function Signed(sign: string, x: string): int
    requires AllDigits(x)
  {
    if sign == "-" then 0 - ParseNat(x) else ParseNat(x)
  }

  lemma ParseSigned(sign: string, x: string)
    requires sign in {"", "+", "-"} && AllDigits(x) && x != ""
    ensures ParseExponent(sign + x) == Some(Signed(sign, x))
  {
    assert x[0] in x;
    if sign == "" {
      assert sign + x == x;
    } else {
      assert (sign + x)[1..] == x;
    }
  }

  /** A text with an exponent is the number before it, times that power of ten. */
  lemma ParseMarked(s: string, y: string)
    requires 'e' !in s
    ensures ParseDecimal(s + "e" + y) == Scaled(ParsePlain(s), ParseExponent(y))
  {
    var t := s + "e" + y;
    IndexOfFirst(s, 'e', y);
    SplitAround(s, "e", y);
    assert IndexOfChar(t, 'e') == |s| < |t|;
  }

  lemma SplitAround(s: string, mark: string, y: string)
    requires |mark| == 1
    ensures (s + mark + y)[..|s|] == s && (s + mark + y)[|s| + 1..] == y
  {
  }

  /** A number with or without a point. */
  predicate Spells(number: string, a: string, b: string) { number == a + "." + b || (b == "" && number == a) }

  lemma ParseWritten(number: string, a: string, b: string)
    requires AllDigits(a) && AllDigits(b) && a + b != "" && Spells(number, a, b)
    ensures 'e' !in number && ParsePlain(number) == Some(Dec(ParseNat(a + b), -|b|))
  {
    assert a + "" == a;
    if number == a + "." + b {
      ParsePointed(a, b);
    } else {
      ParseWhole(a);
    }
  }

  lemma ToDuffsOf(value: nat, e: int)
    requires value < LIMIT
    ensures e >= -8 ==> ToDuffs(Dec(value, e)) == value * Pow10(e + 8)
    ensures e < -8 ==> NearestEven(ToDuffs(Dec(value, e)), value, Pow10(-8 - e))
  {
    if e >= -8 {
      ToDuffsExact(value, e);
    } else {
      ToDuffsNearest(value, e);
    }
  }

  lemma RpcReads(number: string, a: string, b: string, value: nat)
    requires AllDigits(a) && AllDigits(b) && a + b != "" && value == ParseNat(a + b) && Spells(number, a, b)
    ensures RpcDashToDuffs(number) == Some(ToDuffs(Dec(value, -|b|)))
  {
    ParseWritten(number, a, b);
    ParseUnmarked(number);
  }

  /** The text of a number with at most eight decimals is read exactly, with more to the nearest duff. */
  lemma RpcReadsText(number: string, a: string, b: string, value: nat)
    requires AllDigits(a) && AllDigits(b) && a + b != "" && value == ParseNat(a + b) < LIMIT && Spells(number, a, b)
    ensures |b| <= 8 ==> RpcDashToDuffs(number) == Some(value * Pow10(8 - |b|))
    ensures |b| > 8 ==>
      RpcDashToDuffs(number).Some? && NearestEven(RpcDashToDuffs(number).value, value, Pow10(|b| - 8))
  {
    RpcReads(number, a, b, value);
    ToDuffsOf(value, -|b|);
  }

  /** In scientific form, as Python prints small and large floats, what counts is the exponent less the decimals. */
  lemma RpcReadsScientific(a: string, b: string, number: string, sign: string, x: string, value: nat, e: int)
    requires AllDigits(a) && AllDigits(b) && a + b != "" && value == ParseNat(a + b) < LIMIT
    requires Spells(number, a, b)
    requires sign in {"", "+", "-"} && AllDigits(x) && x != "" && e == Signed(sign, x) - |b|
    ensures var duffs := RpcDashToDuffs(number + "e" + (sign + x));
      && duffs.Some?
      && (e >= -8 ==> duffs.value == value * Pow10(e + 8))
      && (e < -8 ==> NearestEven(duffs.value, value, Pow10(-8 - e)))
  {
    ParseWritten(number, a, b);
    ParseSigned(sign, x);
    ParseMarked(number, sign + x);
    ToDuffsOf(value, e);
  }

  lemma {:induction false} NoLeadingZero(n: nat)
    ensures n >= 10 ==> |PrintNat(n)| >= 2 && DigitValue(PrintNat(n)[0]) > 0
    ensures n < 10 ==> |PrintNat(n)| == 1
  {
    if n >= 10 {
      NoLeadingZero(n / 10);
      assert PrintNat(n)[0] == PrintNat(n / 10)[0];
      if n / 10 < 10 {
        assert PrintNat(n / 10) == [Digit(n / 10)];
      }
    }
  }

  /** The printed amount: the whole DASH without leading zeros, a point, and exactly eight digits. */
  lemma PrintedForm(d: nat) returns (whole: string, frac: string)
    requires d < LIMIT
    ensures DashAmountString(d) == whole + "." + frac && AllDigits(whole) && AllDigits(frac) && |frac| == 8
    ensures ParseNat(whole) == d / 100_000_000 && ParseNat(frac) == d % 100_000_000
    ensures |whole| == 1 || (|whole| > 1 && DigitValue(whole[0]) > 0)
  {
    whole, frac := PrintNat(d / COIN), PrintFixed(d % COIN, 8);
    DivisionByCoinExact(d, InDash(d));
    LimitIsPow10();
    ParsePrint(d / COIN);
    ParseFixed(d % COIN, 8);
    NoLeadingZero(d / COIN);
  }
}
