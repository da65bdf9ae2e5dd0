/** ECB rates quantised half-up to eight places, costs converted with half-even rounding to six
    places, and what the two roundings add up to. Decimals are exact reals. */
module Currency {
  import opened Wrappers

  /** ROUND_HALF_UP: nearest, ties away from zero. */
  function HalfUp(x: real): int {
    if x >= 0.0 then (x + 0.5).Floor else -((-x + 0.5).Floor)
  }

  /** ROUND_HALF_EVEN, the default context rounding. */
  function HalfEven(x: real): int {
    var f := x.Floor;
    var d := x - f as real;
    if d < 0.5 then f else if d > 0.5 then f + 1 else if f % 2 == 0 then f else f + 1
  }

  function Quantize8(x: real): real { HalfUp(x * 100000000.0) as real / 100000000.0 }

  function Quantize6(x: real): real { HalfEven(x * 1000000.0) as real / 1000000.0 }

  function Times(a: real, b: real): real { a * b }

  /** The unrounded product of a conversion, in millionths. */
  function Millionths(cost: real, rate: real): real { Times(cost, rate) * 1000000.0 }

  function Abs(x: real): real { if x < 0.0 then -x else x }

  datatype RateError = NoUsdRate | DivisionByZero

  /** The dict of EUR-based rates as its items, in order, keys distinct. */
  ghost predicate IsDict(items: seq<(string, real)>) {
    forall i, j :: 0 <= i < j < |items| ==> items[i].0 != items[j].0
  }

  ghost predicate Lists(items: seq<(string, real)>, n: nat, currency: string)
    requires n <= |items|
  {
    exists i :: 0 <= i < n && items[i].0 == currency
  }

  /** The first n currencies have their rates, EUR passes through unless it is one of them, and
      there are no others. */
  ghost predicate Filled(items: seq<(string, real)>, n: nat, usdPerEur: real, rates: map<string, real>)
    requires n <= |items|
  {
    && (forall i :: 0 <= i < n ==> RateAt(items[i], usdPerEur, rates))
    && "EUR" in rates && (!Lists(items, n, "EUR") ==> rates["EUR"] == usdPerEur)
    && (forall c :: c in rates ==> c == "EUR" || Lists(items, n, c))
  }

  ghost predicate RateAt(item: (string, real), usdPerEur: real, rates: map<string, real>) {
    && item.0 in rates && (item.0 == "USD" || item.1 != 0.0)
    && rates[item.0] == if item.0 == "USD" then 1.0 else Quantize8(usdPerEur / item.1)
  }

  lemma FillsOneMore(items: seq<(string, real)>, n: nat, usdPerEur: real, rates: map<string, real>)
    requires IsDict(items) && n < |items| && Filled(items, n, usdPerEur, rates)
    requires items[n].0 == "USD" || items[n].1 != 0.0
    ensures Filled(items, n + 1, usdPerEur, rates[items[n].0 := if items[n].0 == "USD" then 1.0 else Quantize8(usdPerEur / items[n].1)])
  {
    var (c, perEur) := items[n];
    var rates' := rates[c := if c == "USD" then 1.0 else Quantize8(usdPerEur / perEur)];
    forall i | 0 <= i < n + 1 ensures RateAt(items[i], usdPerEur, rates') {
      assert i < n ==> RateAt(items[i], usdPerEur, rates);
    }
    forall d | d in rates' && d != "EUR" ensures Lists(items, n + 1, d) {
      assert items[n].0 == c && (d in rates ==> Lists(items, n, d));
    }
    assert items[n].0 == "EUR" ==> Lists(items, n + 1, "EUR");
    assert Lists(items, n, "EUR") ==> Lists(items, n + 1, "EUR");
  }

  lemma NoneFailed(items: seq<(string, real)>, u: nat, usdPerEur: real, rates: map<string, real>)
    requires u < |items| && items[u].0 == "USD" && Filled(items, |items|, usdPerEur, rates)
    ensures "USD" in rates && rates["USD"] == 1.0
    ensures forall i :: 0 <= i < |items| ==> items[i].0 == "USD" || items[i].1 != 0.0
  {
    assert RateAt(items[u], usdPerEur, rates);
    forall i | 0 <= i < |items| ensures items[i].0 == "USD" || items[i].1 != 0.0 {
      assert RateAt(items[i], usdPerEur, rates);
    }
  }

  /** Every currency gets its USD rate; EUR is there unrounded unless the feed lists it too.
      A feed without USD and a zero rate raise. */
  method ConvertToUsdRates(items: seq<(string, real)>) returns (r: Result<map<string, real>, RateError>)
    requires IsDict(items)
    ensures r == Err(NoUsdRate) <==> !Lists(items, |items|, "USD")
    ensures r == Err(DivisionByZero) <==>
      Lists(items, |items|, "USD") && exists i :: 0 <= i < |items| && items[i].0 != "USD" && items[i].1 == 0.0
    ensures r.Ok? ==> forall u :: 0 <= u < |items| && items[u].0 == "USD" ==> Filled(items, |items|, items[u].1, r.value)
    ensures r.Ok? ==> "USD" in r.value && r.value["USD"] == 1.0
  {
    var u := 0;
    while u < |items| && items[u].0 != "USD"
      invariant 0 <= u <= |items|
      invariant forall i :: 0 <= i < u ==> items[i].0 != "USD"
    {
      u := u + 1;
    }
    if u == |items| {
      return Err(NoUsdRate);
    }
    var usdPerEur := items[u].1;
    var rates := map["EUR" := usdPerEur];
    var i := 0;
    while i < |items|
      invariant 0 <= i <= |items| && Filled(items, i, usdPerEur, rates)
    {
      var (currency, perEur) := items[i];
      if currency != "USD" && perEur == 0.0 {
        return Err(DivisionByZero);
      }
      FillsOneMore(items, i, usdPerEur, rates);
      if currency == "USD" {
        rates := rates["USD" := 1.0];
      } else {
        rates := rates[currency := Quantize8(usdPerEur / perEur)];
      }
      i := i + 1;
    }
    NoneFailed(items, u, usdPerEur, rates);
    return Ok(rates);
  }

  /** convert_to_usd: USD and currencies without a rate pass through unrounded. */
  function ConvertToUsd(cost: real, currency: string, rates: map<string, real>): real {
    if currency == "USD" || currency !in rates then cost else Quantize6(Times(cost, rates[currency]))
  }

  // --- Rounding ---------------------------------------------------------------------------

  /** Half-even is the nearest integer, the even one on a tie, and nothing else is. */
  lemma HalfEvenIff(x: real, n: int)
    ensures HalfEven(x) == n <==>
      Abs(n as real - x) <= 0.5 && (Abs(n as real - x) == 0.5 ==> n % 2 == 0)
  {
    var f := x.Floor;
    assert f as real <= x < f as real + 1.0;
    if Abs(n as real - x) <= 0.5 {
      assert n == f || n == f + 1;
    }
  }

  /** Half-up is the nearest integer, the one further from zero on a tie, and nothing else. */
  lemma HalfUpIff(x: real, n: int)
    ensures HalfUp(x) == n <==>
      Abs(n as real - x) <= 0.5 && (Abs(n as real - x) == 0.5 ==> Abs(n as real) > Abs(x))
  {
    if x >= 0.0 {
      var f := (x + 0.5).Floor;
      assert f as real <= x + 0.5 < f as real + 1.0;
      if Abs(n as real - x) <= 0.5 { assert n == f || n == f - 1; }
    } else {
      var f := (-x + 0.5).Floor;
      assert f as real <= -x + 0.5 < f as real + 1.0;
      if Abs(n as real - x) <= 0.5 { assert -n == f || -n == f - 1; }
    }
  }

  lemma HalfEvenOdd(x: real)
    ensures HalfEven(-x) == -HalfEven(x)
  {
    HalfEvenIff(x, HalfEven(x));
    HalfEvenIff(-x, -HalfEven(x));
  }

  lemma HalfEvenMonotone(x: real, y: real)
    requires x <= y
    ensures HalfEven(x) <= HalfEven(y)
  {
    HalfEvenIff(x, HalfEven(x));
    HalfEvenIff(y, HalfEven(y));
    assert HalfEven(x) > HalfEven(y) ==> HalfEven(x) as real >= HalfEven(y) as real + 1.0;
  }

  // --- One conversion -----------------------------------------------------------------------

  /** A rate is n / 10^8 for the integer n nearest the quotient in those units, ties away from
      zero, and nothing else. */
  lemma Quantize8Iff(x: real, n: int)
    ensures Quantize8(x) == n as real / 100000000.0 <==>
      Abs(n as real - x * 100000000.0) <= 0.5
      && (Abs(n as real - x * 100000000.0) == 0.5 ==> Abs(n as real) > Abs(x * 100000000.0))
  {
    HalfUpIff(x * 100000000.0, n);
    SameQuotient(HalfUp(x * 100000000.0), n, 100000000.0);
  }

  /** A converted cost is n / 10^6 for the integer n nearest the product in those units, even on
      a tie, and nothing else. */
  lemma Quantize6Iff(x: real, n: int)
    ensures Quantize6(x) == n as real / 1000000.0 <==>
      Abs(n as real - x * 1000000.0) <= 0.5 && (Abs(n as real - x * 1000000.0) == 0.5 ==> n % 2 == 0)
  {
    HalfEvenIff(x * 1000000.0, n);
    SameQuotient(HalfEven(x * 1000000.0), n, 1000000.0);
  }

  lemma SameQuotient(a: int, b: int, d: real)
    requires d > 0.0
    ensures a as real / d == b as real / d <==> a == b
  {
    QuotientTimes(a as real, d);
    QuotientTimes(b as real, d);
  }

  lemma Quantize8Error(x: real)
    ensures Abs(Quantize8(x) - x) <= 0.000000005
  {
    HalfUpIff(x * 100000000.0, HalfUp(x * 100000000.0));
  }

  lemma Quantize6Error(x: real)
    ensures Abs(Quantize6(x) - x) <= 0.0000005
  {
    HalfEvenIff(x * 1000000.0, HalfEven(x * 1000000.0));
  }

  lemma ScaledBound(c: real, d: real, e: real)
    requires c >= 0.0 && -e <= d <= e
    ensures -Times(c, e) <= Times(c, d) <= Times(c, e)
  {
    assert Times(c, e - d) >= 0.0 && Times(c, e + d) >= 0.0;
  }

  lemma ScaledError(cost: real, a: real, b: real, e: real)
    requires Abs(a - b) <= e
    ensures Abs(Times(cost, a) - Times(cost, b)) <= Times(Abs(cost), e)
  {
    var d := a - b;
    assert Times(cost, a) - Times(cost, b) == Times(cost, d);
    ScaledBound(Abs(cost), d, e);
    assert cost < 0.0 ==> Times(cost, d) == -Times(-cost, d);
  }

  lemma AddBounds(a: real, b: real, c: real, d: real, e: real)
    requires Abs(a - b) <= d && Abs(b - c) <= e
    ensures Abs(a - c) <= d + e
  {
  }

  lemma TwoRoundings(cost: real, exact: real)
    ensures Abs(Quantize6(Times(cost, Quantize8(exact))) - Times(cost, exact)) <= 0.0000005 + Times(Abs(cost), 0.000000005)
  {
    var rate := Quantize8(exact);
    Quantize8Error(exact);
    Quantize6Error(Times(cost, rate));
    ScaledError(cost, rate, exact, 0.000000005);
    AddBounds(Quantize6(Times(cost, rate)), Times(cost, rate), Times(cost, exact), 0.0000005, Times(Abs(cost), 0.000000005));
  }

  /** With the rate the feed yields, a conversion is off the exact cost * usd / c by at most
      half a unit of the sixth place plus |cost| times half a unit of the eighth. */
  lemma ConversionError(cost: real, currency: string, usdPerEur: real, perEur: real, rates: map<string, real>)
    requires currency != "USD" && perEur != 0.0
    requires currency in rates && rates[currency] == Quantize8(usdPerEur / perEur)
    ensures Abs(ConvertToUsd(cost, currency, rates) - Times(cost, usdPerEur / perEur))
         <= 0.0000005 + Times(Abs(cost), 0.000000005)
  {
    TwoRoundings(cost, usdPerEur / perEur);
  }

  /** Refunds mirror charges. */
  lemma ConversionOdd(cost: real, currency: string, rates: map<string, real>)
    ensures ConvertToUsd(-cost, currency, rates) == -ConvertToUsd(cost, currency, rates)
  {
    if currency != "USD" && currency in rates {
      var x := Times(cost, rates[currency]);
      HalfEvenOdd(x * 1000000.0);
      assert Times(-cost, rates[currency]) == -x;
      assert (-x) * 1000000.0 == -(x * 1000000.0);
    }
  }

  lemma Quantize6Monotone(x: real, y: real)
    requires x <= y
    ensures Quantize6(x) <= Quantize6(y)
  {
    HalfEvenMonotone(x * 1000000.0, y * 1000000.0);
  }

  lemma ProductMonotone(a: real, b: real, rate: real)
    requires a <= b && rate >= 0.0
    ensures Times(a, rate) <= Times(b, rate)
  {
    assert (b - a) * rate >= 0.0;
  }

  lemma ConversionMonotone(a: real, b: real, currency: string, rates: map<string, real>)
    requires a <= b && (currency in rates ==> rates[currency] >= 0.0)
    ensures ConvertToUsd(a, currency, rates) <= ConvertToUsd(b, currency, rates)
  {
    if currency != "USD" && currency in rates {
      ProductMonotone(a, b, rates[currency]);
      Quantize6Monotone(Times(a, rates[currency]), Times(b, rates[currency]));
    }
  }

  // --- A batch --------------------------------------------------------------------------------

  ghost function Sum(costs: seq<real>): real {
    if costs == [] then 0.0 else Sum(costs[..|costs| - 1]) + costs[|costs| - 1]
  }

  /** The batch total when each record is converted on its own. */
  ghost function Converted(costs: seq<real>, currency: string, rates: map<string, real>): real {
    if costs == [] then 0.0
    else Converted(costs[..|costs| - 1], currency, rates) + ConvertToUsd(costs[|costs| - 1], currency, rates)
  }

  /** That total less the conversion of the summed costs. */
  ghost function Drift(costs: seq<real>, currency: string, rates: map<string, real>): real {
    Converted(costs, currency, rates) - ConvertToUsd(Sum(costs), currency, rates)
  }

  /** The most millionths n conversions can drift by. */
  function MaxDrift(n: nat): nat {
    if n % 4 == 3 then (n + 1) / 2 else n / 2
  }

  /** The batch total in millionths, each record rounded on its own. */
  ghost function SumRounded(costs: seq<real>, rate: real): int {
    if costs == [] then 0
    else SumRounded(costs[..|costs| - 1], rate) + HalfEven(Millionths(costs[|costs| - 1], rate))
  }

  lemma {:induction false} ConvertedIsRounded(costs: seq<real>, currency: string, rates: map<string, real>)
    requires currency != "USD" && currency in rates
    ensures Converted(costs, currency, rates) == SumRounded(costs, rates[currency]) as real / 1000000.0
  {
    if costs == [] {
    } else {
      ConvertedIsRounded(costs[..|costs| - 1], currency, rates);
    }
  }

  /** USD and currencies without a rate pass through, so they do not drift. */
  lemma {:induction false} PassThrough(costs: seq<real>, currency: string, rates: map<string, real>)
    requires currency == "USD" || currency !in rates
    ensures Converted(costs, currency, rates) == Sum(costs)
  {
    if costs == [] {
    } else {
      PassThrough(costs[..|costs| - 1], currency, rates);
    }
  }

  /** i is within n halves of x, and even if it is that far off. */
  ghost predicate Near(i: int, x: real, n: nat) {
    Abs(i as real - x) <= n as real * 0.5 && (Abs(i as real - x) == n as real * 0.5 ==> i % 2 == 0)
  }

  lemma NearAdds(i: int, x: real, n: nat, j: int, y: real)
    requires Near(i, x, n) && Near(j, y, 1)
    ensures Near(i + j, x + y, n + 1)
  {
  }

  lemma {:induction false} SumNear(costs: seq<real>, rate: real)
    ensures Near(SumRounded(costs, rate), Millionths(Sum(costs), rate), |costs|)
  {
    if costs == [] {
    } else {
      var n := |costs| - 1;
      SumNear(costs[..n], rate);
      var x := Millionths(costs[n], rate);
      HalfEvenIff(x, HalfEven(x));
      Distribute(Sum(costs[..n]), costs[n], rate);
      NearAdds(SumRounded(costs[..n], rate), Millionths(Sum(costs[..n]), rate), n, HalfEven(x), x);
    }
  }

  lemma Distribute(a: real, b: real, rate: real)
    ensures Millionths(a + b, rate) == Millionths(a, rate) + Millionths(b, rate)
  {
    assert (a + b) * rate == a * rate + b * rate;
  }

  /** Two integers that near one value: if they are as far apart as can be both are even. */
  lemma NearApart(i: int, j: int, x: real, n: nat)
    requires Near(i, x, n) && Near(j, x, 1)
    ensures i - j <= MaxDrift(n) && j - i <= MaxDrift(n)
  {
    assert (2 * (i - j)) as real <= (n + 1) as real && (2 * (j - i)) as real <= (n + 1) as real;
    if 2 * (i - j) == n + 1 || 2 * (j - i) == n + 1 {
      assert i % 2 == 0 && j % 2 == 0;
    }
  }

  /** Converting n records one by one differs from converting their sum by at most MaxDrift(n)
      millionths. */
  lemma BatchDrift(costs: seq<real>, currency: string, rates: map<string, real>)
    ensures Abs(Drift(costs, currency, rates)) <= MaxDrift(|costs|) as real / 1000000.0
  {
    if currency == "USD" || currency !in rates {
      PassThrough(costs, currency, rates);
    } else {
      var rate := rates[currency];
      var x := Millionths(Sum(costs), rate);
      ConvertedIsRounded(costs, currency, rates);
      SumNear(costs, rate);
      HalfEvenIff(x, HalfEven(x));
      NearApart(SumRounded(costs, rate), HalfEven(x), x, |costs|);
      ScaleDown(SumRounded(costs, rate), HalfEven(x), MaxDrift(|costs|));
    }
  }

  lemma ScaleDown(i: int, j: int, bound: nat)
    requires i - j <= bound && j - i <= bound
    ensures Abs(i as real / 1000000.0 - j as real / 1000000.0) <= bound as real / 1000000.0
  {
  }

  // --- That bound is reached ---------------------------------------------------------------------

  const HALF_MILLIONTH := 0.0000005

  ghost function Halves(n: nat): seq<real> {
    if n == 0 then [] else Halves(n - 1) + [HALF_MILLIONTH]
  }

  const PAR := map["EUR" := 1.0]

  lemma HalfRoundsToZero()
    ensures ConvertToUsd(HALF_MILLIONTH, "EUR", PAR) == 0.0
  {
    HalfEvenIff(Times(HALF_MILLIONTH, 1.0) * 1000000.0, 0);
  }

  lemma {:induction false} HalvesSum(n: nat)
    ensures |Halves(n)| == n && Sum(Halves(n)) == n as real * HALF_MILLIONTH
  {
    if n == 0 {
    } else {
      HalvesSum(n - 1);
      SumMore(Halves(n - 1), HALF_MILLIONTH);
      assert (n - 1) as real * HALF_MILLIONTH + HALF_MILLIONTH == n as real * HALF_MILLIONTH;
    }
  }

  lemma SumMore(costs: seq<real>, cost: real)
    ensures Sum(costs + [cost]) == Sum(costs) + cost
  {
    assert (costs + [cost])[..|costs|] == costs;
  }

  lemma ConvertedMore(costs: seq<real>, cost: real, currency: string, rates: map<string, real>)
    ensures Converted(costs + [cost], currency, rates) == Converted(costs, currency, rates) + ConvertToUsd(cost, currency, rates)
  {
    assert (costs + [cost])[..|costs|] == costs;
  }

  /** Half a millionth rounds to zero, so n of them vanish unless they are summed first. */
  lemma {:induction false} HalvesVanish(n: nat)
    ensures Converted(Halves(n), "EUR", PAR) == 0.0
  {
    if n == 0 {
    } else {
      HalvesVanish(n - 1);
      HalfRoundsToZero();
      ConvertedMore(Halves(n - 1), HALF_MILLIONTH, "EUR", PAR);
    }
  }

  lemma RoundsToMax(n: nat)
    ensures HalfEven(n as real * 0.5) == MaxDrift(n)
  {
    var q := n / 2;
    assert n as real * 0.5 == q as real + if n % 2 == 0 then 0.0 else 0.5;
    HalfEvenIff(n as real * 0.5, MaxDrift(n));
  }

  /** For every n some batch of n records drifts by exactly MaxDrift(n) millionths. */
  lemma BatchDriftReached(n: nat)
    ensures |Halves(n)| == n && Drift(Halves(n), "EUR", PAR) == -(MaxDrift(n) as real / 1000000.0)
  {
    HalvesVanish(n);
    HalvesSum(n);
    SumConverted(n, n as real * HALF_MILLIONTH);
  }

  lemma SumConverted(n: nat, sum: real)
    requires sum == n as real * HALF_MILLIONTH
    ensures ConvertToUsd(sum, "EUR", PAR) == MaxDrift(n) as real / 1000000.0
  {
    RoundsToMax(n);
    assert Times(sum, 1.0) * 1000000.0 == n as real * 0.5;
    assert ConvertToUsd(sum, "EUR", PAR) == Quantize6(Times(sum, 1.0));
  }

  /** Half a millionth a record covers every batch of n records. */
  ghost predicate HalfEachCovers(n: nat) {
    forall costs, currency, rates | |costs| == n :: DriftsByHalves(costs, currency, rates, n)
  }

  ghost predicate DriftsByHalves(costs: seq<real>, currency: string, rates: map<string, real>, n: nat) {
    Abs(Drift(costs, currency, rates)) <= n as real * HALF_MILLIONTH
  }

  lemma MaxDriftVersusHalves(n: nat)
    ensures MaxDrift(n) as real / 1000000.0 <= n as real * HALF_MILLIONTH <==> n % 4 != 3
  {
    assert MaxDrift(n) as real / 1000000.0 <= n as real * HALF_MILLIONTH <==> (2 * MaxDrift(n)) as real <= n as real;
  }

  /** The rounding of the sum itself shows exactly when n leaves remainder three modulo four. */
  lemma HalfEachCoversIff(n: nat)
    ensures HalfEachCovers(n) <==> n % 4 != 3
  {
    MaxDriftVersusHalves(n);
    if n % 4 == 3 {
      BatchDriftReached(n);
      assert !DriftsByHalves(Halves(n), "EUR", PAR, n);
    } else {
      forall costs: seq<real>, currency, rates | |costs| == n
        ensures DriftsByHalves(costs, currency, rates, n)
      {
        BatchDrift(costs, currency, rates);
      }
    }
  }

  // --- The 28-digit quotient --------------------------------------------------------------------

  ghost function Tens(k: nat): (r: nat)
    ensures r >= 1
  {
    if k == 0 then 1 else 10 * Tens(k - 1)
  }

  /** Ten to the e. */
  ghost function Unit(e: int): (r: real)
    ensures r > 0.0
  {
    if e >= 0 then Tens(e) as real else 1.0 / Tens(-e) as real
  }

  const TEN_27 := 1000000000000000000000000000.0

  /** q is what decimal division may yield for the quotient x: x to 28 significant digits, or
      more, half even. */
  ghost predicate InContext(x: real, q: real) {
    if x == 0.0 then q == 0.0 else exists e :: AtScale(x, q, Unit(e), e)
  }

  ghost predicate AtScale(x: real, q: real, unit: real, e: int) {
    unit == Unit(e) && TEN_27 * unit <= x && q == Times(HalfEven(x / unit) as real, unit)
  }

  // --- Products ------------------------------------------------------------------------------------

  lemma Scale(k: real, a: real, c: real)
    ensures Times(k * a, c) == k * Times(a, c) && Times(a, k * c) == k * Times(a, c)
  {
    assert (k * a) * c == k * (a * c);
  }

  lemma Associate(a: real, b: real, c: real)
    ensures Times(Times(a, b), c) == Times(a, Times(b, c))
  {
  }

  lemma QuotientTimes(x: real, d: real)
    requires d != 0.0
    ensures Times(x / d, d) == x
  {
  }

  lemma Cancel(a: real, b: real, c: real)
    requires c > 0.0 && Times(a, c) == Times(b, c)
    ensures a == b
  {
    assert (a - b) * c == 0.0;
  }

  lemma Widen(h: real, w: real, unit: real)
    requires w - 0.5 <= h <= w + 0.5 && unit > 0.0
    ensures -0.5 * unit <= Times(h, unit) - Times(w, unit) <= 0.5 * unit
  {
    assert Times(h, unit) - Times(w, unit) == Times(h - w, unit);
    ProductMonotone(h - w, 0.5, unit);
    ProductMonotone(-0.5, h - w, unit);
  }

  // --- The rate is the same ------------------------------------------------------------------------

  const USD_UNITS := 10000000000000000000

  /** Decimal division rounds the quotient to 28 digits before the rate is quantised. For a USD
      rate below 10^19 units of the last place it shares with the other rate, that changes no
      rate: a = usdPerEur and b = perEur in those units. */
  lemma ContextHarmless(usdPerEur: real, perEur: real, places: nat, a: nat, b: nat, q: real)
    requires Times(usdPerEur, Tens(places) as real) == a as real && Times(perEur, Tens(places) as real) == b as real
    requires a < USD_UNITS && b >= 1 && perEur != 0.0
    requires InContext(usdPerEur / perEur, q)
    ensures Quantize8(q) == Quantize8(usdPerEur / perEur)
  {
    var x := usdPerEur / perEur;
    QuotientOfUnits(usdPerEur, perEur, Tens(places) as real, a as real, b as real);
    if x != 0.0 {
      var e :| AtScale(x, q, Unit(e), e);
      SameRounding(x, q, e, a, b);
    }
  }

  /** Two USD and one other unit a EUR, in whole units: the hypotheses hold of the exact rate. */
  lemma ContextExample()
    ensures Times(2.0, Tens(0) as real) == 2 as real && Times(1.0, Tens(0) as real) == 1 as real
    ensures InContext(2.0 / 1.0, 2.0)
  {
    TensSplit(27);
    TensSplit(18);
    TensSplit(9);
    var t := Tens(27) as real;
    assert t == TEN_27;
    var unit := Unit(-27);
    DivideByInverse(2.0, t);
    QuotientTimes(1.0, t);
    QuotientTimes(2.0, unit);
    HalfEvenIff(2.0 / unit, 2 * Tens(27));
    assert AtScale(2.0, 2.0, Unit(-27), -27);
  }

  lemma QuotientOfUnits(usdPerEur: real, perEur: real, t: real, a: real, b: real)
    requires Times(usdPerEur, t) == a && Times(perEur, t) == b && perEur != 0.0
    ensures Times(usdPerEur / perEur, b) == a
  {
    QuotientTimes(usdPerEur, perEur);
    Associate(usdPerEur / perEur, perEur, t);
  }

  lemma SameRounding(x: real, q: real, e: int, a: nat, b: nat)
    requires AtScale(x, q, Unit(e), e) && Times(x, b as real) == a as real && a < USD_UNITS && b >= 1
    ensures HalfUp(q * 100000000.0) == HalfUp(x * 100000000.0)
  {
    var y, v, n := 100000000.0 * x, 100000000.0 * q, 100000000 * a;
    Scale(100000000.0, x, b as real);
    Scale(100000000.0, q - x, (2 * b) as real);
    MovesLittle(x, q, e, a, b);
    ContextError(x, q, Unit(e), e);
    assert Times(v - y, (2 * b) as real) == 100000000.0 * Times(q - x, (2 * b) as real);
    if (2 * n) % b == 0 {
      HalfInteger(y, n, b);
      Representable(x, q, e, (2 * n) / b, a, b);
    }
    QuotientRoundingHarmless(n, b, y, v);
  }

  /** The context moves x by at most half a unit. */
  lemma ContextError(x: real, q: real, unit: real, e: int)
    requires AtScale(x, q, unit, e)
    ensures -0.5 * unit <= q - x <= 0.5 * unit && x >= 0.0 && q >= 0.0
  {
    var w := x / unit;
    HalfEvenIff(w, HalfEven(w));
    QuotientTimes(x, unit);
    Widen(HalfEven(w) as real, w, unit);
  }

  lemma MovesLittle(x: real, q: real, e: int, a: nat, b: nat)
    requires AtScale(x, q, Unit(e), e) && Times(x, b as real) == a as real && a < USD_UNITS && b >= 1
    ensures -1.0 < 100000000.0 * Times(q - x, (2 * b) as real) < 1.0
  {
    var u, B := Unit(e), b as real;
    ContextError(x, q, u, e);
    ProductMonotone(TEN_27 * u, x, B);
    Scale(TEN_27, u, B);
    ProductMonotone(q - x, 0.5 * u, B);
    ProductMonotone(-0.5 * u, q - x, B);
    Scale(0.5, u, B);
    Scale(-0.5, u, B);
    Scale(2.0, q - x, B);
    assert (2 * b) as real == 2.0 * B;
  }

  lemma HalfInteger(y: real, n: nat, b: nat)
    requires b >= 1 && Times(y, b as real) == n as real && (2 * n) % b == 0
    ensures 2.0 * y == ((2 * n) / b) as real
  {
    var m := (2 * n) / b;
    assert m * b == 2 * n;
    CastProduct(m, b);
    Scale(2.0, y, b as real);
    Cancel(2.0 * y, m as real, b as real);
  }

  /** A multiple of half of 10^-8 that is not too large has at most 28 digits. */
  lemma Representable(x: real, q: real, e: int, m: int, a: nat, b: nat)
    requires AtScale(x, q, Unit(e), e) && 2.0 * (100000000.0 * x) == m as real
    requires Times(x, b as real) == a as real && a < USD_UNITS && b >= 1
    ensures q == x
  {
    SmallUnit(x, e, a, b);
    WholeUnits(x, e, m);
    QuotientTimes(x, Unit(e));
    HalfEvenIff(x / Unit(e), 5 * m * Tens(-e - 9));
  }

  lemma WholeUnits(x: real, e: int, m: int)
    requires e <= -9 && 2.0 * (100000000.0 * x) == m as real
    ensures x / Unit(e) == (5 * m * Tens(-e - 9)) as real
  {
    var t, rest := Tens(-e), Tens(-e - 9);
    TensSplit(-e);
    DivideByInverse(x, t as real);
    assert t as real == 1000000000.0 * rest as real;
    Scale(1000000000.0, x, rest as real);
    CastProduct(5 * m, rest);
    assert 1000000000.0 * x == (5 * m) as real;
  }

  lemma DivideByInverse(x: real, t: real)
    requires t > 0.0
    ensures 1.0 / t != 0.0 && x / (1.0 / t) == Times(x, t)
  {
    var u := 1.0 / t;
    QuotientTimes(1.0, t);
    QuotientTimes(x, u);
    Associate(x / u, u, t);
  }

  lemma SmallUnit(x: real, e: int, a: nat, b: nat)
    requires TEN_27 * Unit(e) <= x && Times(x, b as real) == a as real && a < USD_UNITS && b >= 1
    ensures e <= -9
  {
    ProductMonotone(0.0, b as real - 1.0, x);
    assert Times(x, b as real) == Times(b as real - 1.0, x) + x;
    assert Unit(e) < 0.00000001;
    if e >= -8 { UnitAtLeast(e); }
  }

  lemma UnitAtLeast(e: int)
    requires e >= -8
    ensures Unit(e) >= 0.00000001
  {
    if e < 0 {
      TensUpTo8(-e);
      InverseAtLeast(Tens(-e) as real);
    }
  }

  lemma InverseAtLeast(t: real)
    requires 0.0 < t <= 100000000.0
    ensures 1.0 / t >= 0.00000001
  {
    QuotientTimes(1.0, t);
    if 1.0 / t < 0.00000001 { Scale(0.00000001, 1.0, t); }
  }

  lemma TensUpTo8(k: nat)
    requires k <= 8
    ensures Tens(k) <= 100000000
  {
    TensMono(k, 8);
    assert Tens(2) == 100 && Tens(4) == 10000 && Tens(6) == 1000000;
  }

  lemma {:induction false} TensMono(k: nat, n: nat)
    requires k <= n
    ensures Tens(k) <= Tens(n)
  {
    if k == n {
    } else {
      TensMono(k, n - 1);
    }
  }

  lemma Thousand(k: nat)
    requires k >= 3
    ensures Tens(k) == 1000 * Tens(k - 3)
  {
    assert Tens(k) == 10 * Tens(k - 1) && Tens(k - 1) == 10 * Tens(k - 2) && Tens(k - 2) == 10 * Tens(k - 3);
  }

  lemma TensSplit(k: nat)
    requires k >= 9
    ensures Tens(k) == 1000000000 * Tens(k - 9)
  {
    Thousand(k);
    Thousand(k - 3);
    Thousand(k - 6);
  }

  /** If rounding the quotient n / d to q moves it by less than 1 / 2d, and not at all when the
      quotient is a multiple of one half, rounding q half up gives what rounding the exact
      quotient gives. */
  lemma QuotientRoundingHarmless(n: nat, d: nat, x: real, q: real)
    requires d >= 1 && x >= 0.0 && q >= 0.0 && Times(x, d as real) == n as real
    requires -1.0 < Times(q - x, (2 * d) as real) < 1.0
    requires (2 * n) % d == 0 ==> q == x
    ensures HalfUp(q) == HalfUp(x)
  {
    if (2 * n) % d != 0 {
      var k, r := OddPart(n, d);
      var D := (2 * d) as real;
      CastProduct(k, 2 * d);
      assert Times(x, D) == 2.0 * Times(x, d as real);
      assert Times(x, D) + 0.5 * D - Times(k as real, D) == r as real;
      assert Times(0.0, D) == 0.0;
      Between(x, x, k as real, r as real, D);
      Between(q, x, k as real, r as real, D);
    }
  }

  /** 2n + d = k * 2d + r, and r is not zero unless d divides 2n. */
  lemma OddPart(n: nat, d: nat) returns (k: int, r: int)
    requires d >= 1 && (2 * n) % d != 0
    ensures 2 * n + d == k * (2 * d) + r && 1 <= r <= 2 * d - 1
  {
    k, r := (2 * n + d) / (2 * d), (2 * n + d) % (2 * d);
    if r == 0 {
      assert 2 * n == (2 * k - 1) * d;
      MultipleMod(2 * k - 1, d);
    }
  }

  lemma MultipleMod(m: int, d: nat)
    requires d >= 1
    ensures (m * d) % d == 0
  {
    var q, r := (m * d) / d, (m * d) % d;
    assert (m - q) * d == r;
    if m - q >= 1 { ProductAtLeast(m - q, d); }
    if m - q <= -1 { ProductAtLeast(q - m, d); }
  }

  lemma ProductAtLeast(a: int, d: nat)
    requires a >= 1
    ensures a * d >= d
  {
  }

  lemma {:induction false} CastProduct(a: int, b: nat)
    ensures (a * b) as real == Times(a as real, b as real)
  {
    if b == 0 {
    } else {
      CastProduct(a, b - 1);
      assert a * b == a * (b - 1) + a;
      assert Times(a as real, b as real) == Times(a as real, (b - 1) as real) + a as real;
    }
  }

  /** v is within 1 / scale of x, and x + 1/2 - k is r / scale with 1 <= r <= scale - 1: so v
      rounds to k. */
  lemma Between(v: real, x: real, k: real, r: real, scale: real)
    requires v >= 0.0 && scale > 0.0 && k == k.Floor as real
    requires Times(x, scale) + 0.5 * scale - Times(k, scale) == r && 1.0 <= r <= scale - 1.0
    requires -1.0 < Times(v - x, scale) < 1.0
    ensures HalfUp(v) == k.Floor
  {
    var w := v + 0.5 - k;
    assert Times(w, scale) == Times(v - x, scale) + r;
    assert w <= 0.0 ==> Times(w, scale) <= 0.0;
    assert w >= 1.0 ==> Times(w - 1.0, scale) >= 0.0;
    assert 0.0 < w < 1.0;
  }
}
