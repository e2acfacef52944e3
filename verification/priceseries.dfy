/** The class `PriceSeries` of priceseries.py: an ordered sequence of prices with a
    name, and the return and risk statistics computed from it.

    A series is an immutable value, so the copy the constructor takes of its input is
    automatic: nothing the caller does afterwards can reach the stored values.
    Natural logarithm and square root are not modelled numerically; the statistics that
    use them take them as parameters `ln` and `sqrt`, and the lemmas that need a
    property of them say so in their preconditions. */
module PriceSeries {
  import opened Results
  import opened Sums

  /** `TRADING_DAYS_PER_YEAR`, the annualisation constant. */
  const TradingDaysPerYear: nat := 252

  /** The default value of the `name` argument. */
  const DefaultName: string := "unnamed"

  datatype Series = Series(values: seq<real>, name: string)

  /** `PriceSeries(values, name)`. */
  function Make(values: seq<real>, name: string := DefaultName): (s: Series)
    ensures Length(s) == |values|
    ensures forall i :: 0 <= i < |values| ==> s.values[i] == values[i]
    ensures s.name == name
  {
    Series(values, name)
  }

  /** `len(series)`: the first non-negative index at which `values[i]` raises. */
  function Length(s: Series): (n: nat)
    ensures forall i :: 0 <= i < n ==> PyIndex(s.values, i).Ok?
    ensures PyIndex(s.values, n) == Err(IndexOutOfRange)
  {
    |s.values|
  }

  /** Python's `values[i]`: a negative index counts from the end, and an index outside
      `-len .. len-1` raises IndexError. */
  function PyIndex(v: seq<real>, i: int): (r: Result<real>)
    ensures r.Ok? <==> -|v| <= i < |v|
    ensures r.Err? ==> r.error == IndexOutOfRange
    ensures 0 <= i < |v| ==> r == Ok(v[i])
    ensures -|v| <= i < 0 ==> r == Ok(v[|v| + i])
  {
    if 0 <= i < |v| then Ok(v[i])
    else if -|v| <= i < 0 then Ok(v[|v| + i])
    else Err(IndexOutOfRange)
  }

  /** Float division, which raises ZeroDivisionError on a zero divisor. */
  function Divide(a: real, b: real): (r: Result<real>)
    ensures r.Err? <==> b == 0.0
    ensures r.Err? ==> r.error == ZeroDivision
    ensures r.Ok? ==> r.value * b == a
  {
    if b == 0.0 then Err(ZeroDivision) else Ok(a / b)
  }

  /** Both prices strictly positive or both strictly negative: exactly when their ratio
      has a logarithm. */
  predicate SameSign(a: real, b: real) {
    (a > 0.0 && b > 0.0) || (a < 0.0 && b < 0.0)
  }

  lemma RatioPositiveIff(a: real, b: real)
    requires b != 0.0
    ensures a / b > 0.0 <==> SameSign(a, b)
  {
    var q := a / b;
    assert q * b == a;
    if b > 0.0 {
      if q > 0.0 { assert q * b > 0.0; }
    } else {
      if q > 0.0 { assert q * b < 0.0; }
    }
  }

  // ---------------------------------------------------------------------------
  // Linear returns
  // ---------------------------------------------------------------------------

  /** `linear_return(t)` with the index range the method is meant for: the return
      between `t-1` and `t` exists only for `1 <= t < len`. */
  function LinearReturn(s: Series, t: int): (r: Result<real>)
    ensures r == Err(IndexOutOfRange) <==> t < 1 || t >= |s.values|
    ensures 1 <= t < |s.values| ==> (r == Err(ZeroDivision) <==> s.values[t - 1] == 0.0)
    ensures r.Ok? <==> 1 <= t < |s.values| && s.values[t - 1] != 0.0
    ensures r.Ok? ==> s.values[t - 1] * (1.0 + r.value) == s.values[t]
  {
    if t < 1 || t >= |s.values| then Err(IndexOutOfRange)
    else Divide(s.values[t] - s.values[t - 1], s.values[t - 1])
  }

  /** `linear_return(t)` as written: Python's indexing, so `t == 0` pairs the first
      price with the last one instead of failing. */
  function LinearReturnAsWritten(s: Series, t: int): (r: Result<real>)
    ensures r == Err(IndexOutOfRange) <==> t <= -|s.values| || t >= |s.values|
    ensures -|s.values| < t < |s.values| ==>
      (r == Err(ZeroDivision) <==> PyIndex(s.values, t - 1).value == 0.0)
    ensures r.Ok? <==> -|s.values| < t < |s.values| && PyIndex(s.values, t - 1).value != 0.0
    ensures r.Ok? ==> PyIndex(s.values, t - 1).value * (1.0 + r.value) == PyIndex(s.values, t).value
  {
    match PyIndex(s.values, t)
    case Err(e) => Err(e)
    case Ok(cur) =>
      match PyIndex(s.values, t - 1)
      case Err(e) => Err(e)
      case Ok(prev) => Divide(cur - prev, prev)
  }

  /** On the intended index range the code as written and the guarded model agree. */
  lemma LinearReturnAsWrittenAgrees(s: Series, t: int)
    requires 1 <= t < |s.values|
    ensures LinearReturnAsWritten(s, t) == LinearReturn(s, t)
  {
  }

  /** At `t == 0` the code as written returns the return from the last price to the
      first, where the guarded model raises IndexError. */
  lemma LinearReturnAsWrittenWrapsAtZero(s: Series)
    requires |s.values| >= 1 && s.values[|s.values| - 1] != 0.0
    ensures LinearReturn(s, 0) == Err(IndexOutOfRange)
    ensures LinearReturnAsWritten(s, 0).Ok?
    ensures s.values[|s.values| - 1] * (1.0 + LinearReturnAsWritten(s, 0).value) == s.values[0]
  {
  }

  /** The list comprehension `[f(t) for t in range(1, k)]`: evaluates `f(1)`, `f(2)`, ...
      in order and stops at the first one that raises. */
  function CollectReturns(f: int -> Result<real>, k: nat): (r: Result<seq<real>>)
    ensures r.Ok? <==> forall t :: 1 <= t < k ==> f(t).Ok?
    ensures r.Ok? ==> |r.value| == (if k == 0 then 0 else k - 1)
    ensures r.Ok? ==> forall i :: 0 <= i < |r.value| ==> f(i + 1) == Ok(r.value[i])
    ensures r.Err? ==> exists t :: 1 <= t < k && f(t) == Err(r.error) && forall u :: 1 <= u < t ==> f(u).Ok?
    decreases k
  {
    if k <= 1 then Ok([])
    else
      match CollectReturns(f, k - 1)
      case Err(e) => Err(e)
      case Ok(prefix) =>
        match f(k - 1)
        case Err(e) => Err(e)
        case Ok(x) => Ok(prefix + [x])
  }

  /** `get_all_linear_returns()`. */
  function AllLinearReturns(s: Series): (r: Result<seq<real>>)
    ensures r.Ok? <==> forall i :: 0 <= i < |s.values| - 1 ==> s.values[i] != 0.0
    ensures r.Err? ==> r.error == ZeroDivision
    ensures r.Ok? ==> |r.value| == (if |s.values| == 0 then 0 else |s.values| - 1)
    ensures r.Ok? ==> forall i :: 0 <= i < |r.value| ==> LinearReturn(s, i + 1) == Ok(r.value[i])
  {
    var f := t => LinearReturn(s, t);
    var r := CollectReturns(f, |s.values|);
    LinearReturnsDefinedIff(s, f, r);
    r
  }

  lemma LinearReturnsDefinedIff(s: Series, f: int -> Result<real>, r: Result<seq<real>>)
    requires forall t :: f(t) == LinearReturn(s, t)
    requires r == CollectReturns(f, |s.values|)
    ensures r.Ok? <==> forall i :: 0 <= i < |s.values| - 1 ==> s.values[i] != 0.0
    ensures r.Err? ==> r.error == ZeroDivision
  {
    if r.Ok? {
      forall i | 0 <= i < |s.values| - 1
        ensures s.values[i] != 0.0
      {
        assert LinearReturn(s, i + 1).Ok?;
      }
    } else {
      var t :| 1 <= t < |s.values| && LinearReturn(s, t) == Err(r.error);
    }
  }

  // ---------------------------------------------------------------------------
  // Total return
  // ---------------------------------------------------------------------------

  /** The `total_return` property: the relative change from the first price to the last,
      and 0.0 for a series with fewer than two prices. */
  function TotalReturn(s: Series): (r: Result<real>)
    ensures |s.values| < 2 ==> r == Ok(0.0)
    ensures |s.values| >= 2 ==> (r.Err? <==> s.values[0] == 0.0)
    ensures r.Err? ==> r.error == ZeroDivision
    ensures |s.values| >= 2 && r.Ok? ==> s.values[0] * (1.0 + r.value) == s.values[|s.values| - 1]
  {
    if |s.values| < 2 then Ok(0.0)
    else Divide(s.values[|s.values| - 1] - s.values[0], s.values[0])
  }

  /** The growth factor of a sequence of returns: the product of `1 + r`. */
  function Growth(rs: seq<real>): real {
    if |rs| == 0 then 1.0 else Growth(rs[..|rs| - 1]) * (1.0 + rs[|rs| - 1])
  }

  lemma RatioStep(x: real, y: real, z: real, g: real)
    requires x != 0.0 && y != 0.0
    requires y * g == z
    ensures (y / x) * g == z / x
  {
    assert (y / x) * g == (y * g) / x;
  }

  /** The first `k` linear returns compound to the ratio of price `k` to price 0. */
  lemma {:induction false} GrowthOfPrefix(s: Series, rs: seq<real>, k: nat)
    requires AllLinearReturns(s) == Ok(rs)
    requires |s.values| >= 2 && k <= |rs|
    ensures Growth(rs[..k]) == s.values[k] / s.values[0]
  {
    var v := s.values;
    assert v[0] != 0.0;
    if k == 0 {
      assert rs[..0] == [];
    } else {
      GrowthOfPrefix(s, rs, k - 1);
      assert rs[..k][..k - 1] == rs[..k - 1];
      assert LinearReturn(s, k) == Ok(rs[k - 1]);
      assert v[k - 1] != 0.0;
      RatioStep(v[0], v[k - 1], v[k], 1.0 + rs[k - 1]);
    }
  }

  /** The total return compounds the linear returns: `1 + total_return` equals the
      product of `1 + linear_return(t)` over every step. */
  lemma TotalReturnCompoundsLinearReturns(s: Series)
    requires |s.values| >= 2 && AllLinearReturns(s).Ok?
    ensures TotalReturn(s).Ok?
    ensures 1.0 + TotalReturn(s).value == Growth(AllLinearReturns(s).value)
  {
    var v := s.values;
    var rs := AllLinearReturns(s).value;
    GrowthOfPrefix(s, rs, |rs|);
    assert rs[..|rs|] == rs;
    var tr := TotalReturn(s).value;
    QuotientOf(v[0], 1.0 + tr, v[|v| - 1]);
  }

  /** Prices 100, 102, 101, 105, 103: a total return of 3% and a first-step return of 2%. */
  lemma ReturnsScenario()
    ensures TotalReturn(Make([100.0, 102.0, 101.0, 105.0, 103.0])) == Ok(0.03)
    ensures LinearReturn(Make([100.0, 102.0, 101.0, 105.0, 103.0]), 1) == Ok(0.02)
  {
  }

  // ---------------------------------------------------------------------------
  // Log returns and the statistics built on them
  // ---------------------------------------------------------------------------

  /** `log_return(t)` with the intended index range: ZeroDivisionError when the earlier
      price is zero, and math.log's domain error when the price ratio is not positive. */
  function LogReturn(s: Series, ln: real -> real, t: int): (r: Result<real>)
    ensures r == Err(IndexOutOfRange) <==> t < 1 || t >= |s.values|
    ensures 1 <= t < |s.values| ==> (r == Err(ZeroDivision) <==> s.values[t - 1] == 0.0)
    ensures r.Ok? <==> 1 <= t < |s.values| && SameSign(s.values[t - 1], s.values[t])
    ensures 1 <= t < |s.values| && s.values[t - 1] != 0.0 && !SameSign(s.values[t - 1], s.values[t]) ==>
      r == Err(MathDomain)
    ensures r.Ok? ==> r.value == ln(s.values[t] / s.values[t - 1])
  {
    if t < 1 || t >= |s.values| then Err(IndexOutOfRange)
    else if s.values[t - 1] == 0.0 then Err(ZeroDivision)
    else
      var ratio := s.values[t] / s.values[t - 1];
      RatioPositiveIff(s.values[t], s.values[t - 1]);
      if ratio <= 0.0 then Err(MathDomain) else Ok(ln(ratio))
  }

  /** `log_return(t)` as written, with Python's indexing. */
  function LogReturnAsWritten(s: Series, ln: real -> real, t: int): (r: Result<real>)
    ensures r == Err(IndexOutOfRange) <==> t <= -|s.values| || t >= |s.values|
    ensures -|s.values| < t < |s.values| ==>
      (r == Err(ZeroDivision) <==> PyIndex(s.values, t - 1).value == 0.0)
    ensures r.Ok? <==> (-|s.values| < t < |s.values| &&
                        SameSign(PyIndex(s.values, t - 1).value, PyIndex(s.values, t).value))
    ensures (-|s.values| < t < |s.values| && PyIndex(s.values, t - 1).value != 0.0 &&
             !SameSign(PyIndex(s.values, t - 1).value, PyIndex(s.values, t).value)) ==>
      r == Err(MathDomain)
    ensures r.Ok? ==> r.value == ln(PyIndex(s.values, t).value / PyIndex(s.values, t - 1).value)
  {
    match PyIndex(s.values, t)
    case Err(e) => Err(e)
    case Ok(cur) =>
      match PyIndex(s.values, t - 1)
      case Err(e) => Err(e)
      case Ok(prev) =>
        match Divide(cur, prev)
        case Err(e) => Err(e)
        case Ok(ratio) =>
          RatioPositiveIff(cur, prev);
          if ratio <= 0.0 then Err(MathDomain) else Ok(ln(ratio))
  }

  lemma LogReturnAsWrittenAgrees(s: Series, ln: real -> real, t: int)
    requires 1 <= t < |s.values|
    ensures LogReturnAsWritten(s, ln, t) == LogReturn(s, ln, t)
  {
  }

  /** At `t == 0` the code as written takes the log of first price over last price. */
  lemma LogReturnAsWrittenWrapsAtZero(s: Series, ln: real -> real)
    requires |s.values| >= 1 && SameSign(s.values[|s.values| - 1], s.values[0])
    ensures LogReturn(s, ln, 0) == Err(IndexOutOfRange)
    ensures LogReturnAsWritten(s, ln, 0) == Ok(ln(s.values[0] / s.values[|s.values| - 1]))
  {
    RatioPositiveIff(s.values[0], s.values[|s.values| - 1]);
  }

  /** `get_all_log_returns()`. */
  function AllLogReturns(s: Series, ln: real -> real): (r: Result<seq<real>>)
    ensures r.Ok? <==> forall i :: 0 <= i < |s.values| - 1 ==> SameSign(s.values[i], s.values[i + 1])
    ensures r.Err? ==> r.error == ZeroDivision || r.error == MathDomain
    ensures r.Err? ==>
      exists t :: FirstFailingPair(s.values, t) && r.error == (if s.values[t - 1] == 0.0 then ZeroDivision else MathDomain)
    ensures r.Ok? ==> |r.value| == (if |s.values| == 0 then 0 else |s.values| - 1)
    ensures r.Ok? ==> forall i :: 0 <= i < |r.value| ==> LogReturn(s, ln, i + 1) == Ok(r.value[i])
  {
    var f := t => LogReturn(s, ln, t);
    var r := CollectReturns(f, |s.values|);
    LogReturnsDefinedIff(s, ln, f, r);
    r
  }

  lemma LogReturnsDefinedIff(s: Series, ln: real -> real, f: int -> Result<real>, r: Result<seq<real>>)
    requires forall t :: f(t) == LogReturn(s, ln, t)
    requires r == CollectReturns(f, |s.values|)
    ensures r.Ok? <==> forall i :: 0 <= i < |s.values| - 1 ==> SameSign(s.values[i], s.values[i + 1])
    ensures r.Err? ==> r.error == ZeroDivision || r.error == MathDomain
    ensures r.Err? ==>
      exists t :: FirstFailingPair(s.values, t) && r.error == (if s.values[t - 1] == 0.0 then ZeroDivision else MathDomain)
  {
    if r.Ok? {
      forall i | 0 <= i < |s.values| - 1
        ensures SameSign(s.values[i], s.values[i + 1])
      {
        assert LogReturn(s, ln, i + 1).Ok?;
      }
    } else {
      var t :| 1 <= t < |s.values| && LogReturn(s, ln, t) == Err(r.error)
        && forall u :: 1 <= u < t ==> LogReturn(s, ln, u).Ok?;
      forall u | 1 <= u < t
        ensures SameSign(s.values[u - 1], s.values[u])
      {
        assert LogReturn(s, ln, u).Ok?;
      }
      assert FirstFailingPair(s.values, t);
    }
  }

  /** `t` is the first step whose two prices do not share a strict sign, so the first
      whose log return raises. */
  predicate FirstFailingPair(v: seq<real>, t: int) {
    && 1 <= t < |v|
    && !SameSign(v[t - 1], v[t])
    && forall u :: 1 <= u < t ==> SameSign(v[u - 1], v[u])
  }

  /** The comprehension stops at the first failing step: on prices 1, -1, 0, 5 the sign
      change at step 1 raises math.log's domain error before the zero price at step 2
      can raise ZeroDivisionError, and the statistics built on the list fail the same way. */
  lemma FirstFailingLogReturnWins(ln: real -> real, sqrt: real -> real)
    ensures AllLogReturns(Make([1.0, -1.0, 0.0, 5.0]), ln) == Err(MathDomain)
    ensures AnnualizedVolatility(Make([1.0, -1.0, 0.0, 5.0]), ln, sqrt) == Err(MathDomain)
    ensures SharpeRatio(Make([1.0, -1.0, 0.0, 5.0]), ln, sqrt) == Err(MathDomain)
  {
    var v := [1.0, -1.0, 0.0, 5.0];
    assert !SameSign(v[0], v[1]);
    assert forall t :: FirstFailingPair(v, t) ==> t == 1;
  }

  /** The unbiased sample variance `sum((x - mean)**2) / (n - 1)`. */
  function SampleVariance(xs: seq<real>): (r: real)
    requires |xs| >= 2
    ensures r >= 0.0
  {
    SumSquaredDeviationsNonNegative(xs, Mean(xs));
    SumSquaredDeviations(xs, Mean(xs)) / ((|xs| - 1) as real)
  }

  /** `annualized_volatility()`: the sample standard deviation of the log returns scaled
      by the square root of the trading days per year. Fewer than three prices raise
      "Not enough data points"; a failing log return propagates. */
  function AnnualizedVolatility(s: Series, ln: real -> real, sqrt: real -> real): (r: Result<real>)
    ensures |s.values| < 3 ==> r == Err(NotEnoughData)
    ensures |s.values| >= 3 ==> (r.Ok? <==> AllLogReturns(s, ln).Ok?)
    ensures |s.values| >= 3 && r.Err? ==> r.error == AllLogReturns(s, ln).error
    ensures r.Ok? ==> r.value == sqrt(SampleVariance(AllLogReturns(s, ln).value)) * sqrt(TradingDaysPerYear as real)
  {
    if |s.values| < 3 then Err(NotEnoughData)
    else
      match AllLogReturns(s, ln)
      case Err(e) => Err(e)
      case Ok(lr) => Ok(sqrt(SampleVariance(lr)) * sqrt(TradingDaysPerYear as real))
  }

  /** `annualized_return()`: the mean log return times the trading days per year. Fewer
      than two prices raise "Not enough data points". */
  function AnnualizedReturn(s: Series, ln: real -> real): (r: Result<real>)
    ensures |s.values| < 2 ==> r == Err(NotEnoughData)
    ensures |s.values| >= 2 ==> (r.Ok? <==> AllLogReturns(s, ln).Ok?)
    ensures |s.values| >= 2 && r.Err? ==> r.error == AllLogReturns(s, ln).error
    ensures r.Ok? ==> r.value * ((|s.values| - 1) as real) == Sum(AllLogReturns(s, ln).value) * (TradingDaysPerYear as real)
  {
    if Length(s) < 2 then Err(NotEnoughData)
    else
      match AllLogReturns(s, ln)
      case Err(e) => Err(e)
      case Ok(lr) =>
        var n := |lr| as real;
        assert (Sum(lr) / n) * n == Sum(lr);
        Ok(Mean(lr) * (TradingDaysPerYear as real))
  }

  /** `sharpe_ratio(risk_free_rate)`. The volatility is computed first, so its
      "Not enough data points" for fewer than three prices wins even where the
      annualised return would exist; a zero volatility gives 0.0. */
  function SharpeRatio(s: Series, ln: real -> real, sqrt: real -> real, riskFreeRate: real := 0.0): (r: Result<real>)
    ensures |s.values| < 3 ==> r == Err(NotEnoughData)
    ensures r.Ok? <==> AnnualizedVolatility(s, ln, sqrt).Ok?
    ensures r.Err? ==> r.error == AnnualizedVolatility(s, ln, sqrt).error
    ensures r.Ok? && AnnualizedVolatility(s, ln, sqrt).value == 0.0 ==> r.value == 0.0
    ensures r.Ok? && AnnualizedVolatility(s, ln, sqrt).value != 0.0 ==>
      AnnualizedReturn(s, ln).Ok? &&
      r.value * AnnualizedVolatility(s, ln, sqrt).value == AnnualizedReturn(s, ln).value - riskFreeRate
  {
    match AnnualizedVolatility(s, ln, sqrt)
    case Err(e) => Err(e)
    case Ok(vol) =>
      if vol == 0.0 then Ok(0.0)
      else
        match AnnualizedReturn(s, ln)
        case Err(e) => Err(e)
        case Ok(ret) => Divide(ret - riskFreeRate, vol)
  }

  /** `ln` turns the product of the positive numbers `a` and `b` into a sum. */
  ghost predicate LogOfProduct(ln: real -> real, a: real, b: real) {
    a > 0.0 && b > 0.0 ==> ln(a * b) == ln(a) + ln(b)
  }

  /** `ln` is a logarithm: it turns products of positive numbers into sums. */
  ghost predicate IsLogarithm(ln: real -> real) {
    forall a: real, b: real :: LogOfProduct(ln, a, b)
  }

  /** `sqrt` vanishes on the non-negative reals exactly at zero. */
  ghost predicate VanishesOnlyAtZero(sqrt: real -> real) {
    forall x: real :: x >= 0.0 ==> (sqrt(x) == 0.0 <==> x == 0.0)
  }

  lemma RatioChain(x: real, y: real, z: real)
    requires x != 0.0 && y != 0.0
    ensures (y / x) * (z / y) == z / x
  {
    var p := (y / x) * (z / y);
    assert x * p == (x * (y / x)) * (z / y);
    assert x * (y / x) == y;
    assert y * (z / y) == z;
    QuotientOf(x, p, z);
  }

  /** Under a logarithm, the log of `z/x` is the log of `y/x` plus the log of `z/y`. */
  lemma LogOfRatioChain(ln: real -> real, x: real, y: real, z: real)
    requires IsLogarithm(ln)
    requires x != 0.0 && y != 0.0 && y / x > 0.0 && z / y > 0.0
    ensures z / x > 0.0
    ensures ln(z / x) == ln(y / x) + ln(z / y)
  {
    RatioChain(x, y, z);
    assert (y / x) * (z / y) > 0.0;
    assert LogOfProduct(ln, y / x, z / y);
    LogOfEqualProduct(ln, y / x, z / y, z / x);
  }

  lemma LogOfEqualProduct(ln: real -> real, a: real, b: real, c: real)
    requires LogOfProduct(ln, a, b) && a > 0.0 && b > 0.0 && a * b == c
    ensures ln(c) == ln(a) + ln(b)
  {
    assert ln(a * b) == ln(c);
  }

  /** The first `k` log returns add up to the log of the ratio of price `k` to price 0. */
  lemma {:induction false} LogReturnsTelescopePrefix(s: Series, ln: real -> real, lr: seq<real>, k: nat)
    requires IsLogarithm(ln)
    requires AllLogReturns(s, ln) == Ok(lr)
    requires 1 <= k <= |lr|
    ensures s.values[0] != 0.0 && s.values[k] / s.values[0] > 0.0
    ensures Sum(lr[..k]) == ln(s.values[k] / s.values[0])
  {
    var v := s.values;
    assert SameSign(v[0], v[1]);
    assert LogReturn(s, ln, k) == Ok(lr[k - 1]);
    assert SameSign(v[k - 1], v[k]);
    RatioPositiveIff(v[k], v[k - 1]);
    if k == 1 {
      assert lr[..1][..0] == [];
    } else {
      LogReturnsTelescopePrefix(s, ln, lr, k - 1);
      assert lr[..k][..k - 1] == lr[..k - 1];
      LogOfRatioChain(ln, v[0], v[k - 1], v[k]);
      assert Sum(lr[..k]) == Sum(lr[..k - 1]) + lr[k - 1];
    }
  }

  /** The log returns add up to the log of the gross total return: with a genuine
      logarithm, `sum(get_all_log_returns()) == ln(1 + total_return)`. */
  lemma LogReturnsSumToLogGrowth(s: Series, ln: real -> real)
    requires IsLogarithm(ln)
    requires |s.values| >= 2 && AllLogReturns(s, ln).Ok?
    ensures TotalReturn(s).Ok?
    ensures 1.0 + TotalReturn(s).value > 0.0
    ensures Sum(AllLogReturns(s, ln).value) == ln(1.0 + TotalReturn(s).value)
  {
    var v := s.values;
    var lr := AllLogReturns(s, ln).value;
    LogReturnsTelescopePrefix(s, ln, lr, |lr|);
    assert lr[..|lr|] == lr;
    var tr := TotalReturn(s).value;
    QuotientOf(v[0], 1.0 + tr, v[|v| - 1]);
  }

  /** The annualised return depends only on the first and the last price:
      `annualized_return() * (n - 1) == ln(v[n-1] / v[0]) * 252`. */
  lemma AnnualizedReturnFromEndpoints(s: Series, ln: real -> real)
    requires IsLogarithm(ln)
    requires |s.values| >= 2 && AllLogReturns(s, ln).Ok?
    ensures AnnualizedReturn(s, ln).Ok? && s.values[0] != 0.0
    ensures AnnualizedReturn(s, ln).value * ((|s.values| - 1) as real)
         == ln(s.values[|s.values| - 1] / s.values[0]) * (TradingDaysPerYear as real)
  {
    var lr := AllLogReturns(s, ln).value;
    LogReturnsTelescopePrefix(s, ln, lr, |lr|);
    assert lr[..|lr|] == lr;
  }

  /** With a square root that vanishes only at zero, the annualised volatility is zero
      exactly when the sample variance of the log returns is. */
  lemma VolatilityZeroIffVarianceZero(s: Series, ln: real -> real, sqrt: real -> real)
    requires VanishesOnlyAtZero(sqrt)
    requires AnnualizedVolatility(s, ln, sqrt).Ok?
    ensures AnnualizedVolatility(s, ln, sqrt).value == 0.0
        <==> SampleVariance(AllLogReturns(s, ln).value) == 0.0
  {
    var variance := SampleVariance(AllLogReturns(s, ln).value);
    var days := TradingDaysPerYear as real;
    assert sqrt(days) != 0.0;
    if sqrt(variance) != 0.0 {
      assert sqrt(variance) * sqrt(days) != 0.0;
    }
  }

  /** Log returns that are all equal give zero volatility and therefore a Sharpe ratio
      of exactly 0.0. */
  lemma SharpeRatioOfConstantLogReturns(s: Series, ln: real -> real, sqrt: real -> real, riskFreeRate: real)
    requires VanishesOnlyAtZero(sqrt)
    requires AnnualizedVolatility(s, ln, sqrt).Ok?
    requires AllEqual(AllLogReturns(s, ln).value)
    ensures AnnualizedVolatility(s, ln, sqrt) == Ok(0.0)
    ensures SharpeRatio(s, ln, sqrt, riskFreeRate) == Ok(0.0)
  {
    var lr := AllLogReturns(s, ln).value;
    ConstantHasZeroVariance(lr);
    VolatilityZeroIffVarianceZero(s, ln, sqrt);
  }

  /** A constant non-zero series of at least three prices has a Sharpe ratio of 0.0,
      whatever the logarithm and the risk-free rate. */
  lemma SharpeRatioOfConstantSeries(s: Series, ln: real -> real, sqrt: real -> real, riskFreeRate: real)
    requires VanishesOnlyAtZero(sqrt)
    requires |s.values| >= 3 && s.values[0] != 0.0
    requires forall i :: 0 <= i < |s.values| ==> s.values[i] == s.values[0]
    ensures SharpeRatio(s, ln, sqrt, riskFreeRate) == Ok(0.0)
  {
    var v := s.values;
    assert forall i :: 0 <= i < |v| - 1 ==> SameSign(v[i], v[i + 1]);
    var lr := AllLogReturns(s, ln).value;
    forall i | 0 <= i < |lr|
      ensures lr[i] == lr[0]
    {
      assert LogReturn(s, ln, i + 1) == Ok(lr[i]);
      assert LogReturn(s, ln, 1) == Ok(lr[0]);
    }
    SharpeRatioOfConstantLogReturns(s, ln, sqrt, riskFreeRate);
  }

  // ---------------------------------------------------------------------------
  // Drawdown
  // ---------------------------------------------------------------------------

  /** Python's two-argument `max`: keeps the first argument unless the second is larger. */
  function Max(a: real, b: real): real {
    if b > a then b else a
  }

  /** Python's two-argument `min`: keeps the first argument unless the second is smaller. */
  function Min(a: real, b: real): real {
    if b < a then b else a
  }

  /** `max(values[:t+1])`, the running peak up to and including time `t`. */
  function PrefixMax(v: seq<real>, t: nat): (peak: real)
    requires t < |v|
    ensures forall i :: 0 <= i <= t ==> v[i] <= peak
    ensures exists i :: 0 <= i <= t && v[i] == peak
  {
    if t == 0 then v[0] else Max(PrefixMax(v, t - 1), v[t])
  }

  /** The drawdown at a valid index `t`: the relative drop of price `t` below the running
      peak, and 0.0 when that peak is exactly zero. */
  function Drawdown(v: seq<real>, t: nat): (d: real)
    requires t < |v|
    ensures PrefixMax(v, t) == 0.0 ==> d == 0.0
    ensures PrefixMax(v, t) != 0.0 ==> v[t] == PrefixMax(v, t) * (1.0 + d)
    ensures v[t] == PrefixMax(v, t) ==> d == 0.0
    ensures PrefixMax(v, t) > 0.0 ==> d <= 0.0
    ensures PrefixMax(v, t) > 0.0 && v[t] < PrefixMax(v, t) ==> d < 0.0
    ensures PrefixMax(v, t) > 0.0 && v[t] >= 0.0 ==> d >= -1.0
    ensures PrefixMax(v, t) < 0.0 ==> d >= 0.0
  {
    var peak := PrefixMax(v, t);
    if peak == 0.0 then 0.0
    else
      var d := (v[t] - peak) / peak;
      assert d * peak == v[t] - peak;
      assert peak * (1.0 + d) == v[t];
      if peak > 0.0 && v[t] >= 0.0 then
        RelativeDropAtLeastMinusOne(d, peak, v[t]);
        d
      else d
  }

  lemma RelativeDropAtLeastMinusOne(d: real, peak: real, x: real)
    requires peak > 0.0 && x >= 0.0 && d * peak == x - peak
    ensures d >= -1.0
  {
    if d < -1.0 {
      var e := -1.0 - d;
      assert e > 0.0;
      assert e * peak > 0.0;
      assert e * peak == -peak - d * peak;
    }
  }

  /** `drawdown_at(t)`: IndexError outside `0 <= t < len`, the drawdown otherwise. */
  function DrawdownAt(s: Series, t: int): (r: Result<real>)
    ensures r.Err? <==> t < 0 || t >= |s.values|
    ensures r.Err? ==> r.error == IndexOutOfRange
    ensures r.Ok? ==> r.value == Drawdown(s.values, t)
  {
    if t < 0 || t >= |s.values| then Err(IndexOutOfRange)
    else Ok(Drawdown(s.values, t))
  }
}
