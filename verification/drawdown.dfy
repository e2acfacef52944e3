/** The module-level function `max_drawdown` of priceseries.py: a single running-peak
    pass over the prices, written both as a recursive scan and as a loop, and proved to
    equal the smallest `drawdown_at(t)` over all indices. */
module Drawdowns {
  import opened Results
  import opened PriceSeries

  /** `m` is the smallest drawdown among the indices `0 .. k-1`, and is attained there. */
  ghost predicate IsMinDrawdown(v: seq<real>, k: nat, m: real)
    requires k <= |v|
  {
    && (forall t :: 0 <= t < k ==> m <= Drawdown(v, t))
    && (exists t :: 0 <= t < k && m == Drawdown(v, t))
  }

  /** The loop of `max_drawdown` from position `i` on, with the running `peak` and the
      running minimum `maxDd` it has reached there. Its preconditions are the loop
      invariant: `peak` is the prefix maximum and `maxDd` the minimum drawdown so far. */
  function Scan(v: seq<real>, i: nat, peak: real, maxDd: real): (r: real)
    requires 1 <= i <= |v|
    requires peak == PrefixMax(v, i - 1)
    requires IsMinDrawdown(v, i, maxDd)
    ensures IsMinDrawdown(v, |v|, r)
    decreases |v| - i
  {
    if i == |v| then maxDd
    else
      var value := v[i];
      var peak' := Max(peak, value);
      assert peak' == PrefixMax(v, i);
      assert Drawdown(v, 0) == 0.0;
      if peak' > 0.0 then
        var dd := (value - peak') / peak';
        assert dd == Drawdown(v, i);
        Scan(v, i + 1, peak', Min(maxDd, dd))
      else
        assert maxDd <= Drawdown(v, i);
        Scan(v, i + 1, peak', maxDd)
  }

  /** `max_drawdown(series)`: IndexError on an empty series (it reads `values[0]`);
      otherwise the most negative drawdown, which is the minimum of `drawdown_at(t)`
      over every index and never positive. */
  function MaxDrawdown(s: Series): (r: Result<real>)
    ensures r.Err? <==> |s.values| == 0
    ensures r.Err? ==> r.error == IndexOutOfRange
    ensures r.Ok? ==> r.value <= 0.0
    ensures r.Ok? ==> forall t :: 0 <= t < |s.values| ==> r.value <= DrawdownAt(s, t).value
    ensures r.Ok? ==> exists t :: 0 <= t < |s.values| && DrawdownAt(s, t) == Ok(r.value)
  {
    if |s.values| == 0 then Err(IndexOutOfRange)
    else
      var v := s.values;
      assert Drawdown(v, 0) == 0.0;
      var m := Scan(v, 1, v[0], 0.0);
      assert m <= Drawdown(v, 0);
      var t :| 0 <= t < |v| && m == Drawdown(v, t);
      assert DrawdownAt(s, t) == Ok(m);
      Ok(m)
  }

  /** `max_drawdown(series)` as the loop it is written as. */
  method ComputeMaxDrawdown(s: Series) returns (r: Result<real>)
    ensures r == MaxDrawdown(s)
    ensures r.Err? <==> |s.values| == 0
    ensures r.Err? ==> r.error == IndexOutOfRange
    ensures r.Ok? ==> r.value <= 0.0
    ensures r.Ok? ==> forall t :: 0 <= t < |s.values| ==> r.value <= DrawdownAt(s, t).value
    ensures r.Ok? ==> exists t :: 0 <= t < |s.values| && DrawdownAt(s, t) == Ok(r.value)
  {
    var v := s.values;
    if |v| == 0 {
      return Err(IndexOutOfRange);
    }
    var maxDd := 0.0;
    var peak := v[0];
    ghost var worst := 0;
    var i := 1;
    while i < |v|
      invariant 1 <= i <= |v|
      invariant peak == PrefixMax(v, i - 1)
      invariant 0 <= worst < i && maxDd == Drawdown(v, worst)
      invariant forall t :: 0 <= t < i ==> maxDd <= Drawdown(v, t)
    {
      var value := v[i];
      peak := Max(peak, value);
      assert peak == PrefixMax(v, i);
      if peak > 0.0 {
        var dd := (value - peak) / peak;
        assert dd == Drawdown(v, i);
        if dd < maxDd {
          worst := i;
        }
        maxDd := Min(maxDd, dd);
      } else {
        assert Drawdown(v, 0) == 0.0;
        assert maxDd <= Drawdown(v, i);
      }
      i := i + 1;
    }
    assert IsMinDrawdown(v, |v|, maxDd);
    MinDrawdownUnique(v, |v|, maxDd, MaxDrawdown(s).value);
    return Ok(maxDd);
  }

  /** The minimum drawdown is unique. */
  lemma MinDrawdownUnique(v: seq<real>, k: nat, a: real, b: real)
    requires k <= |v|
    requires IsMinDrawdown(v, k, a) && IsMinDrawdown(v, k, b)
    ensures a == b
  {
  }

  predicate NonDecreasing(v: seq<real>) {
    forall i :: 0 < i < |v| ==> v[i - 1] <= v[i]
  }

  /** In a non-decreasing series every price is its own running peak. */
  lemma {:induction false} PeakOfNonDecreasing(v: seq<real>, t: nat)
    requires NonDecreasing(v) && t < |v|
    ensures PrefixMax(v, t) == v[t]
  {
    if t > 0 {
      PeakOfNonDecreasing(v, t - 1);
    }
  }

  /** A series that never falls has a maximum drawdown of exactly 0.0. */
  lemma MaxDrawdownOfNonDecreasing(s: Series)
    requires |s.values| > 0 && NonDecreasing(s.values)
    ensures MaxDrawdown(s) == Ok(0.0)
  {
    var v := s.values;
    var m := MaxDrawdown(s).value;
    var t :| 0 <= t < |v| && DrawdownAt(s, t) == Ok(m);
    PeakOfNonDecreasing(v, t);
  }

  /** For strictly positive prices the converse holds too: the maximum drawdown is 0.0
      exactly when the series never falls. */
  lemma MaxDrawdownZeroIffNonDecreasing(s: Series)
    requires |s.values| > 0
    requires forall i :: 0 <= i < |s.values| ==> s.values[i] > 0.0
    ensures MaxDrawdown(s) == Ok(0.0) <==> NonDecreasing(s.values)
  {
    var v := s.values;
    if NonDecreasing(v) {
      MaxDrawdownOfNonDecreasing(s);
    } else {
      var i :| 0 < i < |v| && v[i - 1] > v[i];
      var peak := PrefixMax(v, i);
      assert v[i - 1] <= peak;
      assert Drawdown(v, i) < 0.0;
      assert MaxDrawdown(s).value <= DrawdownAt(s, i).value;
    }
  }

  /** With non-negative prices no drawdown is below -1 (a total loss), so neither is
      the maximum drawdown. */
  lemma MaxDrawdownAtLeastMinusOne(s: Series)
    requires |s.values| > 0
    requires forall i :: 0 <= i < |s.values| ==> s.values[i] >= 0.0
    ensures MaxDrawdown(s).Ok? && MaxDrawdown(s).value >= -1.0
  {
    var v := s.values;
    var m := MaxDrawdown(s).value;
    var t :| 0 <= t < |v| && DrawdownAt(s, t) == Ok(m);
    assert v[0] <= PrefixMax(v, t);
  }

  /** Prices 100, 90, 95, 80, 120: the worst point is 80 against the peak 100, so the
      maximum drawdown is -0.20, attained at index 3. */
  lemma WorstDropScenario()
    ensures MaxDrawdown(Make([100.0, 90.0, 95.0, 80.0, 120.0])) == Ok(-0.2)
  {
    var s := Make([100.0, 90.0, 95.0, 80.0, 120.0]);
    var v := s.values;
    assert PrefixMax(v, 0) == 100.0;
    assert PrefixMax(v, 1) == 100.0;
    assert PrefixMax(v, 2) == 100.0;
    assert PrefixMax(v, 3) == 100.0;
    assert PrefixMax(v, 4) == 120.0;
    var m := MaxDrawdown(s).value;
    assert m <= DrawdownAt(s, 3).value == -0.2;
    var t :| 0 <= t < |v| && DrawdownAt(s, t) == Ok(m);
    assert Drawdown(v, 1) == -0.1;
    assert Drawdown(v, 2) == -0.05;
  }
}
