/** Rediscounting a horizon-indexed value curve (rl/rollout.py,
    `get_rediscounted_value_estimate`) and the horizon list the dynamic
    rediscounting asks the model for (`get_tvf_rediscounted_value_estimates_dynamic`).

    A value curve gives, for each horizon of an increasing list, the value
    of the state when rewards are counted up to that horizon under the old
    discount. Successive differences, divided by old^h and multiplied by
    new^h, re-weight the rewards under the new discount. One row of the
    `[B, H]` batch is modelled: rows never interact. */
module Rediscount {
  import opened Common

  datatype RediscountError =
    | IndexError   // `values[:, i]` past the last column, or `values[:, -1]` of an empty row
    | NonFinite    // old^h == 0 for some horizon: torch divides by zero and yields inf or nan

  /** `prev` before column k: 0, then the previous column. */
  function Prev(values: seq<real>, k: nat): real
    requires k <= |values|
  {
    if k == 0 then 0.0 else values[k - 1]
  }

  /** None of the first k horizons makes old^h vanish (so every division is finite). */
  predicate NoZeroPower(oldGamma: real, horizons: seq<nat>, k: nat)
    requires k <= |horizons|
  {
    forall i :: 0 <= i < k ==> Pow(oldGamma, horizons[i]) != 0.0
  }

  /** The reward recovered from column j, re-weighted from old^h to new^h. */
  function Recovered(values: seq<real>, horizons: seq<nat>, oldGamma: real, newGamma: real, j: nat): real
    requires j < |horizons| && j < |values| && Pow(oldGamma, horizons[j]) != 0.0
  {
    var h := horizons[j];
    (values[j] - Prev(values, j)) / Pow(oldGamma, h) * Pow(newGamma, h)
  }

  /** The discounted reward sum after the first k columns. */
  function RediscountedSum(values: seq<real>, horizons: seq<nat>, oldGamma: real, newGamma: real, k: nat): real
    requires k <= |horizons| && k <= |values| && NoZeroPower(oldGamma, horizons, k)
  {
    if k == 0 then 0.0
    else
      var h := horizons[k - 1];
      RediscountedSum(values, horizons, oldGamma, newGamma, k - 1)
        + Recovered(values, horizons, oldGamma, newGamma, k - 1)
  }

  /** What the function returns for one row. */
  function Rediscounted(values: seq<real>, oldGamma: real, newGamma: real, horizons: seq<nat>): Result<real, RediscountError>
  {
    if oldGamma == newGamma then
      (if |values| == 0 then Err(IndexError) else Ok(values[|values| - 1]))
    else if |horizons| > |values| then Err(IndexError)
    else if !NoZeroPower(oldGamma, horizons, |horizons|) then Err(NonFinite)
    else Ok(RediscountedSum(values, horizons, oldGamma, newGamma, |horizons|))
  }

  /** One pass of the loop: the reward recovered from column i, re-weighted. */
  method RediscountStep(values: seq<real>, horizons: seq<nat>, oldGamma: real, newGamma: real, i: nat, sum: real)
    returns (newSum: real)
    requires i < |horizons| && i < |values| && NoZeroPower(oldGamma, horizons, i + 1)
    requires sum == RediscountedSum(values, horizons, oldGamma, newGamma, i)
    ensures newSum == RediscountedSum(values, horizons, oldGamma, newGamma, i + 1)
  {
    var h := horizons[i];
    var prev := Prev(values, i);
    var reward := (values[i] - prev) / Pow(oldGamma, h);
    newSum := sum + reward * Pow(newGamma, h);
  }

  /** The source's loop. Once a power vanishes the running sum is inf or nan
      and is no longer tracked; an index past the last column still raises. */
  method GetRediscountedValueEstimate(values: seq<real>, oldGamma: real, newGamma: real, horizons: seq<nat>)
    returns (res: Result<real, RediscountError>)
    ensures res == Rediscounted(values, oldGamma, newGamma, horizons)
  {
    if oldGamma == newGamma {
      if |values| == 0 {
        return Err(IndexError);
      }
      return Ok(values[|values| - 1]);
    }
    var sum := 0.0;
    var finite := true;
    var i := 0;
    while i < |horizons|
      invariant 0 <= i <= |horizons| && i <= |values|
      invariant finite == NoZeroPower(oldGamma, horizons, i)
      invariant finite ==> sum == RediscountedSum(values, horizons, oldGamma, newGamma, i)
    {
      if i >= |values| {
        return Err(IndexError);
      }
      if Pow(oldGamma, horizons[i]) == 0.0 {
        finite := false;
      } else if finite {
        sum := RediscountStep(values, horizons, oldGamma, newGamma, i, sum);
      }
      i := i + 1;
    }
    if !finite {
      return Err(NonFinite);
    }
    return Ok(sum);
  }

  // ---------------------------------------------------------------------
  // Properties

  /** With equal discounts the loop itself telescopes to the last column
      (the early return gives the same value without running it). */
  lemma {:induction false} RediscountTelescopes(values: seq<real>, horizons: seq<nat>, gamma: real, k: nat)
    requires 1 <= k <= |horizons| && k <= |values| && NoZeroPower(gamma, horizons, k)
    ensures RediscountedSum(values, horizons, gamma, gamma, k) == values[k - 1]
  {
    var p := Pow(gamma, horizons[k - 1]);
    assert p != 0.0;
    assert (values[k - 1] - Prev(values, k - 1)) / p * p == values[k - 1] - Prev(values, k - 1);
    if k > 1 {
      RediscountTelescopes(values, horizons, gamma, k - 1);
    }
  }

  /** Equal discounts return the last column unchanged. */
  lemma RediscountIdentity(values: seq<real>, gamma: real, horizons: seq<nat>)
    requires |values| >= 1
    ensures Rediscounted(values, gamma, gamma, horizons) == Ok(values[|values| - 1])
  {
  }

  lemma ReweightLinear(a: real, b: real, du: real, dv: real, dw: real, po: real, pn: real)
    requires po != 0.0 && du == a * dv + b * dw
    ensures du / po * pn == a * (dv / po * pn) + b * (dw / po * pn)
  {
  }

  lemma PrevLinear(u: seq<real>, v: seq<real>, w: seq<real>, a: real, b: real, k: nat)
    requires |u| == |v| == |w| && k <= |u|
    requires forall i :: 0 <= i < |u| ==> u[i] == a * v[i] + b * w[i]
    ensures Prev(u, k) == a * Prev(v, k) + b * Prev(w, k)
  {
  }

  /** Sums and differences of two linear combinations combine linearly. */
  lemma LinearCombine(a: real, b: real, su: real, sv: real, sw: real, tu: real, tv: real, tw: real)
    requires su == a * sv + b * sw && tu == a * tv + b * tw
    ensures su + tu == a * (sv + tv) + b * (sw + tw)
    ensures su - tu == a * (sv - tv) + b * (sw - tw)
  {
  }

  /** Each recovered reward is linear in the row. */
  lemma RecoveredLinear(u: seq<real>, v: seq<real>, w: seq<real>, a: real, b: real,
                        horizons: seq<nat>, oldGamma: real, newGamma: real, j: nat)
    requires |u| == |v| == |w| && j < |horizons| && j < |v| && Pow(oldGamma, horizons[j]) != 0.0
    requires forall i :: 0 <= i < |u| ==> u[i] == a * v[i] + b * w[i]
    ensures LinearIn(a, b, Recovered(u, horizons, oldGamma, newGamma, j),
        Recovered(v, horizons, oldGamma, newGamma, j), Recovered(w, horizons, oldGamma, newGamma, j))
  {
    var h := horizons[j];
    var po, pn := Pow(oldGamma, h), Pow(newGamma, h);
    var pu, pv, pw := Prev(u, j), Prev(v, j), Prev(w, j);
    PrevLinear(u, v, w, a, b, j);
    LinearCombine(a, b, u[j], v[j], w[j], pu, pv, pw);
    ReweightLinear(a, b, u[j] - pu, v[j] - pv, w[j] - pw, po, pn);
  }

  lemma LinearStep(a: real, b: real, xu: real, xv: real, xw: real,
                   su: real, sv: real, sw: real, tu: real, tv: real, tw: real)
    requires xu == su + tu && xv == sv + tv && xw == sw + tw
    requires LinearIn(a, b, su, sv, sw) && LinearIn(a, b, tu, tv, tw)
    ensures LinearIn(a, b, xu, xv, xw)
  {
  }

  /** x is a·y + b·z. */
  predicate LinearIn(a: real, b: real, x: real, y: real, z: real)
  {
    x == a * y + b * z
  }

  /** One more column keeps the sum linear. */
  lemma RediscountLinearStep(u: seq<real>, v: seq<real>, w: seq<real>, a: real, b: real,
                             horizons: seq<nat>, oldGamma: real, newGamma: real, k: nat)
    requires |u| == |v| == |w| && 0 < k <= |horizons| && k <= |v| && NoZeroPower(oldGamma, horizons, k)
    requires LinearIn(a, b, Recovered(u, horizons, oldGamma, newGamma, k - 1),
        Recovered(v, horizons, oldGamma, newGamma, k - 1), Recovered(w, horizons, oldGamma, newGamma, k - 1))
    requires LinearIn(a, b, RediscountedSum(u, horizons, oldGamma, newGamma, k - 1),
        RediscountedSum(v, horizons, oldGamma, newGamma, k - 1), RediscountedSum(w, horizons, oldGamma, newGamma, k - 1))
    ensures LinearIn(a, b, RediscountedSum(u, horizons, oldGamma, newGamma, k),
        RediscountedSum(v, horizons, oldGamma, newGamma, k), RediscountedSum(w, horizons, oldGamma, newGamma, k))
  {
    LinearStep(a, b,
      RediscountedSum(u, horizons, oldGamma, newGamma, k),
      RediscountedSum(v, horizons, oldGamma, newGamma, k),
      RediscountedSum(w, horizons, oldGamma, newGamma, k),
      RediscountedSum(u, horizons, oldGamma, newGamma, k - 1),
      RediscountedSum(v, horizons, oldGamma, newGamma, k - 1),
      RediscountedSum(w, horizons, oldGamma, newGamma, k - 1),
      Recovered(u, horizons, oldGamma, newGamma, k - 1),
      Recovered(v, horizons, oldGamma, newGamma, k - 1),
      Recovered(w, horizons, oldGamma, newGamma, k - 1));
  }

  /** Every row is rediscounted linearly: the row a·v + b·w maps to a·f(v) + b·f(w). */
  lemma {:induction false} RediscountLinear(u: seq<real>, v: seq<real>, w: seq<real>, a: real, b: real,
                                            horizons: seq<nat>, oldGamma: real, newGamma: real, k: nat)
    requires |u| == |v| == |w| && k <= |horizons| && k <= |v| && NoZeroPower(oldGamma, horizons, k)
    requires forall i :: 0 <= i < |u| ==> u[i] == a * v[i] + b * w[i]
    ensures LinearIn(a, b, RediscountedSum(u, horizons, oldGamma, newGamma, k),
        RediscountedSum(v, horizons, oldGamma, newGamma, k), RediscountedSum(w, horizons, oldGamma, newGamma, k))
  {
    if k > 0 {
      RediscountLinear(u, v, w, a, b, horizons, oldGamma, newGamma, k - 1);
      RecoveredLinear(u, v, w, a, b, horizons, oldGamma, newGamma, k - 1);
      RediscountLinearStep(u, v, w, a, b, horizons, oldGamma, newGamma, k);
    }
  }

  lemma {:induction false} PowPositive(x: real, k: nat)
    requires x > 0.0
    ensures Pow(x, k) > 0.0
  {
    if k > 0 {
      PowPositive(x, k - 1);
    }
  }

  lemma {:induction false} PowMonotone(x: real, y: real, k: nat)
    requires 0.0 < x <= y
    ensures Pow(x, k) <= Pow(y, k)
  {
    if k > 0 {
      PowMonotone(x, y, k - 1);
      PowPositive(x, k - 1);
      PowPositive(y, k - 1);
      assert x * Pow(x, k - 1) <= y * Pow(x, k - 1) <= y * Pow(y, k - 1);
    }
  }

  /** A positive old discount never makes a power vanish. */
  lemma PositiveNoZeroPower(oldGamma: real, horizons: seq<nat>, k: nat)
    requires k <= |horizons| && oldGamma > 0.0
    ensures NoZeroPower(oldGamma, horizons, k)
  {
    forall i | 0 <= i < k
      ensures Pow(oldGamma, horizons[i]) != 0.0
    {
      PowPositive(oldGamma, horizons[i]);
    }
  }

  /** One recovered non-negative reward, re-weighted by a factor in [0, 1]. */
  lemma ReweightBounded(delta: real, po: real, pn: real)
    requires delta >= 0.0 && 0.0 < pn <= po
    ensures 0.0 <= delta / po * pn <= delta
  {
    var x := delta / po;
    assert x * po == delta;
    assert x >= 0.0;
    assert x * pn <= x * po;
  }

  /** Moving to a smaller positive discount never raises the estimate of a
      nondecreasing curve (all recovered rewards non-negative): the result
      stays between 0 and the curve's value at the last horizon used. */
  lemma {:induction false} RediscountToSmallerGamma(values: seq<real>, horizons: seq<nat>,
                                                    oldGamma: real, newGamma: real, k: nat)
    requires k <= |horizons| && k <= |values| && 0.0 < newGamma <= oldGamma
    requires forall i :: 0 <= i < k ==> Prev(values, i) <= values[i]
    ensures NoZeroPower(oldGamma, horizons, k)
    ensures 0.0 <= RediscountedSum(values, horizons, oldGamma, newGamma, k) <= Prev(values, k)
  {
    PositiveNoZeroPower(oldGamma, horizons, k);
    if k > 0 {
      RediscountToSmallerGamma(values, horizons, oldGamma, newGamma, k - 1);
      var h := horizons[k - 1];
      PowMonotone(newGamma, oldGamma, h);
      PowPositive(newGamma, h);
      ReweightBounded(values[k - 1] - Prev(values, k - 1), Pow(oldGamma, h), Pow(newGamma, h));
    }
  }

  // ---------------------------------------------------------------------
  // The dynamic horizon list

  /** Python's `range(start, stop, -step)` for a positive step. */
  function RangeDown(start: int, stop: int, step: int): (s: seq<int>)
    requires step > 0
    decreases start - stop
  {
    if start <= stop then [] else [start] + RangeDown(start - step, stop, step)
  }

  function Reverse(s: seq<int>): (r: seq<int>)
    ensures |r| == |s| && forall i :: 0 <= i < |s| ==> r[i] == s[|s| - 1 - i]
  {
    if s == [] then [] else Reverse(s[1..]) + [s[0]]
  }

  /** The number of samples the list is kept under. */
  const MaxHorizonSamples: int := 400

  /** `range(effective_horizon, 0, -step_skip)[::-1]` with step_skip =
      ceil(effective_horizon / 400); a zero effective horizon makes the step
      0, which `range` rejects. */
  function DynamicHorizons(effectiveHorizon: nat): Result<seq<int>, string>
  {
    var stepSkip := CeilDiv(effectiveHorizon, MaxHorizonSamples);
    if stepSkip == 0 then Err("ValueError: range() arg 3 must not be zero")
    else Ok(Reverse(RangeDown(effectiveHorizon, 0, stepSkip)))
  }

  /** The i-th element of the range is start - i·step, still above stop. */
  lemma {:induction false} RangeDownAt(start: int, stop: int, step: int, i: nat)
    requires step > 0 && i < |RangeDown(start, stop, step)|
    ensures RangeDown(start, stop, step)[i] == start - i * step > stop
    decreases start - stop
  {
    if i > 0 {
      RangeDownAt(start - step, stop, step, i - 1);
    }
  }

  /** The range stops once the next element would reach stop. */
  lemma {:induction false} RangeDownEnds(start: int, stop: int, step: int)
    requires step > 0
    ensures start - |RangeDown(start, stop, step)| * step <= stop
    decreases start - stop
  {
    if start > stop {
      RangeDownEnds(start - step, stop, step);
    }
  }

  lemma MulLessCancel(a: int, b: int, s: int)
    requires s > 0 && a * s < b * s
    ensures a < b
  {
  }

  lemma MulNonNegative(a: int, b: int)
    requires a >= 0 && b >= 0
    ensures a * b >= 0
  {
  }

  /** The i-th entry of the reversed range, counted from its small end. */
  lemma ReversedRangeAt(e: int, step: int, i: nat)
    requires step > 0 && i < |RangeDown(e, 0, step)|
    ensures var l := |RangeDown(e, 0, step)|;
      Reverse(RangeDown(e, 0, step))[i] == e - (l - 1 - i) * step > 0
  {
    RangeDownAt(e, 0, step, |RangeDown(e, 0, step)| - 1 - i);
  }

  /** The reversed range for a step with 400 steps covering e. */
  lemma ReversedRangeShape(e: int, step: int)
    requires e >= 1 && step >= 1 && e <= step * MaxHorizonSamples
    ensures var hs := Reverse(RangeDown(e, 0, step));
      && 1 <= |hs| <= MaxHorizonSamples
      && hs[|hs| - 1] == e
      && 1 <= hs[0] <= step
      && (forall i :: 0 <= i < |hs| ==> 1 <= hs[i] <= e)
      && (forall i :: 0 < i < |hs| ==> hs[i] == hs[i - 1] + step)
  {
    var hs := Reverse(RangeDown(e, 0, step));
    var l := |hs|;
    RangeDownEnds(e, 0, step);
    assert l >= 1;
    forall i | 0 <= i < l
      ensures 1 <= hs[i] <= e
    {
      ReversedRangeAt(e, step, i);
      MulNonNegative(l - 1 - i, step);
    }
    ReversedRangeAt(e, step, 0);
    ReversedRangeAt(e, step, l - 1);
    MulLessCancel(l - 1, MaxHorizonSamples, step);
    forall i | 0 < i < l
      ensures hs[i] == hs[i - 1] + step
    {
      ReversedRangeAt(e, step, i);
      ReversedRangeAt(e, step, i - 1);
    }
  }

  /** The list is never empty, ascends in steps of exactly step_skip, ends at
      the effective horizon, starts within the first step, holds only
      positive horizons not above the effective horizon, and has at most
      400 entries. */
  lemma DynamicHorizonsShape(effectiveHorizon: nat)
    requires effectiveHorizon >= 1
    ensures DynamicHorizons(effectiveHorizon).Ok?
    ensures var hs := DynamicHorizons(effectiveHorizon).value;
      var stepSkip := CeilDiv(effectiveHorizon, MaxHorizonSamples);
      && 1 <= |hs| <= MaxHorizonSamples
      && hs[|hs| - 1] == effectiveHorizon
      && 1 <= hs[0] <= stepSkip
      && (forall i :: 0 <= i < |hs| ==> 1 <= hs[i] <= effectiveHorizon)
      && (forall i :: 0 < i < |hs| ==> hs[i] == hs[i - 1] + stepSkip)
  {
    var s := CeilDiv(effectiveHorizon, MaxHorizonSamples);
    assert s >= 1;
    ReversedRangeShape(effectiveHorizon, s);
  }

  lemma DynamicHorizonsZero()
    ensures DynamicHorizons(0).Err?
  {
  }
}
