/** Horizon-indexed ("truncated value function") return tables of
    rl/rollout.py: `calculate_tvf_n_step`, `calculate_tvf_mc`,
    `calculate_tvf_td` and `calculate_tvf_lambda`.

    One agent is modelled. `values[t]` is the value curve at step t (one
    entry per horizon 0..H-1), `final` the curve after the last step. The
    result is an N × H table whose cell [t, h] is the target for horizon h at
    step t: the discounted rewards of the first steps plus the discounted
    value estimate, at the residual horizon, of the state reached. */
module Tvf {
  import opened Common
  import opened Returns

  /** The inputs have the shapes the source assumes: N rewards and flags, N
      value curves, each as long as the final one. */
  predicate Shaped(r: seq<real>, d: seq<real>, values: seq<seq<real>>, final: seq<real>)
  {
    && |d| == |r| && |values| == |r|
    && forall i :: 0 <= i < |values| ==> |values[i]| == |final|
  }

  /** Row i of the value curves with the final curve appended
      (`np.concatenate([values, final_value_estimates[None]])`). */
  function ExtRow(values: seq<seq<real>>, final: seq<real>, i: nat): seq<real>
    requires i <= |values|
  {
    if i < |values| then values[i] else final
  }

  function Min(a: int, b: int): int { if a <= b then a else b }

  /** How many rewards the n-step loop collects from step t: it stops after
      `nStep` rewards, at the end of the window, and before horizon H. */
  function StepsMade(nStep: int, n: nat, h: nat, t: nat): (s: nat)
    requires t < n
    ensures s <= n - t
    ensures h >= 1 && nStep >= 1 ==> s == Min(nStep, Min(n - t, h - 1))
    ensures h == 0 || nStep <= 0 ==> s == 0
  {
    if nStep <= 0 || h == 0 then 0 else Min(nStep, Min(n - t, h - 1))
  }

  /** Cell [t, h] once s rewards were collected: horizons up to s are the
      plain discounted reward sums, longer ones add the discounted bootstrap
      `boot[h - s]` taken at the residual horizon; horizon 0 stays 0. */
  function BootstrapCell(r: seq<real>, d: seq<real>, gamma: real, s: nat, t: nat, h: nat, boot: seq<real>): real
    requires |d| == |r| && t + s <= |r|
    requires h < |boot|
  {
    var g := Const(|r|, gamma);
    if h == 0 then 0.0
    else if h <= s then RewardSum(r, d, g, t, h)
    else RewardSum(r, d, g, t, s) + Discount(d, g, t, s) * boot[h - s]
  }

  function NStepCell(r: seq<real>, d: seq<real>, values: seq<seq<real>>, final: seq<real>,
                     gamma: real, nStep: int, t: nat, h: nat): real
    requires Shaped(r, d, values, final) && t < |r| && h < |final|
  {
    var s := StepsMade(nStep, |r|, |final|, t);
    BootstrapCell(r, d, gamma, s, t, h, ExtRow(values, final, t + s))
  }

  /** The Monte-Carlo table: the n-step table with n = N, bootstrapping only
      from the final curve. */
  function McCell(r: seq<real>, d: seq<real>, final: seq<real>, gamma: real, t: nat, h: nat): real
    requires |d| == |r| && t < |r| && h < |final|
  {
    var s := StepsMade(|r|, |r|, |final|, t);
    BootstrapCell(r, d, gamma, s, t, h, final)
  }

  function TdCell(r: seq<real>, d: seq<real>, values: seq<seq<real>>, final: seq<real>,
                  gamma: real, t: nat, h: nat): real
    requires Shaped(r, d, values, final) && t < |r| && h < |final|
  {
    if h == 0 then 0.0
    else r[t] + (if h - 1 > 0 then gamma * (1.0 - d[t]) * ExtRow(values, final, t + 1)[h - 1] else 0.0)
  }

  // ---------------------------------------------------------------------
  // The row loops shared by calculate_tvf_n_step and calculate_tvf_mc

  /** The reward sums for horizons 1..k, as the loop writes them into a row. */
  function RewardSums(r: seq<real>, d: seq<real>, g: seq<real>, t: nat, k: nat): (s: seq<real>)
    requires |d| == |r| && |g| == |r| && t + k <= |r|
    ensures |s| == k
  {
    if k == 0 then [] else RewardSums(r, d, g, t, k - 1) + [RewardSum(r, d, g, t, k)]
  }

  lemma {:induction false} RewardSumsAt(r: seq<real>, d: seq<real>, g: seq<real>, t: nat, k: nat, h: nat)
    requires |d| == |r| && |g| == |r| && t + k <= |r| && 1 <= h <= k
    ensures RewardSums(r, d, g, t, k)[h - 1] == RewardSum(r, d, g, t, h)
  {
    if h < k {
      RewardSumsAt(r, d, g, t, k - 1, h);
    }
  }

  /** One pass of the reward-collecting loop: adds the discounted reward of
      step t + s and carries the discount past it. */
  method CollectStep(r: seq<real>, d: seq<real>, gamma: real, t: nat, s: nat, rewardSum: real, discount: real)
    returns (newSum: real, newDiscount: real)
    requires |d| == |r| && t + s < |r|
    requires rewardSum == RewardSum(r, d, Const(|r|, gamma), t, s)
    requires discount == Discount(d, Const(|r|, gamma), t, s)
    ensures newSum == RewardSum(r, d, Const(|r|, gamma), t, s + 1)
    ensures newDiscount == Discount(d, Const(|r|, gamma), t, s + 1)
  {
    assert Const(|r|, gamma)[t + s] == gamma;
    newSum := rewardSum + discount * r[t + s];
    newDiscount := discount * (gamma * (1.0 - d[t + s]));
  }

  /** The reward-collecting loop for step t: writes cells [t, 1..s] and
      returns the reward sum, the carried discount and s. */
  method CollectRewards(ret: array2<real>, r: seq<real>, d: seq<real>, gamma: real, t: nat, nStep: int)
    returns (rewardSum: real, discount: real, stepsMade: nat)
    requires |d| == |r| && t < |r| && ret.Length0 == |r|
    modifies ret
    ensures stepsMade == StepsMade(nStep, |r|, ret.Length1, t)
    ensures rewardSum == RewardSum(r, d, Const(|r|, gamma), t, stepsMade)
    ensures discount == Discount(d, Const(|r|, gamma), t, stepsMade)
    ensures forall h :: 1 <= h <= stepsMade ==> ret[t, h] == RewardSums(r, d, Const(|r|, gamma), t, stepsMade)[h - 1]
    ensures forall i, h :: 0 <= i < ret.Length0 && 0 <= h < ret.Length1 && (i != t || h == 0 || h > stepsMade) ==>
      ret[i, h] == old(ret[i, h])
  {
    ghost var g := Const(|r|, gamma);
    var n := |r|;
    var hh := ret.Length1;
    discount, rewardSum, stepsMade := 1.0, 0.0, 0;
    var k := 1;
    while k <= nStep && t + k - 1 < n && k < hh
      invariant 1 <= k && stepsMade == k - 1 && t + stepsMade <= n
      invariant stepsMade <= StepsMade(nStep, n, hh, t)
      invariant rewardSum == RewardSum(r, d, g, t, stepsMade)
      invariant discount == Discount(d, g, t, stepsMade)
      invariant forall h :: 1 <= h <= stepsMade ==> ret[t, h] == RewardSums(r, d, g, t, stepsMade)[h - 1]
      invariant forall i, h :: 0 <= i < ret.Length0 && 0 <= h < ret.Length1 && (i != t || h == 0 || h > stepsMade) ==>
        ret[i, h] == old(ret[i, h])
    {
      rewardSum, discount := CollectStep(r, d, gamma, t, k - 1, rewardSum, discount);
      stepsMade := stepsMade + 1;
      ret[t, k] := rewardSum;
      k := k + 1;
    }
  }

  /** The vectorised bootstrap update `returns[t, s+1:] += reward_sum +
      discount * boot[1:H-s]`. */
  method AddBootstrap(ret: array2<real>, t: nat, s: nat, rewardSum: real, discount: real, boot: seq<real>)
    requires t < ret.Length0 && |boot| == ret.Length1
    modifies ret
    ensures forall h :: s < h < ret.Length1 ==> ret[t, h] == old(ret[t, h]) + (rewardSum + discount * boot[h - s])
    ensures forall i, h :: 0 <= i < ret.Length0 && 0 <= h < ret.Length1 && (i != t || h <= s) ==>
      ret[i, h] == old(ret[i, h])
  {
    var h := s + 1;
    while h < ret.Length1
      invariant s + 1 <= h
      invariant forall k :: s < k < ret.Length1 && k < h ==> ret[t, k] == old(ret[t, k]) + (rewardSum + discount * boot[k - s])
      invariant forall i, k :: 0 <= i < ret.Length0 && 0 <= k < ret.Length1 && (i != t || k <= s || k >= h) ==>
        ret[i, k] == old(ret[i, k])
    {
      ret[t, h] := ret[t, h] + (rewardSum + discount * boot[h - s]);
      h := h + 1;
    }
  }

  // ---------------------------------------------------------------------
  // calculate_tvf_n_step and calculate_tvf_mc

  /** Row t of the n-step table: the reward loop, then the bootstrap update. */
  method NStepRow(ret: array2<real>, r: seq<real>, d: seq<real>, values: seq<seq<real>>, final: seq<real>,
                  gamma: real, nStep: int, t: nat)
    requires Shaped(r, d, values, final) && t < |r|
    requires ret.Length0 == |r| && ret.Length1 == |final|
    requires forall h :: 0 <= h < |final| ==> ret[t, h] == 0.0
    modifies ret
    ensures forall h :: 0 <= h < |final| ==> ret[t, h] == NStepCell(r, d, values, final, gamma, nStep, t, h)
    ensures forall i, h :: 0 <= i < |r| && i != t && 0 <= h < |final| ==> ret[i, h] == old(ret[i, h])
  {
    ghost var g := Const(|r|, gamma);
    var rewardSum, discount, s := CollectRewards(ret, r, d, gamma, t, nStep);
    AddBootstrap(ret, t, s, rewardSum, discount, ExtRow(values, final, t + s));
    forall h | 1 <= h <= s && h < |final|
      ensures ret[t, h] == RewardSum(r, d, g, t, h)
    {
      RewardSumsAt(r, d, g, t, s, h);
    }
  }

  /** Row t of the Monte-Carlo table: the same loops with n = N and the
      final curve as the only bootstrap source. */
  method McRow(ret: array2<real>, r: seq<real>, d: seq<real>, final: seq<real>, gamma: real, t: nat)
    requires |d| == |r| && t < |r|
    requires ret.Length0 == |r| && ret.Length1 == |final|
    requires forall h :: 0 <= h < |final| ==> ret[t, h] == 0.0
    modifies ret
    ensures forall h :: 0 <= h < |final| ==> ret[t, h] == McCell(r, d, final, gamma, t, h)
    ensures forall i, h :: 0 <= i < |r| && i != t && 0 <= h < |final| ==> ret[i, h] == old(ret[i, h])
  {
    ghost var g := Const(|r|, gamma);
    var rewardSum, discount, s := CollectRewards(ret, r, d, gamma, t, |r|);
    AddBootstrap(ret, t, s, rewardSum, discount, final);
    forall h | 1 <= h <= s && h < |final|
      ensures ret[t, h] == RewardSum(r, d, g, t, h)
    {
      RewardSumsAt(r, d, g, t, s, h);
    }
  }

  method CalculateTvfNStep(r: seq<real>, d: seq<real>, values: seq<seq<real>>, final: seq<real>,
                           gamma: real, nStep: int)
    returns (ret: array2<real>)
    requires Shaped(r, d, values, final)
    ensures fresh(ret) && ret.Length0 == |r| && ret.Length1 == |final|
    ensures forall t, h :: 0 <= t < |r| && 0 <= h < |final| ==>
      ret[t, h] == NStepCell(r, d, values, final, gamma, nStep, t, h)
  {
    var n, hh := |r|, |final|;
    ret := new real[n, hh]((_, _) => 0.0);
    var t := 0;
    while t < n
      invariant 0 <= t <= n
      invariant forall i, h :: 0 <= i < t && 0 <= h < hh ==> ret[i, h] == NStepCell(r, d, values, final, gamma, nStep, i, h)
      invariant forall i, h :: t <= i < n && 0 <= h < hh ==> ret[i, h] == 0.0
    {
      NStepRow(ret, r, d, values, final, gamma, nStep, t);
      t := t + 1;
    }
  }

  /** `values` is ignored by the source; the horizon count comes from the
      final curve. */
  method CalculateTvfMc(r: seq<real>, d: seq<real>, final: seq<real>, gamma: real)
    returns (ret: array2<real>)
    requires |d| == |r|
    ensures fresh(ret) && ret.Length0 == |r| && ret.Length1 == |final|
    ensures forall t, h :: 0 <= t < |r| && 0 <= h < |final| ==> ret[t, h] == McCell(r, d, final, gamma, t, h)
  {
    var n, hh := |r|, |final|;
    ret := new real[n, hh]((_, _) => 0.0);
    var t := 0;
    while t < n
      invariant 0 <= t <= n
      invariant forall i, h :: 0 <= i < t && 0 <= h < hh ==> ret[i, h] == McCell(r, d, final, gamma, i, h)
      invariant forall i, h :: t <= i < n && 0 <= h < hh ==> ret[i, h] == 0.0
    {
      McRow(ret, r, d, final, gamma, t);
      t := t + 1;
    }
  }

  // ---------------------------------------------------------------------
  // calculate_tvf_td

  method CalculateTvfTd(r: seq<real>, d: seq<real>, values: seq<seq<real>>, final: seq<real>, gamma: real)
    returns (ret: array2<real>)
    requires Shaped(r, d, values, final)
    ensures fresh(ret) && ret.Length0 == |r| && ret.Length1 == |final|
    ensures forall t, h :: 0 <= t < |r| && 0 <= h < |final| ==>
      ret[t, h] == TdCell(r, d, values, final, gamma, t, h)
  {
    var n, hh := |r|, |final|;
    ret := new real[n, hh]((_, _) => 0.0);
    var t := 0;
    while t < n
      invariant 0 <= t <= n
      invariant forall i, h :: 0 <= i < t && 0 <= h < hh ==> ret[i, h] == TdCell(r, d, values, final, gamma, i, h)
      invariant forall i, h :: t <= i < n && 0 <= h < hh ==> ret[i, h] == 0.0
    {
      var next := ExtRow(values, final, t + 1);
      var h := 1;
      while h < hh
        invariant 1 <= h || hh == 0
        invariant forall i, k :: 0 <= i < t && 0 <= k < hh ==> ret[i, k] == TdCell(r, d, values, final, gamma, i, k)
        invariant forall k :: 0 <= k < hh && k < h ==> ret[t, k] == TdCell(r, d, values, final, gamma, t, k)
        invariant forall i, k :: t <= i < n && 0 <= k < hh && (i > t || k >= h) ==> ret[i, k] == 0.0
      {
        var rewardSum := r[t];
        var discount := gamma * (1.0 - d[t]);
        var bootstrap := if h - 1 > 0 then discount * next[h - 1] else 0.0;
        ret[t, h] := rewardSum + bootstrap;
        h := h + 1;
      }
      t := t + 1;
    }
  }

  // ---------------------------------------------------------------------
  // Relations between the tables

  /** The one-step table is the TD table, for every input. */
  lemma NStepOneIsTd(r: seq<real>, d: seq<real>, values: seq<seq<real>>, final: seq<real>, gamma: real, t: nat, h: nat)
    requires Shaped(r, d, values, final) && t < |r| && h < |final|
    ensures NStepCell(r, d, values, final, gamma, 1, t, h) == TdCell(r, d, values, final, gamma, t, h)
  {
    var g := Const(|r|, gamma);
    if h > 0 {
      assert StepsMade(1, |r|, |final|, t) == 1;
      assert RewardSum(r, d, g, t, 1) == r[t];
      assert Discount(d, g, t, 1) == gamma * (1.0 - d[t]);
    }
  }

  /** An n-step table with n at least the window length is the Monte-Carlo
      table, whatever the intermediate value curves hold. */
  lemma NStepLongIsMc(r: seq<real>, d: seq<real>, values: seq<seq<real>>, final: seq<real>,
                      gamma: real, nStep: int, t: nat, h: nat)
    requires Shaped(r, d, values, final) && t < |r| && h < |final|
    requires nStep >= |r|
    ensures NStepCell(r, d, values, final, gamma, nStep, t, h) == McCell(r, d, final, gamma, t, h)
  {
    var s := StepsMade(nStep, |r|, |final|, t);
    assert s == StepsMade(|r|, |r|, |final|, t);
    if h > s {
      assert t + s == |r|;
    }
  }

  /** Targets never look past an episode end: when step t + j (j < s) is
      terminal, every horizon beyond j is the discounted sum of the rewards
      up to that step, with no bootstrap. */
  lemma BootstrapCellStopsAtTerminal(r: seq<real>, d: seq<real>, gamma: real, s: nat, t: nat, h: nat,
                                     boot: seq<real>, j: nat)
    requires |d| == |r| && t + s <= |r| && h < |boot|
    requires j < s && d[t + j] == 1.0 && h > j
    ensures BootstrapCell(r, d, gamma, s, t, h, boot) == RewardSum(r, d, Const(|r|, gamma), t, j + 1)
  {
    var g := Const(|r|, gamma);
    if h <= s {
      RewardSumStopsAtTerminal(r, d, g, t, j, h);
    } else {
      RewardSumStopsAtTerminal(r, d, g, t, j, s);
      DiscountZeroAfterTerminal(d, g, t, j, s);
    }
  }

  lemma NStepStopsAtTerminal(r: seq<real>, d: seq<real>, values: seq<seq<real>>, final: seq<real>,
                             gamma: real, nStep: int, t: nat, h: nat, j: nat)
    requires Shaped(r, d, values, final) && t < |r| && h < |final|
    requires j < StepsMade(nStep, |r|, |final|, t) && d[t + j] == 1.0 && h > j
    ensures NStepCell(r, d, values, final, gamma, nStep, t, h) == RewardSum(r, d, Const(|r|, gamma), t, j + 1)
  {
    var s := StepsMade(nStep, |r|, |final|, t);
    BootstrapCellStopsAtTerminal(r, d, gamma, s, t, h, ExtRow(values, final, t + s), j);
  }

  lemma McStopsAtTerminal(r: seq<real>, d: seq<real>, final: seq<real>, gamma: real, t: nat, h: nat, j: nat)
    requires |d| == |r| && t < |r| && h < |final|
    requires j < StepsMade(|r|, |r|, |final|, t) && d[t + j] == 1.0 && h > j
    ensures McCell(r, d, final, gamma, t, h) == RewardSum(r, d, Const(|r|, gamma), t, j + 1)
  {
    BootstrapCellStopsAtTerminal(r, d, gamma, StepsMade(|r|, |r|, |final|, t), t, h, final, j);
  }

  // ---------------------------------------------------------------------
  // calculate_tvf_lambda

  /** K = int(min(1 / (1 - λ), n_steps, 100)), for λ ≠ 1. */
  function LambdaWindow(lambda: real, nSteps: int): int
    requires lambda != 1.0
  {
    Trunc(MinReal(MinReal(1.0 / (1.0 - lambda), nSteps as real), 100.0))
  }

  /** The source reaches its result, rather than an IndexError on `g[0]`,
      exactly when this holds. */
  predicate LambdaDefined(lambda: real, nSteps: int)
  {
    lambda == 0.0 || lambda == 1.0 || LambdaWindow(lambda, nSteps) >= 1
  }

  /** The targets nstep_1[t, h], ..., nstep_k[t, h] of one cell (the list `g`). */
  function NStepTargets(r: seq<real>, d: seq<real>, values: seq<seq<real>>, final: seq<real>,
                        gamma: real, t: nat, h: nat, k: nat): (gs: seq<real>)
    requires Shaped(r, d, values, final) && t < |r| && h < |final|
    ensures |gs| == k
  {
    if k == 0 then []
    else NStepTargets(r, d, values, final, gamma, t, h, k - 1) + [NStepCell(r, d, values, final, gamma, k, t, h)]
  }

  lemma {:induction false} NStepTargetsAt(r: seq<real>, d: seq<real>, values: seq<seq<real>>, final: seq<real>,
                                          gamma: real, t: nat, h: nat, k: nat, i: nat)
    requires Shaped(r, d, values, final) && t < |r| && h < |final| && i < k
    ensures NStepTargets(r, d, values, final, gamma, t, h, k)[i] == NStepCell(r, d, values, final, gamma, i + 1, t, h)
  {
    if i < k - 1 {
      NStepTargetsAt(r, d, values, final, gamma, t, h, k - 1, i);
    }
  }

  /** Σ_i gs[i] · λ^i · (1 − λ), accumulated in the source's order. */
  function Combine(gs: seq<real>, lambda: real): real
  {
    if gs == [] then 0.0
    else Combine(gs[..|gs| - 1], lambda) + gs[|gs| - 1] * Pow(lambda, |gs| - 1) * (1.0 - lambda)
  }

  function LambdaCell(r: seq<real>, d: seq<real>, values: seq<seq<real>>, final: seq<real>,
                      gamma: real, lambda: real, nSteps: int, t: nat, h: nat): real
    requires Shaped(r, d, values, final) && t < |r| && h < |final|
    requires LambdaDefined(lambda, nSteps)
  {
    if lambda == 0.0 then TdCell(r, d, values, final, gamma, t, h)
    else if lambda == 1.0 then McCell(r, d, final, gamma, t, h)
    else Combine(NStepTargets(r, d, values, final, gamma, t, h, LambdaWindow(lambda, nSteps)), lambda)
  }

  lemma CombineSnoc(gs: seq<real>, x: real, lambda: real)
    ensures Combine(gs + [x], lambda) == Combine(gs, lambda) + x * Pow(lambda, |gs|) * (1.0 - lambda)
  {
    assert (gs + [x])[..|gs|] == gs;
  }

  /** Cell [t, h] of every table in the list. */
  function Column(g: seq<array2<real>>, t: nat, h: nat): (col: seq<real>)
    requires forall j :: 0 <= j < |g| ==> t < g[j].Length0 && h < g[j].Length1
    reads set j | 0 <= j < |g| :: g[j]
    ensures |col| == |g| && forall j :: 0 <= j < |g| ==> col[j] == g[j][t, h]
  {
    if g == [] then [] else Column(g[..|g| - 1], t, h) + [g[|g| - 1][t, h]]
  }

  /** The combination loop: `result = g[0] * (1 - lamb)`, then
      `result += g[i] * (lamb ** i) * (1 - lamb)` for the remaining tables. */
  method CombineTables(g: seq<array2<real>>, n: nat, hh: nat, lambda: real) returns (result: array2<real>)
    requires |g| >= 1
    requires forall j :: 0 <= j < |g| ==> g[j].Length0 == n && g[j].Length1 == hh
    ensures fresh(result) && result.Length0 == n && result.Length1 == hh
    ensures forall t, h :: 0 <= t < n && 0 <= h < hh ==> result[t, h] == Combine(Column(g, t, h), lambda)
  {
    result := ScaledFirst(g, n, hh, lambda);
    var i := 1;
    while i < |g|
      invariant 1 <= i <= |g|
      invariant fresh(result) && result.Length0 == n && result.Length1 == hh
      invariant forall j :: 0 <= j < |g| ==> g[j] != result
      invariant forall t, h :: 0 <= t < n && 0 <= h < hh ==> result[t, h] == Combine(Column(g[..i], t, h), lambda)
    {
      AddStep(result, g, i, lambda);
      i := i + 1;
    }
    assert g[..i] == g;
  }

  /** `result = g[0] * (1 - lamb)`: the combination of the first table alone. */
  method ScaledFirst(g: seq<array2<real>>, n: nat, hh: nat, lambda: real) returns (result: array2<real>)
    requires |g| >= 1 && g[0].Length0 == n && g[0].Length1 == hh
    ensures fresh(result) && result.Length0 == n && result.Length1 == hh
    ensures forall t, h :: 0 <= t < n && 0 <= h < hh ==> result[t, h] == Combine(Column(g[..1], t, h), lambda)
  {
    var first := g[0];
    result := new real[n, hh]((t, h) reads first => if 0 <= t < first.Length0 && 0 <= h < first.Length1 then first[t, h] * (1.0 - lambda) else 0.0);
    forall t, h | 0 <= t < n && 0 <= h < hh
      ensures result[t, h] == Combine(Column(g[..1], t, h), lambda)
    {
      CombineSnoc([], first[t, h], lambda);
      assert Column(g[..1], t, h) == [] + [first[t, h]];
    }
  }

  /** One pass of the combination loop, over the whole table. */
  method AddStep(result: array2<real>, g: seq<array2<real>>, i: nat, lambda: real)
    requires 1 <= i < |g|
    requires forall j :: 0 <= j < |g| ==> g[j].Length0 == result.Length0 && g[j].Length1 == result.Length1
    requires forall j :: 0 <= j < |g| ==> g[j] != result
    requires forall t, h :: 0 <= t < result.Length0 && 0 <= h < result.Length1 ==>
      result[t, h] == Combine(Column(g[..i], t, h), lambda)
    modifies result
    ensures forall t, h :: 0 <= t < result.Length0 && 0 <= h < result.Length1 ==>
      result[t, h] == Combine(Column(g[..i + 1], t, h), lambda)
  {
    AddScaled(result, g[i], Pow(lambda, i), 1.0 - lambda);
    forall t, h | 0 <= t < result.Length0 && 0 <= h < result.Length1
      ensures result[t, h] == Combine(Column(g[..i + 1], t, h), lambda)
    {
      var before := Column(g[..i], t, h);
      assert g[..i + 1][..i] == g[..i];
      assert Column(g[..i + 1], t, h) == before + [g[i][t, h]];
      CombineSnoc(before, g[i][t, h], lambda);
    }
  }

  /** `result += g[i] * (lamb ** i) * (1 - lamb)` over the whole table. */
  method AddScaled(res: array2<real>, g: array2<real>, w: real, c: real)
    requires res != g && res.Length0 == g.Length0 && res.Length1 == g.Length1
    modifies res
    ensures forall t, h :: 0 <= t < res.Length0 && 0 <= h < res.Length1 ==>
      res[t, h] == old(res[t, h]) + g[t, h] * w * c
  {
    var t := 0;
    while t < res.Length0
      invariant 0 <= t <= res.Length0
      invariant forall i, h :: 0 <= i < res.Length0 && 0 <= h < res.Length1 ==>
        res[i, h] == if i < t then old(res[i, h]) + g[i, h] * w * c else old(res[i, h])
    {
      var h := 0;
      while h < res.Length1
        invariant 0 <= h <= res.Length1
        invariant forall i, k :: 0 <= i < res.Length0 && 0 <= k < res.Length1 ==>
          res[i, k] == if i < t || (i == t && k < h) then old(res[i, k]) + g[i, k] * w * c else old(res[i, k])
      {
        res[t, h] := res[t, h] + g[t, h] * w * c;
        h := h + 1;
      }
      t := t + 1;
    }
  }

  /** The combined table, or the IndexError the source raises when the
      window K is empty (λ < 0, λ > 1, or n_steps < 1). */
  method CalculateTvfLambda(r: seq<real>, d: seq<real>, values: seq<seq<real>>, final: seq<real>,
                            gamma: real, lambda: real, nSteps: int)
    returns (res: Result<array2<real>, string>)
    requires Shaped(r, d, values, final)
    ensures res.Ok? <==> LambdaDefined(lambda, nSteps)
    ensures res.Ok? ==> fresh(res.value) && res.value.Length0 == |r| && res.value.Length1 == |final|
    ensures res.Ok? ==> forall t, h :: 0 <= t < |r| && 0 <= h < |final| ==>
      res.value[t, h] == LambdaCell(r, d, values, final, gamma, lambda, nSteps, t, h)
  {
    if lambda == 0.0 {
      var a := CalculateTvfTd(r, d, values, final, gamma);
      return Ok(a);
    }
    if lambda == 1.0 {
      var a := CalculateTvfMc(r, d, final, gamma);
      return Ok(a);
    }
    var k := LambdaWindow(lambda, nSteps);
    if k < 1 {
      return Err("IndexError: list index out of range");
    }
    var g: seq<array2<real>> := [];
    var i := 0;
    while i < k
      invariant 0 <= i <= k && |g| == i
      invariant forall j :: 0 <= j < i ==> g[j].Length0 == |r| && g[j].Length1 == |final|
      invariant forall j, t, h :: 0 <= j < i && 0 <= t < |r| && 0 <= h < |final| ==>
        g[j][t, h] == NStepCell(r, d, values, final, gamma, j + 1, t, h)
    {
      var table := CalculateTvfNStep(r, d, values, final, gamma, i + 1);
      g := g + [table];
      i := i + 1;
    }
    var result := CombineTables(g, |r|, |final|, lambda);
    forall t, h | 0 <= t < |r| && 0 <= h < |final|
      ensures Column(g, t, h) == NStepTargets(r, d, values, final, gamma, t, h, k)
    {
      forall j | 0 <= j < k
        ensures Column(g, t, h)[j] == NStepTargets(r, d, values, final, gamma, t, h, k)[j]
      {
        NStepTargetsAt(r, d, values, final, gamma, t, h, k, j);
      }
    }
    return Ok(result);
  }

  /** λ = 0 and λ = 1 are served by the TD and MC tables; any other λ needs
      0 < λ < 1 and at least one n-step. */
  lemma LambdaDefinedIff(lambda: real, nSteps: int)
    ensures LambdaDefined(lambda, nSteps) <==>
      lambda == 0.0 || lambda == 1.0 || (0.0 < lambda < 1.0 && nSteps >= 1)
  {
    if lambda != 0.0 && lambda != 1.0 {
      var q := 1.0 / (1.0 - lambda);
      if 0.0 < lambda < 1.0 {
        assert q * (1.0 - lambda) == 1.0;
        assert q > 1.0;
      } else if lambda > 1.0 {
        assert q * (1.0 - lambda) == 1.0;
        assert q < 0.0;
      } else {
        assert q * (1.0 - lambda) == 1.0;
        assert q < 1.0;
      }
    }
  }

  /** Sum of the first k weights (1 − λ)λ^i. */
  function LambdaWeightTotal(lambda: real, k: nat): real
  {
    if k == 0 then 0.0 else LambdaWeightTotal(lambda, k - 1) + Pow(lambda, k - 1) * (1.0 - lambda)
  }

  lemma {:induction false} LambdaWeightTotalClosed(lambda: real, k: nat)
    ensures LambdaWeightTotal(lambda, k) == 1.0 - Pow(lambda, k)
  {
    if k > 0 {
      LambdaWeightTotalClosed(lambda, k - 1);
      assert Pow(lambda, k) == lambda * Pow(lambda, k - 1);
    }
  }

  /** When all targets agree on c, the combination is c scaled by the weight
      total 1 − λ^k, not c itself. */
  lemma {:induction false} CombineOfAgreeing(gs: seq<real>, lambda: real, c: real)
    requires forall i :: 0 <= i < |gs| ==> gs[i] == c
    ensures Combine(gs, lambda) == c * LambdaWeightTotal(lambda, |gs|)
  {
    if gs != [] {
      CombineOfAgreeing(gs[..|gs| - 1], lambda, c);
    }
  }

  /** A one-step episode (reward 1, terminal) under λ = 0.5 and n_steps = 1:
      every n-step target of cell [0, 1] is 1, the combined target is 0.5. */
  lemma LambdaUnderweights()
    ensures LambdaWindow(0.5, 1) == 1
    ensures forall n :: 1 <= n ==> NStepCell([1.0], [1.0], [[0.0, 0.0]], [0.0, 0.0], 0.9, n, 0, 1) == 1.0
    ensures LambdaCell([1.0], [1.0], [[0.0, 0.0]], [0.0, 0.0], 0.9, 0.5, 1, 0, 1) == 0.5
  {
    var r, d, v, f := [1.0], [1.0], [[0.0, 0.0]], [0.0, 0.0];
    forall n | 1 <= n
      ensures NStepCell(r, d, v, f, 0.9, n, 0, 1) == 1.0
    {
      assert StepsMade(n, 1, 2, 0) == 1;
      assert RewardSum(r, d, Const(1, 0.9), 0, 1) == 1.0;
    }
    var gs := NStepTargets(r, d, v, f, 0.9, 0, 1, 1);
    assert gs == [1.0];
    assert gs[..0] == [];
  }

  // ---------------------------------------------------------------------
  // The truncated λ-return the combination is evidently meant to be

  /** The first k − 1 targets weighted (1 − λ)λ^i and the last one given the
      remaining mass λ^(k−1), so the weights total 1. */
  function CorrectedCombine(gs: seq<real>, lambda: real): real
    requires |gs| >= 1
  {
    Combine(gs[..|gs| - 1], lambda) + gs[|gs| - 1] * Pow(lambda, |gs| - 1)
  }

  function CorrectedLambdaCell(r: seq<real>, d: seq<real>, values: seq<seq<real>>, final: seq<real>,
                               gamma: real, lambda: real, nSteps: int, t: nat, h: nat): real
    requires Shaped(r, d, values, final) && t < |r| && h < |final|
    requires LambdaDefined(lambda, nSteps)
  {
    if lambda == 0.0 then TdCell(r, d, values, final, gamma, t, h)
    else if lambda == 1.0 then McCell(r, d, final, gamma, t, h)
    else CorrectedCombine(NStepTargets(r, d, values, final, gamma, t, h, LambdaWindow(lambda, nSteps)), lambda)
  }

  /** The corrected combination is a weighted average: targets that all
      agree on c combine to c. */
  lemma CorrectedCombineKeepsAgreement(gs: seq<real>, lambda: real, c: real)
    requires |gs| >= 1
    requires forall i :: 0 <= i < |gs| ==> gs[i] == c
    ensures CorrectedCombine(gs, lambda) == c
  {
    CombineOfAgreeing(gs[..|gs| - 1], lambda, c);
    LambdaWeightTotalClosed(lambda, |gs| - 1);
  }

  /** On the one-step episode above the corrected target is the exact return 1. */
  lemma CorrectedLambdaScenario()
    ensures CorrectedLambdaCell([1.0], [1.0], [[0.0, 0.0]], [0.0, 0.0], 0.9, 0.5, 1, 0, 1) == 1.0
  {
    LambdaUnderweights();
    var gs := NStepTargets([1.0], [1.0], [[0.0, 0.0]], [0.0, 0.0], 0.9, 0, 1, 1);
    assert gs == [1.0];
    assert gs[..0] == [];
  }
}
