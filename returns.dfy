/** Backward recursions over one rollout of one agent: `calculate_tp_returns`,
    `calculate_bootstrapped_returns` and `calculate_gae` of rl/rollout.py.

    The source works on `[N, A]` arrays; every formula treats the agents
    independently, so one agent's column is modelled: `rewards`, `dones`,
    `values` are sequences of length N and the final estimate is a number.
    `dones[i]` is the float flag numpy multiplies with as `1.0 - dones[i]`. */
module Returns {
  import opened Common

  /** A per-step discount sequence holding the same γ at every step
      (numpy's `np.ones([N, A]) * gamma`). */
  function Const(n: nat, g: real): (s: seq<real>)
    ensures |s| == n && forall i :: 0 <= i < n ==> s[i] == g
  {
    seq(n, _ => g)
  }

  // ---------------------------------------------------------------------
  // Forward reference definitions: the discounted sum of the rewards
  // collected in k steps from t, and the discount carried after them.

  /** Product over j < k of g[t+j]·(1 - d[t+j]). */
  function Discount(d: seq<real>, g: seq<real>, t: nat, k: nat): real
    requires |g| == |d| && t + k <= |d|
  {
    if k == 0 then 1.0 else Discount(d, g, t, k - 1) * (g[t + k - 1] * (1.0 - d[t + k - 1]))
  }

  /** Sum over j < k of Discount(t, j)·r[t+j]. */
  function RewardSum(r: seq<real>, d: seq<real>, g: seq<real>, t: nat, k: nat): real
    requires |d| == |r| && |g| == |r| && t + k <= |r|
  {
    if k == 0 then 0.0 else RewardSum(r, d, g, t, k - 1) + Discount(d, g, t, k - 1) * r[t + k - 1]
  }

  lemma {:induction false} DiscountPeel(d: seq<real>, g: seq<real>, t: nat, k: nat)
    requires |g| == |d| && t + k + 1 <= |d|
    ensures Discount(d, g, t, k + 1) == g[t] * (1.0 - d[t]) * Discount(d, g, t + 1, k)
  {
    if k > 0 {
      DiscountPeel(d, g, t, k - 1);
    }
  }

  lemma {:induction false} RewardSumPeel(r: seq<real>, d: seq<real>, g: seq<real>, t: nat, k: nat)
    requires |d| == |r| && |g| == |r| && t + k + 1 <= |r|
    ensures RewardSum(r, d, g, t, k + 1) == r[t] + g[t] * (1.0 - d[t]) * RewardSum(r, d, g, t + 1, k)
  {
    if k > 0 {
      RewardSumPeel(r, d, g, t, k - 1);
      DiscountPeel(d, g, t, k - 1);
    }
  }

  /** Once a terminal flag 1 has been passed, the carried discount is 0. */
  lemma {:induction false} DiscountZeroAfterTerminal(d: seq<real>, g: seq<real>, t: nat, j: nat, k: nat)
    requires |g| == |d| && t + k <= |d|
    requires j < k && d[t + j] == 1.0
    ensures Discount(d, g, t, k) == 0.0
  {
    if k - 1 > j {
      DiscountZeroAfterTerminal(d, g, t, j, k - 1);
    }
  }

  /** Rewards after a terminal flag do not change the discounted sum. */
  lemma {:induction false} RewardSumStopsAtTerminal(r: seq<real>, d: seq<real>, g: seq<real>, t: nat, j: nat, k: nat)
    requires |d| == |r| && |g| == |r| && t + k <= |r|
    requires j < k && d[t + j] == 1.0
    ensures RewardSum(r, d, g, t, k) == RewardSum(r, d, g, t, j + 1)
  {
    if k - 1 > j {
      RewardSumStopsAtTerminal(r, d, g, t, j, k - 1);
      DiscountZeroAfterTerminal(d, g, t, j, k - 1);
    }
  }

  // ---------------------------------------------------------------------
  // calculate_bootstrapped_returns

  /** The source accepts γ either as one float or as an `[N, A]` array. */
  datatype Gamma = Scalar(g: real) | PerStep(gs: seq<real>)

  function Gammas(gamma: Gamma, n: nat): seq<real>
  {
    match gamma
    case Scalar(g) => Const(n, g)
    case PerStep(gs) => gs
  }

  /** returns[i] as the backward recursion fills it: the estimate after the
      last step is `final`, and each step adds its reward to the discounted,
      terminal-masked next return. */
  function BootstrappedReturn(r: seq<real>, d: seq<real>, g: seq<real>, final: real, i: nat): real
    requires |d| == |r| && |g| == |r| && i < |r|
    decreases |r| - i
  {
    var next := if i == |r| - 1 then final else BootstrappedReturn(r, d, g, final, i + 1);
    r[i] + next * g[i] * (1.0 - d[i])
  }

  method CalculateBootstrappedReturns(rewards: seq<real>, dones: seq<real>, final: real, gamma: Gamma)
    returns (rets: array<real>)
    requires |dones| == |rewards|
    requires gamma.PerStep? ==> |gamma.gs| == |rewards|
    ensures rets.Length == |rewards|
    ensures forall i :: 0 <= i < |rewards| ==>
      rets[i] == BootstrappedReturn(rewards, dones, Gammas(gamma, |rewards|), final, i)
  {
    var n := |rewards|;
    var g := Gammas(gamma, n);
    rets := new real[n](_ => 0.0);
    var current := final;
    var i := n;
    while i > 0
      invariant 0 <= i <= n && rets.Length == n
      invariant i == n ==> current == final
      invariant i < n ==> current == BootstrappedReturn(rewards, dones, g, final, i)
      invariant forall k :: i <= k < n ==> rets[k] == BootstrappedReturn(rewards, dones, g, final, k)
    {
      i := i - 1;
      current := rewards[i] + current * g[i] * (1.0 - dones[i]);
      rets[i] := current;
    }
  }

  /** The backward recursion computes the forward reference: the discounted
      rewards to the end of the window plus the discounted final estimate. */
  lemma {:induction false} BootstrappedClosedForm(r: seq<real>, d: seq<real>, g: seq<real>, final: real, i: nat)
    requires |d| == |r| && |g| == |r| && i < |r|
    ensures BootstrappedReturn(r, d, g, final, i)
         == RewardSum(r, d, g, i, |r| - i) + Discount(d, g, i, |r| - i) * final
    decreases |r| - i
  {
    RewardSumPeel(r, d, g, i, |r| - i - 1);
    DiscountPeel(d, g, i, |r| - i - 1);
    if i < |r| - 1 {
      BootstrappedClosedForm(r, d, g, final, i + 1);
    }
  }

  /** A terminal step's return is its own reward ... */
  lemma BootstrappedAtTerminal(r: seq<real>, d: seq<real>, g: seq<real>, final: real, t: nat)
    requires |d| == |r| && |g| == |r| && t < |r|
    requires d[t] == 1.0
    ensures BootstrappedReturn(r, d, g, final, t) == r[t]
  {
  }

  /** ... and nothing after an episode end leaks into the returns before it:
      two rollouts that agree up to a terminal step t get the same returns
      for every step up to t, whatever follows and whatever `final` is. */
  lemma {:induction false} BootstrappedNoLeak(r1: seq<real>, d1: seq<real>, g1: seq<real>, f1: real,
                                              r2: seq<real>, d2: seq<real>, g2: seq<real>, f2: real,
                                              t: nat, i: nat)
    requires |d1| == |r1| && |g1| == |r1| && |d2| == |r2| && |g2| == |r2|
    requires t < |r1| && t < |r2| && i <= t
    requires r1[..t + 1] == r2[..t + 1] && d1[..t + 1] == d2[..t + 1] && g1[..t + 1] == g2[..t + 1]
    requires d1[t] == 1.0
    ensures BootstrappedReturn(r1, d1, g1, f1, i) == BootstrappedReturn(r2, d2, g2, f2, i)
    decreases t - i
  {
    assert r1[i] == r1[..t + 1][i] && r2[i] == r2[..t + 1][i];
    assert d1[i] == d1[..t + 1][i] && d2[i] == d2[..t + 1][i];
    assert g1[i] == g1[..t + 1][i] && g2[i] == g2[..t + 1][i];
    if i < t {
      BootstrappedNoLeak(r1, d1, g1, f1, r2, d2, g2, f2, t, i + 1);
    }
  }

  /** The scenario of a four-step rollout with unit rewards, no terminals,
      γ = 0.9 and a final estimate of 5. */
  lemma BootstrappedScenario()
    ensures BootstrappedReturn([1.0, 1.0, 1.0, 1.0], [0.0, 0.0, 0.0, 0.0], Const(4, 0.9), 5.0, 0) == 6.7195
  {
  }

  // ---------------------------------------------------------------------
  // calculate_tp_returns

  /** The fixed discount the terminal-prediction target uses. */
  const TpGamma: real := 0.99

  /** One backward step of the target: a count of 1 for this step plus the
      discounted, terminal-masked target of the next. */
  function TpStep(next: real, done: real): real
  {
    1.0 + next * TpGamma * (1.0 - done)
  }

  function TpReturn(d: seq<real>, final: real, i: nat): real
    requires i < |d|
    decreases |d| - i
  {
    var next := if i == |d| - 1 then final else TpReturn(d, final, i + 1);
    TpStep(next, d[i])
  }

  method CalculateTpReturns(dones: seq<real>, finalTpEstimate: real) returns (rets: array<real>)
    ensures rets.Length == |dones|
    ensures forall i :: 0 <= i < |dones| ==> rets[i] == TpReturn(dones, finalTpEstimate, i)
  {
    var n := |dones|;
    rets := new real[n](_ => 0.0);
    var current := finalTpEstimate;
    var i := n;
    while i > 0
      invariant 0 <= i <= n && rets.Length == n
      invariant i == n ==> current == finalTpEstimate
      invariant i < n ==> current == TpReturn(dones, finalTpEstimate, i)
      invariant forall k :: i <= k < n ==> rets[k] == TpReturn(dones, finalTpEstimate, k)
    {
      i := i - 1;
      current := TpStep(current, dones[i]);
      rets[i] := current;
    }
  }

  /** The terminal-prediction target is the bootstrapped return of a reward
      of 1 per step under γ = 0.99: a discounted count of the steps left. */
  lemma {:induction false} TpIsBootstrappedCount(d: seq<real>, final: real, i: nat)
    requires i < |d|
    ensures TpReturn(d, final, i) == BootstrappedReturn(Const(|d|, 1.0), d, Const(|d|, TpGamma), final, i)
    decreases |d| - i
  {
    if i < |d| - 1 {
      TpIsBootstrappedCount(d, final, i + 1);
    }
  }

  // ---------------------------------------------------------------------
  // calculate_gae

  /** δ_t: the one-step TD error, bootstrapping from `final` at the last step. */
  function TdError(r: seq<real>, v: seq<real>, final: real, d: seq<real>, gamma: real, t: nat): real
    requires |v| == |r| && |d| == |r| && t < |r|
  {
    var valueNext := if t == |r| - 1 then final else v[t + 1];
    r[t] + gamma * valueNext * (1.0 - d[t]) - v[t]
  }

  function TdErrors(r: seq<real>, v: seq<real>, final: real, d: seq<real>, gamma: real): (s: seq<real>)
    requires |v| == |r| && |d| == |r|
    ensures |s| == |r| && forall t :: 0 <= t < |r| ==> s[t] == TdError(r, v, final, d, gamma, t)
  {
    seq(|r|, t requires 0 <= t < |r| => TdError(r, v, final, d, gamma, t))
  }

  /** adv[t] as the backward recursion fills it; the carried advantage starts at 0. */
  function Gae(r: seq<real>, v: seq<real>, final: real, d: seq<real>, gamma: real, lambda: real, t: nat): real
    requires |v| == |r| && |d| == |r| && t < |r|
    decreases |r| - t
  {
    var prevAdv := if t == |r| - 1 then 0.0 else Gae(r, v, final, d, gamma, lambda, t + 1);
    TdError(r, v, final, d, gamma, t) + gamma * lambda * (1.0 - d[t]) * prevAdv
  }

  /** The `normalize` option (mean/std rescaling) is not modelled. An absent
      terminal array counts as "never terminal". */
  method CalculateGae(rewards: seq<real>, values: seq<real>, final: real, terminals: Option<seq<real>>,
                      gamma: real, lambda: real)
    returns (advantage: array<real>)
    requires |values| == |rewards|
    requires terminals.Some? ==> |terminals.value| == |rewards|
    ensures advantage.Length == |rewards|
    ensures forall t :: 0 <= t < |rewards| ==>
      advantage[t] == Gae(rewards, values, final,
                          if terminals.Some? then terminals.value else Const(|rewards|, 0.0),
                          gamma, lambda, t)
  {
    var n := |rewards|;
    var d := if terminals.Some? then terminals.value else Const(n, 0.0);
    advantage := new real[n](_ => 0.0);
    var prevAdv := 0.0;
    var t := n;
    while t > 0
      invariant 0 <= t <= n && advantage.Length == n
      invariant t == n ==> prevAdv == 0.0
      invariant t < n ==> prevAdv == Gae(rewards, values, final, d, gamma, lambda, t)
      invariant forall k :: t <= k < n ==> advantage[k] == Gae(rewards, values, final, d, gamma, lambda, k)
    {
      t := t - 1;
      prevAdv := GaeStep(rewards, values, final, d, gamma, lambda, t, prevAdv);
      advantage[t] := prevAdv;
    }
  }

  /** One pass of the backward loop: the TD error of step t plus the
      discounted, terminal-masked advantage carried from step t + 1. */
  method GaeStep(rewards: seq<real>, values: seq<real>, final: real, d: seq<real>,
                 gamma: real, lambda: real, t: nat, prevAdv: real)
    returns (adv: real)
    requires |values| == |rewards| && |d| == |rewards| && t < |rewards|
    requires prevAdv == if t == |rewards| - 1 then 0.0 else Gae(rewards, values, final, d, gamma, lambda, t + 1)
    ensures adv == Gae(rewards, values, final, d, gamma, lambda, t)
  {
    var isNextNewEpisode := d[t];
    var valueNext := if t != |rewards| - 1 then values[t + 1] else final;
    var delta := rewards[t] + gamma * valueNext * (1.0 - isNextNewEpisode) - values[t];
    adv := delta + gamma * lambda * (1.0 - isNextNewEpisode) * prevAdv;
  }

  /** At a terminal step both the bootstrap and the carried advantage vanish. */
  lemma GaeAtTerminal(r: seq<real>, v: seq<real>, final: real, d: seq<real>, gamma: real, lambda: real, t: nat)
    requires |v| == |r| && |d| == |r| && t < |r|
    requires d[t] == 1.0
    ensures Gae(r, v, final, d, gamma, lambda, t) == r[t] - v[t]
  {
  }

  /** With λ = 0 every advantage is the one-step TD error. */
  lemma GaeLambdaZero(r: seq<real>, v: seq<real>, final: real, d: seq<real>, gamma: real, t: nat)
    requires |v| == |r| && |d| == |r| && t < |r|
    ensures Gae(r, v, final, d, gamma, 0.0, t) == TdError(r, v, final, d, gamma, t)
  {
  }

  /** GAE is the (γλ)-discounted, terminal-masked sum of the TD errors from t
      to the end of the window (Schulman et al.'s estimator). */
  lemma {:induction false} GaeIsDiscountedTdSum(r: seq<real>, v: seq<real>, final: real, d: seq<real>,
                                               gamma: real, lambda: real, t: nat)
    requires |v| == |r| && |d| == |r| && t < |r|
    ensures Gae(r, v, final, d, gamma, lambda, t)
         == RewardSum(TdErrors(r, v, final, d, gamma), d, Const(|r|, gamma * lambda), t, |r| - t)
    decreases |r| - t
  {
    var deltas := TdErrors(r, v, final, d, gamma);
    var g := Const(|r|, gamma * lambda);
    RewardSumPeel(deltas, d, g, t, |r| - t - 1);
    if t < |r| - 1 {
      GaeIsDiscountedTdSum(r, v, final, d, gamma, lambda, t + 1);
    }
  }

  /** With λ = 1, advantage plus value is the bootstrapped return under the
      same γ; the caller forms its value targets exactly this way. */
  lemma {:induction false} GaeLambdaOneIsReturn(r: seq<real>, v: seq<real>, final: real, d: seq<real>,
                                               gamma: real, t: nat)
    requires |v| == |r| && |d| == |r| && t < |r|
    ensures Gae(r, v, final, d, gamma, 1.0, t) + v[t] == BootstrappedReturn(r, d, Const(|r|, gamma), final, t)
    decreases |r| - t
  {
    if t < |r| - 1 {
      GaeLambdaOneIsReturn(r, v, final, d, gamma, t + 1);
    }
  }
}
