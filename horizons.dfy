/** Horizon sets for the truncated value heads (rl/rollout.py:
    `Runner.generate_horizon_sample`, `Runner.get_standard_horizon_sample`,
    `expand_to_na`, `expand_to_h`).

    Values drawn by numpy's random generator, and the irrational points of
    `np.geomspace`, are nondeterministic choices restricted to the range
    numpy guarantees for them; `np.linspace` is exact. */
module Horizons {
  import opened Common
  import opened Sorting

  datatype Distribution =
    | FixedLinear
    | FixedGeometric
    | Linear
    | Geometric
    | SaturatedGeometric
    | SaturatedFixedGeometric

  function DistributionName(d: Distribution): string
  {
    match d
    case FixedLinear => "fixed_linear"
    case FixedGeometric => "fixed_geometric"
    case Linear => "linear"
    case Geometric => "geometric"
    case SaturatedGeometric => "saturated_geometric"
    case SaturatedFixedGeometric => "saturated_fixed_geometric"
  }

  /** The `if/elif` chain on the distribution name; None is the final `else`. */
  function ParseDistribution(name: string): Option<Distribution>
  {
    if name == "fixed_linear" then Some(FixedLinear)
    else if name == "fixed_geometric" then Some(FixedGeometric)
    else if name == "linear" then Some(Linear)
    else if name == "geometric" then Some(Geometric)
    else if name == "saturated_geometric" then Some(SaturatedGeometric)
    else if name == "saturated_fixed_geometric" then Some(SaturatedFixedGeometric)
    else None
  }

  /** The names accepted are exactly the six distribution names. */
  lemma ParseDistributionNames(name: string, d: Distribution)
    ensures ParseDistribution(DistributionName(d)) == Some(d)
    ensures ParseDistribution(name) == Some(d) <==> name == DistributionName(d)
  {
  }

  datatype HorizonError =
    | InvalidDistribution(name: string)  // the `Exception(f"Invalid distribution ...")`
    | NegativeSize                       // numpy refuses a negative number of samples
    | LargerThanPopulation               // `np.random.choice(..., replace=False)` asked for too many
    | EmptyIndex                         // `samples[0] = 0` on an empty array

  /** `np.arange(0, n)`. */
  function Arange(n: int): (r: seq<int>)
    ensures |r| == if n > 0 then n else 0
    ensures forall i :: 0 <= i < |r| ==> r[i] == i
    decreases n
  {
    if n <= 0 then [] else Arange(n - 1) + [n - 1]
  }

  /** The saturated variants draw `samples // 2` points twice. */
  function SampleCount(d: Distribution, samples: nat): nat
  {
    if d == SaturatedGeometric || d == SaturatedFixedGeometric then 2 * (samples / 2) else samples
  }

  predicate Within(xs: seq<real>, lo: real, hi: real)
  {
    forall i :: 0 <= i < |xs| ==> lo <= xs[i] <= hi
  }

  /** `np.linspace(0, max_value, num=num, endpoint=True)`. */
  function Linspace(maxValue: int, num: nat): (xs: seq<real>)
    ensures |xs| == num
  {
    if num == 1 then [0.0]
    else seq(num, i requires 0 <= i < num => i as real * maxValue as real / (num - 1) as real)
  }

  /** `np.geomspace(1, 1 + top, num, endpoint) - 1` as far as it is pinned
      down: points in [0, top], the first exactly 0 and, with the endpoint,
      the last exactly top. */
  predicate GeomspaceLike(xs: seq<real>, num: nat, top: real, endpoint: bool)
  {
    && |xs| == num
    && Within(xs, 0.0, top)
    && (num >= 1 ==> xs[0] == 0.0)
    && (endpoint && num >= 2 ==> xs[num - 1] == top)
  }

  /** What each distribution may yield before sorting. */
  predicate Drawn(d: Distribution, n: nat, maxValue: int, samples: nat, xs: seq<real>)
  {
    var m := maxValue as real;
    var sat := (if n <= maxValue then n else maxValue) as real;
    var half := samples / 2;
    match d
    case FixedLinear => xs == Linspace(maxValue, samples)
    case FixedGeometric => GeomspaceLike(xs, samples, m, true)
    case Linear =>
      // `np.random.choice(range(1, max_value), size=samples, replace=False)`
      && |xs| == samples
      && (forall i :: 0 <= i < |xs| ==> xs[i].Floor as real == xs[i] && 1.0 <= xs[i] <= m - 1.0)
      && (forall i, j :: 0 <= i < j < |xs| ==> xs[i] != xs[j])
    case Geometric =>
      // `exp(uniform(log 1, log(max_value + 1))) - 1`
      |xs| == samples && Within(xs, 0.0, m)
    case SaturatedGeometric =>
      && |xs| == 2 * half
      && Within(xs[..half], 0.0, sat)
      && Within(xs[half..], 0.0, m)
    case SaturatedFixedGeometric =>
      && |xs| == 2 * half
      && GeomspaceLike(xs[..half], half, sat, false)
      && GeomspaceLike(xs[half..], half, m, true)
  }

  /** Zeros with the top value last: a geometric-like draw exists. */
  function GeomWitness(num: nat, top: real): (xs: seq<real>)
    requires top >= 0.0
    ensures GeomspaceLike(xs, num, top, true) && GeomspaceLike(xs, num, top, false)
  {
    if num == 0 then [] else if num == 1 then [0.0] else [0.0] + seq(num - 2, _ => 0.0) + [top]
  }

  /** The random generator (or `np.geomspace`) at work. */
  method Draw(d: Distribution, n: nat, maxValue: int, samples: nat) returns (xs: seq<real>)
    requires samples <= maxValue
    requires d == Linear && samples > 0 ==> samples <= maxValue - 1
    ensures Drawn(d, n, maxValue, samples, xs)
  {
    var m := maxValue as real;
    var sat := (if n <= maxValue then n else maxValue) as real;
    var half := samples / 2;
    match d {
      case FixedLinear =>
        xs := Linspace(maxValue, samples);
      case FixedGeometric =>
        var w := GeomWitness(samples, m);
        xs :| GeomspaceLike(xs, samples, m, true);
      case Linear =>
        var w := seq(samples, i requires 0 <= i < samples => (i + 1) as real);
        assert forall i :: 0 <= i < |w| ==> w[i].Floor as real == w[i] && 1.0 <= w[i] <= m - 1.0;
        xs :| && |xs| == samples
              && (forall i :: 0 <= i < |xs| ==> xs[i].Floor as real == xs[i] && 1.0 <= xs[i] <= m - 1.0)
              && (forall i, j :: 0 <= i < j < |xs| ==> xs[i] != xs[j]);
      case Geometric =>
        var w := seq(samples, _ => 0.0);
        assert Within(w, 0.0, m);
        xs :| |xs| == samples && Within(xs, 0.0, m);
      case SaturatedGeometric =>
        var w := seq(2 * half, _ => 0.0);
        assert Within(w[..half], 0.0, sat) && Within(w[half..], 0.0, m);
        xs :| && |xs| == 2 * half
              && Within(xs[..half], 0.0, sat)
              && Within(xs[half..], 0.0, m);
      case SaturatedFixedGeometric =>
        var w1, w2 := GeomWitness(half, sat), GeomWitness(half, m);
        assert (w1 + w2)[..half] == w1 && (w1 + w2)[half..] == w2;
        xs :| && |xs| == 2 * half
              && GeomspaceLike(xs[..half], half, sat, false)
              && GeomspaceLike(xs[half..], half, m, true);
    }
  }

  /** Every draw has the expected length and lies in [0, max_value]. */
  lemma DrawnShape(d: Distribution, n: nat, maxValue: int, samples: nat, xs: seq<real>)
    requires samples <= maxValue
    requires Drawn(d, n, maxValue, samples, xs)
    ensures |xs| == SampleCount(d, samples)
    ensures Within(xs, 0.0, maxValue as real)
  {
    var m := maxValue as real;
    var sat := (if n <= maxValue then n else maxValue) as real;
    match d {
      case FixedLinear =>
        forall i | 0 <= i < |xs|
          ensures 0.0 <= xs[i] <= m
        {
          if samples >= 2 {
            LinspaceAt(maxValue, samples, i);
          }
        }
      case FixedGeometric =>
      case Linear =>
      case Geometric =>
      case SaturatedGeometric =>
        WithinHalves(xs, samples / 2, sat, m);
      case SaturatedFixedGeometric =>
        WithinHalves(xs, samples / 2, sat, m);
    }
  }

  lemma WithinHalves(xs: seq<real>, half: nat, lo: real, hi: real)
    requires half <= |xs| && 0.0 <= lo <= hi
    requires Within(xs[..half], 0.0, lo) && Within(xs[half..], 0.0, hi)
    ensures Within(xs, 0.0, hi)
  {
    forall i | 0 <= i < |xs|
      ensures 0.0 <= xs[i] <= hi
    {
      if i < half {
        assert xs[i] == xs[..half][i];
      } else {
        assert xs[i] == xs[half..][i - half];
      }
    }
  }

  lemma MulMonotone(a: real, b: real, c: real)
    requires a <= b && c >= 0.0
    ensures a * c <= b * c
  {
  }

  lemma DivMonotone(a: real, b: real, c: real)
    requires a <= b && c > 0.0
    ensures a / c <= b / c
  {
    assert b / c - a / c == (b - a) / c;
  }

  /** Point i of the linspace lies between 0 and max_value, rising with i. */
  lemma LinspaceAt(maxValue: int, num: nat, i: nat)
    requires num >= 2 && i < num && maxValue >= 0
    ensures 0.0 <= Linspace(maxValue, num)[i] <= maxValue as real
    ensures i == 0 ==> Linspace(maxValue, num)[i] == 0.0
    ensures i == num - 1 ==> Linspace(maxValue, num)[i] == maxValue as real
  {
    PointBounds(i as real, maxValue as real, (num - 1) as real);
  }

  /** i·m/d for 0 <= i <= d lies in [0, m], is 0 at i = 0 and m at i = d. */
  lemma PointBounds(i: real, m: real, d: real)
    requires 0.0 <= i <= d && d > 0.0 && m >= 0.0
    ensures 0.0 <= i * m / d <= m
    ensures i == 0.0 ==> i * m / d == 0.0
    ensures i == d ==> i * m / d == m
  {
    MulMonotone(0.0, i, m);
    MulMonotone(i, d, m);
    DivMonotone(0.0, i * m, d);
    DivMonotone(i * m, d * m, d);
    assert d * m / d == m;
  }

  lemma LinspaceSorted(maxValue: int, num: nat)
    requires maxValue >= 0
    ensures SortedBy(Linspace(maxValue, num), RealLe)
  {
    if num >= 2 {
      var xs := Linspace(maxValue, num);
      forall i, j | 0 <= i < j < num
        ensures xs[i] <= xs[j]
      {
        MulMonotone(i as real, j as real, maxValue as real);
        DivMonotone(i as real * maxValue as real, j as real * maxValue as real, (num - 1) as real);
      }
    }
  }

  predicate NondecreasingInts(r: seq<int>)
  {
    forall i, j :: 0 <= i < j < |r| ==> r[i] <= r[j]
  }

  /** `np.rint(samples).astype(int)`. */
  function Rint(xs: seq<real>): (r: seq<int>)
    ensures |r| == |xs|
  {
    seq(|xs|, i requires 0 <= i < |xs| => RoundHalfEven(xs[i]))
  }

  /** Rounding keeps the order and the integer bounds. */
  lemma RintKeepsOrder(xs: seq<real>, maxValue: int)
    requires SortedBy(xs, RealLe) && Within(xs, 0.0, maxValue as real)
    ensures NondecreasingInts(Rint(xs))
    ensures forall i :: 0 <= i < |xs| ==> 0 <= Rint(xs)[i] <= maxValue
  {
    var r := Rint(xs);
    forall i, j | 0 <= i < j < |xs|
      ensures r[i] <= r[j]
    {
      RoundMonotone(xs[i], xs[j]);
    }
    forall i | 0 <= i < |xs|
      ensures 0 <= r[i] <= maxValue
    {
      RoundMonotone(0.0, xs[i]);
      RoundMonotone(xs[i], maxValue as real);
      RoundOfInt(0);
      RoundOfInt(maxValue);
    }
  }

  /** After sorting, `samples[0] = 0` and `samples[-1] = max_value`. */
  function Force(s: seq<real>, maxValue: int): (r: seq<real>)
    requires |s| >= 1
  {
    s[0 := 0.0][|s| - 1 := maxValue as real]
  }

  lemma ForceKeepsOrder(s: seq<real>, maxValue: int)
    requires |s| >= 1 && SortedBy(s, RealLe) && Within(s, 0.0, maxValue as real)
    ensures SortedBy(Force(s, maxValue), RealLe) && Within(Force(s, maxValue), 0.0, maxValue as real)
    ensures Force(s, maxValue)[|s| - 1] == maxValue as real
    ensures |s| >= 2 ==> Force(s, maxValue)[0] == 0.0
  {
    var r := Force(s, maxValue);
    var m := maxValue as real;
    assert forall i :: 0 <= i < |s| ==> r[i] == if i == |s| - 1 then m else if i == 0 then 0.0 else s[i];
    forall i, j | 0 <= i < j < |r|
      ensures r[i] <= r[j]
    {
      assert RealLe(s[i], s[j]);
    }
  }

  /** Sorting keeps the bounds of the draw. */
  lemma SortKeepsWithin(xs: seq<real>, lo: real, hi: real)
    requires Within(xs, lo, hi)
    ensures Within(Sort(xs, RealLe), lo, hi)
  {
    SortSameElements(xs, RealLe);
    var s := Sort(xs, RealLe);
    forall i | 0 <= i < |s|
      ensures lo <= s[i] <= hi
    {
      assert s[i] in xs;
    }
  }

  /** The exact sample `fixed_linear` yields for at least two samples. */
  function FixedLinearSample(maxValue: int, samples: nat): seq<int>
  {
    Rint(Linspace(maxValue, samples))
  }

  /** Sorting, then (when forced) pinning the first and last entries. */
  function Finish(xs: seq<real>, maxValue: int, force: bool): (r: seq<real>)
    requires force ==> |xs| >= 1
  {
    var s := Sort(xs, RealLe);
    if force then Force(s, maxValue) else s
  }

  /** What every drawn sample looks like once it is returned. */
  predicate SampleShape(r: seq<int>, count: nat, maxValue: int, force: bool)
  {
    && |r| == count
    && NondecreasingInts(r)
    && (forall i :: 0 <= i < |r| ==> 0 <= r[i] <= maxValue)
    && (force ==> |r| >= 1 && r[|r| - 1] == maxValue)
    && (force && |r| >= 2 ==> r[0] == 0)
  }

  lemma FinishShape(xs: seq<real>, maxValue: int, force: bool)
    requires force ==> |xs| >= 1
    requires Within(xs, 0.0, maxValue as real)
    ensures SampleShape(Rint(Finish(xs, maxValue, force)), |xs|, maxValue, force)
  {
    RealLeTotal();
    SortSorted(xs, RealLe);
    SortKeepsWithin(xs, 0.0, maxValue as real);
    var s := Sort(xs, RealLe);
    if force {
      ForceKeepsOrder(s, maxValue);
      RoundOfInt(0);
      RoundOfInt(maxValue);
    }
    RintKeepsOrder(Finish(xs, maxValue, force), maxValue);
  }

  /** The fixed linear points are already sorted and already end at 0 and max_value. */
  lemma FixedLinearFinish(maxValue: int, samples: nat, force: bool)
    requires 2 <= samples <= maxValue
    ensures Finish(Linspace(maxValue, samples), maxValue, force) == Linspace(maxValue, samples)
  {
    var xs := Linspace(maxValue, samples);
    LinspaceSorted(maxValue, samples);
    SortOfSorted(xs, RealLe);
    if force {
      LinspaceAt(maxValue, samples, 0);
      LinspaceAt(maxValue, samples, samples - 1);
      ForceFixes(xs, maxValue);
    }
  }

  /** Pinning changes nothing when the ends are already 0 and max_value. */
  lemma ForceFixes(s: seq<real>, maxValue: int)
    requires |s| >= 1 && s[0] == 0.0 && s[|s| - 1] == maxValue as real
    ensures Force(s, maxValue) == s
  {
  }

  /** One distribution, once the sample count is known to be usable. */
  method SampleDistribution(d: Distribution, n: nat, maxValue: int, samples: nat, forceFirstAndLast: bool)
    returns (res: Result<seq<int>, HorizonError>)
    requires samples <= maxValue
    ensures d == Linear && samples == maxValue >= 1 ==> res == Err(LargerThanPopulation)
    ensures forceFirstAndLast && SampleCount(d, samples) == 0 ==> res == Err(EmptyIndex)
    ensures res.Err? ==> (d == Linear && samples == maxValue >= 1) || (forceFirstAndLast && SampleCount(d, samples) == 0)
    ensures res.Ok? ==> SampleShape(res.value, SampleCount(d, samples), maxValue, forceFirstAndLast)
    ensures d == FixedLinear && samples >= 2 ==> res == Ok(FixedLinearSample(maxValue, samples))
  {
    if d == Linear && samples > 0 && samples > maxValue - 1 {
      return Err(LargerThanPopulation);
    }
    var xs := Draw(d, n, maxValue, samples);
    DrawnShape(d, n, maxValue, samples, xs);
    var sorted := Sort(xs, RealLe);
    if forceFirstAndLast {
      if |sorted| == 0 {
        return Err(EmptyIndex);
      }
      sorted := Force(sorted, maxValue);
    }
    assert sorted == Finish(xs, maxValue, forceFirstAndLast);
    FinishShape(xs, maxValue, forceFirstAndLast);
    if d == FixedLinear && samples >= 2 {
      FixedLinearFinish(maxValue, samples, forceFirstAndLast);
    }
    return Ok(Rint(sorted));
  }

  /** The argument shapes that reach the distributions: not the
      "all horizons" shortcut. */
  predicate Plain(maxValue: int, samples: int)
  {
    !(samples == -1 || samples >= maxValue + 1)
  }

  /** `Runner.generate_horizon_sample`. N is the rollout length (a count). */
  method GenerateHorizonSample(n: nat, maxValue: int, samples: int, distribution: string, forceFirstAndLast: bool)
    returns (res: Result<seq<int>, HorizonError>)
    // every horizon 0..max_value when asked for all of them or more
    ensures !Plain(maxValue, samples) ==> res == Ok(Arange(maxValue + 1))
    // the error cases
    ensures
      (Plain(maxValue, samples) && ParseDistribution(distribution).None?)
      ==> res == Err(InvalidDistribution(distribution))
    ensures
      (Plain(maxValue, samples) && ParseDistribution(distribution).Some? && samples < 0)
      ==> res == Err(NegativeSize)
    ensures
      (Plain(maxValue, samples) && ParseDistribution(distribution) == Some(Linear) && samples == maxValue >= 1)
      ==> res == Err(LargerThanPopulation)
    ensures
      (Plain(maxValue, samples) && ParseDistribution(distribution).Some? && samples >= 0
       && forceFirstAndLast && SampleCount(ParseDistribution(distribution).value, samples) == 0)
      ==> res == Err(EmptyIndex)
    // no other error
    ensures
      (Plain(maxValue, samples) && res.Err?)
      ==> || ParseDistribution(distribution).None?
          || samples < 0
          || (ParseDistribution(distribution) == Some(Linear) && samples == maxValue >= 1)
          || (forceFirstAndLast && SampleCount(ParseDistribution(distribution).value, samples) == 0)
    // the shape of a sample
    ensures
      (Plain(maxValue, samples) && res.Ok?)
      ==> && samples >= 0 && ParseDistribution(distribution).Some?
          && SampleShape(res.value, SampleCount(ParseDistribution(distribution).value, samples), maxValue, forceFirstAndLast)
    ensures
      (Plain(maxValue, samples) && ParseDistribution(distribution) == Some(FixedLinear) && samples >= 2)
      ==> res == Ok(FixedLinearSample(maxValue, samples))
  {
    if samples == -1 || samples >= maxValue + 1 {
      return Ok(Arange(maxValue + 1));
    }
    var dist := ParseDistribution(distribution);
    if dist.None? {
      return Err(InvalidDistribution(distribution));
    }
    if samples < 0 {
      return Err(NegativeSize);
    }
    res := SampleDistribution(dist.value, n, maxValue, samples, forceFirstAndLast);
  }

  /** Five fixed-linear horizons up to 100 are evenly spaced. */
  lemma FixedLinearScenario()
    ensures FixedLinearSample(100, 5) == [0, 25, 50, 75, 100]
  {
    var xs := Linspace(100, 5);
    assert xs == [0.0, 25.0, 50.0, 75.0, 100.0];
    RoundOfInt(0);
    RoundOfInt(25);
    RoundOfInt(50);
    RoundOfInt(75);
    RoundOfInt(100);
  }

  // ---------------------------------------------------------------------
  // The standard horizon ladder

  /** The approximately geometric horizons offered up to 30000. */
  const Ladder: seq<int> := [1, 3, 10, 30, 100, 300, 1000, 3000, 10000, 30000]

  const MaxStandardHorizon: int := 30000

  /** The comprehension `[h for h in ladder if h <= max_horizon]`. */
  function UpTo(ladder: seq<int>, maxHorizon: int): (r: seq<int>)
    ensures forall x :: x in r <==> x in ladder && x <= maxHorizon
    ensures |r| <= |ladder|
    ensures ladder != [] && ladder[0] <= maxHorizon ==> r != [] && r[0] == ladder[0]
  {
    if ladder == [] then []
    else
      assert ladder == [ladder[0]] + ladder[1..];
      if ladder[0] <= maxHorizon then [ladder[0]] + UpTo(ladder[1..], maxHorizon)
      else UpTo(ladder[1..], maxHorizon)
  }

  predicate Increasing(s: seq<int>)
  {
    forall i, j :: 0 <= i < j < |s| ==> s[i] < s[j]
  }

  lemma {:induction false} UpToIncreasing(ladder: seq<int>, maxHorizon: int)
    requires Increasing(ladder)
    ensures Increasing(UpTo(ladder, maxHorizon))
  {
    if ladder != [] {
      assert Increasing(ladder[1..]);
      UpToIncreasing(ladder[1..], maxHorizon);
      var rest := UpTo(ladder[1..], maxHorizon);
      forall j | 0 <= j < |rest|
        ensures ladder[0] < rest[j]
      {
        assert rest[j] in rest;
        var k :| 0 <= k < |ladder[1..]| && ladder[1..][k] == rest[j];
        assert ladder[1..][k] == ladder[k + 1];
      }
      if ladder[0] <= maxHorizon {
        var r := [ladder[0]] + rest;
        forall i, j | 0 <= i < j < |r|
          ensures r[i] < r[j]
        {
          assert r[j] == rest[j - 1];
          if i > 0 {
            assert r[i] == rest[i - 1];
          }
        }
      }
    }
  }

  /** The ladder's horizons up to m, then m itself unless it is already there. */
  function WithMax(ladder: seq<int>, m: int): seq<int>
  {
    var up := UpTo(ladder, m);
    if m in up then up else up + [m]
  }

  /** For any increasing ladder the list rises strictly, ends at m, starts
      with the ladder's first horizon when that is at most m, and holds
      exactly the ladder's horizons up to m together with m. */
  lemma WithMaxShape(ladder: seq<int>, m: int)
    requires Increasing(ladder)
    ensures var hs := WithMax(ladder, m);
      && Increasing(hs)
      && 1 <= |hs| <= |ladder| + 1
      && hs[|hs| - 1] == m
      && (ladder != [] && ladder[0] <= m ==> hs[0] == ladder[0])
      && (forall x :: x in hs <==> (x in ladder && x <= m) || x == m)
  {
    UpToIncreasing(ladder, m);
    var up := UpTo(ladder, m);
    if m in up {
      var k :| 0 <= k < |up| && up[k] == m;
      assert up[|up| - 1] in up;
    } else {
      var hs := up + [m];
      forall i, j | 0 <= i < j < |hs|
        ensures hs[i] < hs[j]
      {
        if j == |up| {
          assert up[i] in up;
        }
      }
    }
  }

  /** `Runner.get_standard_horizon_sample` outside the fixed-heads mode. */
  function StandardHorizonSample(maxHorizon: int): Result<seq<int>, string>
  {
    if maxHorizon > MaxStandardHorizon then Err("AssertionError: horizons over 30k not yet supported.")
    else Ok(WithMax(Ladder, maxHorizon))
  }

  /** The horizons rise strictly, end at max_horizon, start at 1 when
      max_horizon is positive, and are exactly the ladder's horizons up to
      max_horizon together with max_horizon itself. */
  lemma StandardHorizonSampleShape(maxHorizon: int)
    requires maxHorizon <= MaxStandardHorizon
    ensures StandardHorizonSample(maxHorizon).Ok?
    ensures var hs := StandardHorizonSample(maxHorizon).value;
      && Increasing(hs)
      && 1 <= |hs| <= |Ladder| + 1
      && hs[|hs| - 1] == maxHorizon
      && (maxHorizon >= 1 ==> hs[0] == 1)
      && (forall x :: x in hs <==> (x in Ladder && x <= maxHorizon) || x == maxHorizon)
  {
    assert Increasing(Ladder);
    WithMaxShape(Ladder, maxHorizon);
  }

  /** Over 30000 the source's assertion fails. */
  lemma StandardHorizonSampleTooLarge(maxHorizon: int)
    requires maxHorizon > MaxStandardHorizon
    ensures StandardHorizonSample(maxHorizon).Err?
  {
  }

  // ---------------------------------------------------------------------
  // Broadcasting helpers

  /** `np.repeat(s, k, axis=0)`: each entry k times in a row. */
  function RepeatEach<T>(s: seq<T>, k: nat): (r: seq<T>)
    ensures |r| == |s| * k
    ensures forall i :: 0 <= i < |r| ==> r[i] in s
  {
    if s == [] then []
    else
      var rest := RepeatEach(s[1..], k);
      assert |rest| + k == |s| * k by { assert |s[1..]| * k + k == (|s[1..]| + 1) * k; }
      seq(k, _ => s[0]) + rest
  }

  /** A single entry repeated k times. */
  lemma RepeatSingleton<T>(v: T, k: nat)
    ensures RepeatEach([v], k) == seq(k, _ => v)
  {
    assert [v][1..] == [];
  }

  /** `expand_to_na(n, a, x)`: x as a [1, 1, |x|] block, repeated n times
      along axis 0 and then a times along axis 1. */
  function ExpandToNa<T>(n: nat, a: nat, x: seq<T>): (r: seq<seq<seq<T>>>)
  {
    var y := RepeatEach([[x]], n);
    seq(|y|, i requires 0 <= i < |y| => RepeatEach(y[i], a))
  }

  /** `expand_to_h(h, x)`: the 2-d x given a last axis of length 1, repeated
      h times along it. */
  function ExpandToH<T>(h: nat, x: seq<seq<T>>): (r: seq<seq<seq<T>>>)
  {
    seq(|x|, i requires 0 <= i < |x| => seq(|x[i]|, j requires 0 <= j < |x[i]| => RepeatEach([x[i][j]], h)))
  }

  /** Every [i, j] slice of expand_to_na is x, and the block has shape [n, a]. */
  lemma ExpandToNaSlices<T>(n: nat, a: nat, x: seq<T>)
    ensures var r := ExpandToNa(n, a, x);
      && |r| == n
      && (forall i :: 0 <= i < n ==> |r[i]| == a)
      && (forall i, j :: 0 <= i < n && 0 <= j < a ==> r[i][j] == x)
  {
    RepeatSingleton([x], n);
    RepeatSingleton(x, a);
  }

  /** The k-th layer along the new axis of expand_to_h is x again. */
  function LayerH<T>(y: seq<seq<seq<T>>>, k: nat): seq<seq<T>>
    requires forall i, j :: 0 <= i < |y| && 0 <= j < |y[i]| ==> k < |y[i][j]|
  {
    seq(|y|, i requires 0 <= i < |y| => seq(|y[i]|, j requires 0 <= j < |y[i]| => y[i][j][k]))
  }

  lemma ExpandToHLayers<T>(h: nat, x: seq<seq<T>>, k: nat)
    requires k < h
    ensures forall i, j :: 0 <= i < |x| && 0 <= j < |x[i]| ==> |ExpandToH(h, x)[i][j]| == h
    ensures LayerH(ExpandToH(h, x), k) == x
  {
    var y := ExpandToH(h, x);
    forall i, j | 0 <= i < |x| && 0 <= j < |x[i]|
      ensures y[i][j] == seq(h, _ => x[i][j])
    {
      RepeatSingleton(x[i][j], h);
    }
    var l := LayerH(y, k);
    forall i | 0 <= i < |x|
      ensures l[i] == x[i]
    {
    }
  }
}
