/** The numeric and parsing helpers of src/utils.py: `str2bool`, `prod`,
    `smooth`, `safe_mean`, `safe_round` and the dynamic-time-warping
    distance `dtw`. Floats are reals; `mse` between two frames is an
    abstract cost function supplied by the caller. */
module Utils {
  import opened Common

  // ---------------------------------------------------------------------
  // str2bool

  /** The argument of `str2bool`: already a bool, or text from the command line. */
  datatype BoolArg = BoolValue(b: bool) | Text(s: string)

  const TrueWords: seq<string> := ["yes", "true", "t", "y", "1"]
  const FalseWords: seq<string> := ["no", "false", "f", "n", "0"]

  const BoolExpected: string := "argparse.ArgumentTypeError: Boolean value expected."

  function Str2Bool(v: BoolArg): Result<bool, string>
  {
    match v
    case BoolValue(b) => Ok(b)
    case Text(s) =>
      if Lower(s) in TrueWords then Ok(true)
      else if Lower(s) in FalseWords then Ok(false)
      else Err(BoolExpected)
  }

  /** A bool passes unchanged; text is true for exactly the five yes-words,
      false for exactly the five no-words (after lower-casing) and refused
      otherwise. */
  lemma Str2BoolCases(v: BoolArg)
    ensures v.BoolValue? ==> Str2Bool(v) == Ok(v.b)
    ensures v.Text? ==> (Str2Bool(v) == Ok(true) <==> Lower(v.s) in TrueWords)
    ensures v.Text? ==> (Str2Bool(v) == Ok(false) <==> Lower(v.s) in FalseWords)
    ensures v.Text? ==> (Str2Bool(v).Err? <==> Lower(v.s) !in TrueWords && Lower(v.s) !in FalseWords)
  {
  }

  /** Upper and lower case spell the same answer. */
  lemma Str2BoolIgnoresCase(s: string)
    ensures Str2Bool(Text(Lower(s))) == Str2Bool(Text(s))
  {
    LowerIdempotent(s);
  }

  // ---------------------------------------------------------------------
  // prod

  /** The product of a sequence, 1 for the empty one. */
  function Product(s: seq<int>): int
  {
    if s == [] then 1 else Product(s[..|s| - 1]) * s[|s| - 1]
  }

  /** `prod(X)`: the accumulator loop. */
  method Prod(xs: seq<int>) returns (y: int)
    ensures y == Product(xs)
  {
    y := 1;
    var i := 0;
    while i < |xs|
      invariant 0 <= i <= |xs|
      invariant y == Product(xs[..i])
    {
      assert xs[..i + 1][..i] == xs[..i];
      y := y * xs[i];
      i := i + 1;
    }
    assert xs[..i] == xs;
  }

  /** The product of a concatenation is the product of the parts. */
  lemma {:induction false} ProductAppend(a: seq<int>, b: seq<int>)
    ensures Product(a + b) == Product(a) * Product(b)
    decreases |b|
  {
    if b != [] {
      var b', x := b[..|b| - 1], b[|b| - 1];
      assert (a + b)[..|a + b| - 1] == a + b';
      ProductAppend(a, b');
      assert Product(a + b) == Product(a + b') * x;
      assert Product(b) == Product(b') * x;
      assert Product(a) * Product(b') * x == Product(a) * (Product(b') * x);
    } else {
      assert a + b == a;
    }
  }

  lemma ProductExamples()
    ensures Product([]) == 1
    ensures Product([2, 3, 4]) == 24
  {
    assert [2, 3, 4][..2] == [2, 3];
    assert [2, 3][..1] == [2];
    assert [2][..0] == [];
  }

  // ---------------------------------------------------------------------
  // smooth

  function SmoothStep(x: real, alpha: real, y: real): real
  {
    (1.0 - alpha) * x + alpha * y
  }

  function LastOr(s: seq<real>, d: real): real
  {
    if s == [] then d else s[|s| - 1]
  }

  /** The smoothed series started from y0: each entry mixes the next input
      with the previous entry (y0 before the first). */
  function Smoothed(xs: seq<real>, alpha: real, y0: real): (r: seq<real>)
    ensures |r| == |xs|
  {
    if xs == [] then []
    else
      var p := Smoothed(xs[..|xs| - 1], alpha, y0);
      p + [SmoothStep(xs[|xs| - 1], alpha, LastOr(p, y0))]
  }

  const EmptyIndex: string := "IndexError: list index out of range"

  /** `smooth(X, alpha)`; an empty X fails on `X[0]`. */
  method Smooth(xs: seq<real>, alpha: real) returns (res: Result<seq<real>, string>)
    ensures xs == [] ==> res == Err(EmptyIndex)
    ensures xs != [] ==> res == Ok(Smoothed(xs, alpha, xs[0]))
  {
    if |xs| == 0 {
      return Err(EmptyIndex);
    }
    var y := xs[0];
    var results: seq<real> := [];
    var i := 0;
    while i < |xs|
      invariant 0 <= i <= |xs|
      invariant results == Smoothed(xs[..i], alpha, xs[0])
      invariant y == LastOr(results, xs[0])
    {
      assert xs[..i + 1][..i] == xs[..i];
      y := SmoothStep(xs[i], alpha, y);
      results := results + [y];
      i := i + 1;
    }
    assert xs[..i] == xs;
    return Ok(results);
  }

  /** The smoothed series of a prefix is the prefix of the smoothed series. */
  lemma {:induction false} SmoothedPrefix(xs: seq<real>, alpha: real, y0: real, k: nat)
    requires k <= |xs|
    ensures Smoothed(xs[..k], alpha, y0) == Smoothed(xs, alpha, y0)[..k]
    decreases |xs|
  {
    if k < |xs| {
      var init := xs[..|xs| - 1];
      assert init[..k] == xs[..k];
      SmoothedPrefix(init, alpha, y0, k);
    } else {
      assert xs[..k] == xs;
    }
  }

  /** Entry k of the smoothed series mixes input k with the last entry of
      the series of the first k inputs. */
  lemma SmoothedAt(xs: seq<real>, alpha: real, y0: real, k: nat)
    requires k < |xs|
    ensures Smoothed(xs, alpha, y0)[k] == SmoothStep(xs[k], alpha, LastOr(Smoothed(xs[..k], alpha, y0), y0))
  {
    SmoothedPrefix(xs, alpha, y0, k + 1);
    var q := xs[..k + 1];
    assert q[..|q| - 1] == xs[..k];
  }

  /** The first output equals the first input, and each later output is
      (1 - alpha)·x + alpha·(previous output). */
  lemma SmoothShape(xs: seq<real>, alpha: real)
    requires xs != []
    ensures var r := Smoothed(xs, alpha, xs[0]);
      && r[0] == xs[0]
      && (forall k :: 1 <= k < |xs| ==> r[k] == SmoothStep(xs[k], alpha, r[k - 1]))
  {
    var y0 := xs[0];
    var r := Smoothed(xs, alpha, y0);
    SmoothedAt(xs, alpha, y0, 0);
    assert xs[..0] == [];
    SmoothFixed(xs[0], alpha);
    forall k | 1 <= k < |xs|
      ensures r[k] == SmoothStep(xs[k], alpha, r[k - 1])
    {
      SmoothedAt(xs, alpha, y0, k);
      SmoothedPrefix(xs, alpha, y0, k);
      assert LastOr(Smoothed(xs[..k], alpha, y0), y0) == r[k - 1];
    }
  }

  lemma SmoothFixed(x: real, alpha: real)
    ensures SmoothStep(x, alpha, x) == x
  {
  }

  predicate Between(x: real, lo: real, hi: real)
  {
    lo <= x <= hi
  }

  lemma ConvexStep(x: real, y: real, alpha: real, lo: real, hi: real)
    requires 0.0 <= alpha <= 1.0 && Between(x, lo, hi) && Between(y, lo, hi)
    ensures Between(SmoothStep(x, alpha, y), lo, hi)
  {
    var beta := 1.0 - alpha;
    var u, v := beta * x, alpha * y;
    ScaleBetween(beta, x, lo, hi);
    ScaleBetween(alpha, y, lo, hi);
    assert beta * lo + alpha * lo == lo;
    assert beta * hi + alpha * hi == hi;
    assert lo <= u + v <= hi;
  }

  lemma ScaleBetween(c: real, x: real, lo: real, hi: real)
    requires c >= 0.0 && Between(x, lo, hi)
    ensures Between(c * x, c * lo, c * hi)
  {
    assert c * (x - lo) >= 0.0 && c * (hi - x) >= 0.0;
  }

  /** With 0 <= alpha <= 1 the smoothed series never leaves the range of its
      inputs (and of its start value). */
  lemma {:induction false} SmoothedBounded(xs: seq<real>, alpha: real, y0: real, lo: real, hi: real)
    requires 0.0 <= alpha <= 1.0 && Between(y0, lo, hi)
    requires forall i :: 0 <= i < |xs| ==> Between(xs[i], lo, hi)
    ensures forall i :: 0 <= i < |xs| ==> Between(Smoothed(xs, alpha, y0)[i], lo, hi)
  {
    if xs != [] {
      var init := xs[..|xs| - 1];
      SmoothedBounded(init, alpha, y0, lo, hi);
      var p := Smoothed(init, alpha, y0);
      assert Between(LastOr(p, y0), lo, hi);
      ConvexStep(xs[|xs| - 1], LastOr(p, y0), alpha, lo, hi);
    }
  }

  // ---------------------------------------------------------------------
  // safe_mean, safe_round

  /** Python's `round(x, digits)`: half to even at the given decimal place. */
  function RoundTo(x: real, digits: int): real
  {
    RoundScaled(x, Pow10(digits))
  }

  /** x rounded to a multiple of 1/p. */
  function RoundScaled(x: real, p: real): real
    requires p > 0.0
  {
    RoundHalfEven(x * p) as real / p
  }

  /** Rounding to `digits` places moves x by at most half a unit in the last place. */
  lemma RoundToClose(x: real, digits: int)
    ensures Between(RoundTo(x, digits), x - 0.5 / Pow10(digits), x + 0.5 / Pow10(digits))
  {
    RoundScaledClose(x, Pow10(digits));
  }

  lemma RoundScaledClose(x: real, p: real)
    requires p > 0.0
    ensures Between(RoundScaled(x, p), x - 0.5 / p, x + 0.5 / p)
  {
    var n := RoundHalfEven(x * p);
    ScaledClose(n as real, x, p);
  }

  lemma ScaledClose(n: real, x: real, p: real)
    requires p > 0.0 && Between(x * p, n - 0.5, n + 0.5)
    ensures Between(n / p, x - 0.5 / p, x + 0.5 / p)
  {
    assert n / p - 0.5 / p == (n - 0.5) / p;
    assert n / p + 0.5 / p == (n + 0.5) / p;
    assert (x * p) / p == x;
    DivMono(n - 0.5, x * p, p);
    DivMono(x * p, n + 0.5, p);
  }

  lemma DivMono(a: real, b: real, c: real)
    requires a <= b && c > 0.0
    ensures a / c <= b / c
  {
    assert b / c - a / c == (b - a) / c;
  }

  function Mean(xs: seq<real>): real
    requires xs != []
  {
    SumReals(xs) / |xs| as real
  }

  /** `safe_mean(X, rounding)`: None for an empty X. */
  function SafeMean(xs: seq<real>, rounding: Option<int>): Option<real>
  {
    var result := if |xs| > 0 then Some(Mean(xs)) else None;
    if rounding.Some? && result.Some? then Some(RoundTo(result.value, rounding.value))
    else result
  }

  /** `safe_round(x, digits)`: None passes through. */
  function SafeRound(x: Option<real>, digits: int): Option<real>
  {
    if x.Some? then Some(RoundTo(x.value, digits)) else x
  }

  /** safe_mean is None exactly on the empty input, and rounding it is
      rounding its unrounded mean with safe_round. */
  lemma SafeMeanRounding(xs: seq<real>, rounding: Option<int>)
    ensures SafeMean(xs, rounding).None? <==> xs == []
    ensures SafeMean(xs, None) == (if xs == [] then None else Some(Mean(xs)))
    ensures rounding.Some? ==> SafeMean(xs, rounding) == SafeRound(SafeMean(xs, None), rounding.value)
  {
  }

  lemma SafeRoundNone(digits: int)
    ensures SafeRound(None, digits) == None
  {
  }

  lemma {:induction false} SumBounded(xs: seq<real>, lo: real, hi: real)
    requires forall i :: 0 <= i < |xs| ==> Between(xs[i], lo, hi)
    ensures Between(SumReals(xs), |xs| as real * lo, |xs| as real * hi)
  {
    if xs != [] {
      var init := xs[..|xs| - 1];
      SumBounded(init, lo, hi);
      assert Between(xs[|xs| - 1], lo, hi);
      SumStep(SumReals(init), xs[|xs| - 1], |init| as real, lo, hi);
    }
  }

  lemma SumStep(s: real, x: real, k: real, lo: real, hi: real)
    requires Between(s, k * lo, k * hi) && Between(x, lo, hi)
    ensures Between(s + x, (k + 1.0) * lo, (k + 1.0) * hi)
  {
  }

  /** The mean lies between any bounds of the elements. */
  lemma MeanBounded(xs: seq<real>, lo: real, hi: real)
    requires xs != []
    requires forall i :: 0 <= i < |xs| ==> Between(xs[i], lo, hi)
    ensures Between(Mean(xs), lo, hi)
  {
    SumBounded(xs, lo, hi);
    var n := |xs| as real;
    DivMono(n * lo, SumReals(xs), n);
    DivMono(SumReals(xs), n * hi, n);
    assert n * lo / n == lo && n * hi / n == hi;
  }

  // ---------------------------------------------------------------------
  // dtw

  /** A float32 cell of the table: a finite value or +inf. */
  datatype ExtReal = Fin(r: real) | Inf

  function MinE(a: ExtReal, b: ExtReal): ExtReal
  {
    match (a, b)
    case (Inf, _) => b
    case (_, Inf) => a
    case (Fin(x), Fin(y)) => if x <= y then a else b
  }

  function AddE(c: real, e: ExtReal): ExtReal
  {
    match e
    case Inf => Inf
    case Fin(x) => Fin(c + x)
  }

  /** One cell: the pair's cost plus the cheapest of the cells above, to the
      left and diagonally above-left. */
  function Relax(c: real, up: ExtReal, left: ExtReal, diag: ExtReal): ExtReal
  {
    AddE(c, MinE(MinE(up, left), diag))
  }

  /** The dynamic-time-warping table: 0 in the corner, +inf along the rest of
      row 0 and column 0, and otherwise the relaxed neighbouring cells. */
  function DtwCell<T>(obs1: seq<T>, obs2: seq<T>, cost: (T, T) -> real, i: nat, j: nat): ExtReal
    requires i <= |obs1| && j <= |obs2|
    decreases i + j
  {
    if i == 0 && j == 0 then Fin(0.0)
    else if i == 0 || j == 0 then Inf
    else Relax(cost(obs1[i - 1], obs2[j - 1]),
               DtwCell(obs1, obs2, cost, i - 1, j), DtwCell(obs1, obs2, cost, i, j - 1),
               DtwCell(obs1, obs2, cost, i - 1, j - 1))
  }

  /** Rows 0..i-1 of the table hold their final values. */
  ghost predicate RowsDone<T>(table: array2<ExtReal>, obs1: seq<T>, obs2: seq<T>, cost: (T, T) -> real, i: nat)
    reads table
    requires table.Length0 == |obs1| + 1 && table.Length1 == |obs2| + 1 && i <= |obs1| + 1
  {
    forall a, b :: 0 <= a < i && 0 <= b < table.Length1 ==> table[a, b] == DtwCell(obs1, obs2, cost, a, b)
  }

  /** The inner loop of `dtw`: fills row i from left to right. */
  method FillRow<T>(table: array2<ExtReal>, obs1: seq<T>, obs2: seq<T>, cost: (T, T) -> real, i: nat)
    requires table.Length0 == |obs1| + 1 && table.Length1 == |obs2| + 1 && 1 <= i <= |obs1|
    requires RowsDone(table, obs1, obs2, cost, i)
    requires table[i, 0] == Inf
    modifies table
    ensures forall a, b :: 0 <= a < table.Length0 && a != i && 0 <= b < table.Length1 ==> table[a, b] == old(table[a, b])
    ensures forall b :: 0 <= b < table.Length1 ==> table[i, b] == DtwCell(obs1, obs2, cost, i, b)
  {
    var j := 1;
    while j < table.Length1
      invariant 1 <= j <= table.Length1
      invariant forall a, b :: 0 <= a < table.Length0 && a != i && 0 <= b < table.Length1 ==> table[a, b] == old(table[a, b])
      invariant forall b :: 0 <= b < j ==> table[i, b] == DtwCell(obs1, obs2, cost, i, b)
    {
      table[i, j] := Relax(cost(obs1[i - 1], obs2[j - 1]), table[i - 1, j], table[i, j - 1], table[i - 1, j - 1]);
      j := j + 1;
    }
  }

  /** `dtw(obs1, obs2)`: fills the (n+1)×(m+1) table row by row. */
  method Dtw<T>(obs1: seq<T>, obs2: seq<T>, cost: (T, T) -> real) returns (d: ExtReal)
    ensures d == DtwCell(obs1, obs2, cost, |obs1|, |obs2|)
  {
    var n, m := |obs1|, |obs2|;
    var table := new ExtReal[n + 1, m + 1]((_, _) => Inf);
    table[0, 0] := Fin(0.0);
    var i := 1;
    while i <= n
      invariant 1 <= i <= n + 1
      invariant RowsDone(table, obs1, obs2, cost, i)
      invariant forall a :: i <= a <= n ==> table[a, 0] == Inf
    {
      FillRow(table, obs1, obs2, cost, i);
      i := i + 1;
    }
    d := table[n, m];
  }

  predicate NonNegative(e: ExtReal)
  {
    e.Inf? || e.r >= 0.0
  }

  /** With non-negative costs every cell, and so the distance, is
      non-negative or +inf. */
  lemma {:induction false} DtwNonNegative<T>(obs1: seq<T>, obs2: seq<T>, cost: (T, T) -> real, i: nat, j: nat)
    requires i <= |obs1| && j <= |obs2|
    requires forall a, b :: cost(a, b) >= 0.0
    ensures NonNegative(DtwCell(obs1, obs2, cost, i, j))
    decreases i + j
  {
    if i > 0 && j > 0 {
      DtwNonNegative(obs1, obs2, cost, i - 1, j);
      DtwNonNegative(obs1, obs2, cost, i, j - 1);
      DtwNonNegative(obs1, obs2, cost, i - 1, j - 1);
    }
  }

  /** A sequence is at distance 0 from itself when costs are non-negative
      and a frame costs nothing against itself (as the mean squared error does). */
  lemma {:induction false} DtwSelfZero<T>(obs: seq<T>, cost: (T, T) -> real, i: nat)
    requires i <= |obs|
    requires forall a, b :: cost(a, b) >= 0.0
    requires forall a :: cost(a, a) == 0.0
    ensures DtwCell(obs, obs, cost, i, i) == Fin(0.0)
  {
    if i > 0 {
      DtwSelfZero(obs, cost, i - 1);
      DtwNonNegative(obs, obs, cost, i - 1, i);
      DtwNonNegative(obs, obs, cost, i, i - 1);
      assert cost(obs[i - 1], obs[i - 1]) == 0.0;
    }
  }

  /** Against an empty sequence the distance is +inf (0 when both are empty). */
  lemma DtwEmpty<T>(obs1: seq<T>, obs2: seq<T>, cost: (T, T) -> real)
    ensures obs1 == [] && obs2 == [] ==> DtwCell(obs1, obs2, cost, 0, 0) == Fin(0.0)
    ensures (obs1 == []) != (obs2 == []) ==> DtwCell(obs1, obs2, cost, |obs1|, |obs2|) == Inf
  {
  }
}
