/** Shared vocabulary: failure-carrying results, exact arithmetic helpers that
    stand for the Python/numpy primitives the core relies on, and Python's
    slicing rules for strings. */
module Common {

  datatype Option<+T> = None | Some(value: T)

  datatype Result<+T, +E> = Ok(value: T) | Err(error: E)

  /** x^k for a natural exponent (Python's `x ** k` on floats, over the reals). */
  function Pow(x: real, k: nat): real
  {
    if k == 0 then 1.0 else x * Pow(x, k - 1)
  }

  lemma {:induction false} PowAdd(x: real, a: nat, b: nat)
    ensures Pow(x, a + b) == Pow(x, a) * Pow(x, b)
  {
    if a > 0 {
      PowAdd(x, a - 1, b);
    }
  }

  /** 10^d for any integer d, as a real. */
  function Pow10(d: int): (r: real)
    ensures r > 0.0
  {
    if d >= 0 then PosPow10(d) else 1.0 / PosPow10(-d)
  }

  function PosPow10(d: nat): (r: real)
    ensures r >= 1.0
  {
    if d == 0 then 1.0 else 10.0 * PosPow10(d - 1)
  }

  /** Round half to even: numpy's `rint` and Python's `round(x)`. */
  function RoundHalfEven(x: real): (n: int)
    ensures n as real - 0.5 <= x <= n as real + 0.5
  {
    var f := x.Floor;
    var frac := x - f as real;
    if frac < 0.5 then f
    else if frac > 0.5 then f + 1
    else if f % 2 == 0 then f else f + 1
  }

  lemma RoundOfInt(k: int)
    ensures RoundHalfEven(k as real) == k
  {
  }

  /** Rounding is monotone, so it keeps a sorted sequence sorted. */
  lemma RoundMonotone(x: real, y: real)
    requires x <= y
    ensures RoundHalfEven(x) <= RoundHalfEven(y)
  {
    var fx, fy := x.Floor, y.Floor;
    assert fx <= fy;
    if fx == fy {
      assert x - fx as real <= y - fy as real;
    } else if fx + 1 == fy {
      assert RoundHalfEven(x) <= fx + 1;
      assert RoundHalfEven(y) >= fy;
    } else {
      assert RoundHalfEven(x) <= fx + 1 < fy <= RoundHalfEven(y);
    }
  }

  /** Python's `int(x)` on a float: truncation toward zero. */
  function Trunc(x: real): (n: int)
    ensures x >= 0.0 ==> n as real <= x < n as real + 1.0
    ensures x < 0.0 ==> n as real - 1.0 < x <= n as real
  {
    if x >= 0.0 then x.Floor else -((-x).Floor)
  }

  /** `math.ceil(a / b)` for integers and a positive divisor. */
  function CeilDiv(a: int, b: int): (q: int)
    requires b > 0
    ensures (q - 1) * b < a <= q * b
  {
    (a + b - 1) / b
  }

  /** Python's `min` over reals. */
  function MinReal(a: real, b: real): real
  {
    if a <= b then a else b
  }

  function MaxReal(a: real, b: real): real
  {
    if a >= b then a else b
  }

  function SumReals(s: seq<real>): real
  {
    if s == [] then 0.0 else SumReals(s[..|s| - 1]) + s[|s| - 1]
  }

  lemma SumRealsAppend(s: seq<real>, x: real)
    ensures SumReals(s + [x]) == SumReals(s) + x
  {
    assert (s + [x])[..|s|] == s;
  }

  // ---------------------------------------------------------------------
  // Strings

  /** ASCII lower-casing of one character (the part of `str.lower` the
      configuration strings use). */
  function LowerChar(c: char): char
  {
    if 'A' <= c <= 'Z' then (c as int + 32) as char else c
  }

  function Lower(s: string): (r: string)
    ensures |r| == |s|
    ensures forall i :: 0 <= i < |s| ==> r[i] == LowerChar(s[i])
  {
    if s == [] then [] else [LowerChar(s[0])] + Lower(s[1..])
  }

  lemma LowerIdempotent(s: string)
    ensures Lower(Lower(s)) == Lower(s)
  {
    var l := Lower(s);
    assert forall i :: 0 <= i < |s| ==> LowerChar(LowerChar(s[i])) == LowerChar(s[i]);
  }

  /** Python's `s[:-k]` for k > 0: all but the last k characters, or "" when
      the string is shorter. */
  function DropLast<T>(s: seq<T>, k: nat): (r: seq<T>)
    ensures |s| >= k ==> r == s[..|s| - k]
    ensures |s| < k ==> r == []
  {
    if |s| >= k then s[..|s| - k] else []
  }

  /** Python's `s[-k:]` for k > 0: the last k elements, or all of `s` when
      it is shorter. */
  function TakeLast<T>(s: seq<T>, k: nat): (r: seq<T>)
    ensures |s| >= k ==> r == s[|s| - k..]
    ensures |s| < k ==> r == s
  {
    if |s| >= k then s[|s| - k..] else s
  }

  /** Python's `s[-a:-b]` with a > b > 0: indices clamped at 0 as Python does. */
  function SliceFromEnd<T>(s: seq<T>, a: nat, b: nat): (r: seq<T>)
    requires a > b
    ensures |s| >= a ==> r == s[|s| - a..|s| - b]
    ensures |s| <= b ==> r == []
    ensures b < |s| < a ==> r == s[..|s| - b]
  {
    var lo := if |s| >= a then |s| - a else 0;
    var hi := if |s| >= b then |s| - b else 0;
    if lo <= hi then s[lo..hi] else []
  }
}
