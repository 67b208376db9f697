/** The experience replay buffer of rl/replay.py: a fixed number of slots,
    refilled from each new batch of observations under a uniform, overwrite
    or sequential policy, optionally skipping frames whose hash is already
    held. Random choices are nondeterministic; the SHA-256 hash of a frame is
    an abstract function of the frame. */
module Replay {
  import opened Common
  import opened Sorting

  // ---------------------------------------------------------------------
  // smart_sample

  /** `smart_sample(x, n)` as a relation: n <= |x| draws n entries without
      replacement; more than |x| is one full draw of x followed by a draw of
      the rest. */
  ghost predicate SmartSampled<T>(x: seq<T>, n: nat, r: seq<T>)
    decreases n
  {
    if n <= |x| then |r| == n && multiset(r) <= multiset(x)
    else x != [] && |r| == n && SmartSampled(x, |x|, r[..|x|]) && SmartSampled(x, n - |x|, r[|x|..])
  }

  datatype ReplayError = InvalidMode(mode: string) | RecursionError | IndexError

  lemma PrefixSubMultiset<T>(x: seq<T>, n: nat)
    requires n <= |x|
    ensures multiset(x[..n]) <= multiset(x)
  {
    assert x == x[..n] + x[n..];
  }

  /** `smart_sample`: an empty population with n > 0 never reaches its base
      case (Python gives up with a RecursionError). */
  method SmartSample<T(==)>(x: seq<T>, n: nat) returns (res: Result<seq<T>, ReplayError>)
    ensures res.Err? <==> x == [] && n > 0
    ensures res.Err? ==> res.error == RecursionError
    ensures res.Ok? ==> SmartSampled(x, n, res.value)
    decreases n
  {
    if n <= |x| {
      PrefixSubMultiset(x, n);
      var r: seq<T> :| |r| == n && multiset(r) <= multiset(x);
      return Ok(r);
    }
    if x == [] {
      return Err(RecursionError);
    }
    var first := SmartSample(x, |x|);
    var rest := SmartSample(x, n - |x|);
    var r := first.value + rest.value;
    assert r[..|x|] == first.value && r[|x|..] == rest.value;
    return Ok(r);
  }

  /** Every sampled entry comes from the population, with exactly n entries. */
  lemma {:induction false} SmartSampledFrom<T>(x: seq<T>, n: nat, r: seq<T>)
    requires SmartSampled(x, n, r)
    ensures |r| == n
    ensures forall i :: 0 <= i < |r| ==> r[i] in x
    decreases n
  {
    if n <= |x| {
      forall i | 0 <= i < |r|
        ensures r[i] in x
      {
        assert r[i] in multiset(r);
      }
    } else {
      SmartSampledFrom(x, |x|, r[..|x|]);
      SmartSampledFrom(x, n - |x|, r[|x|..]);
      forall i | 0 <= i < |r|
        ensures r[i] in x
      {
        if i < |x| {
          assert r[i] == r[..|x|][i];
        } else {
          assert r[i] == r[|x|..][i - |x|];
        }
      }
    }
  }

  ghost predicate Distinct<T>(s: seq<T>)
  {
    forall i, j :: 0 <= i < j < |s| ==> s[i] != s[j]
  }

  lemma DistinctCounts<T>(s: seq<T>, v: T)
    requires Distinct(s)
    ensures multiset(s)[v] <= 1
  {
    if v in s {
      var i :| 0 <= i < |s| && s[i] == v;
      assert s == s[..i] + [v] + s[i + 1..];
      assert v !in s[..i] && v !in s[i + 1..] by {
        forall j | 0 <= j < |s| && j != i
          ensures s[j] != v
        {
          if j < i { assert s[j] != s[i]; } else { assert s[i] != s[j]; }
        }
      }
      assert multiset(s[..i])[v] == 0 && multiset(s[i + 1..])[v] == 0;
    }
  }

  /** A draw without replacement from distinct entries has no repeats. */
  lemma NoRepeats<T>(x: seq<T>, n: nat, r: seq<T>)
    requires Distinct(x) && n <= |x| && SmartSampled(x, n, r)
    ensures Distinct(r)
  {
    forall i, j | 0 <= i < j < |r|
      ensures r[i] != r[j]
    {
      if r[i] == r[j] {
        var v := r[i];
        var rest := r[..i] + r[i + 1..];
        assert r == r[..i] + [v] + r[i + 1..];
        assert v in rest by {
          if j < i + 1 { assert false; }
          assert rest[j - 1] == r[j];
        }
        assert multiset(r)[v] == multiset(rest)[v] + 1;
        DistinctCounts(x, v);
        assert false;
      }
    }
  }

  /** A sub-multiset as large as the whole is the whole. */
  lemma SubMultisetFull<T>(a: multiset<T>, b: multiset<T>)
    requires a <= b && |a| == |b|
    ensures a == b
  {
    assert (b - a) + a == b;
    assert |b - a| == 0;
  }

  /** A draw of the whole of a distinct population holds each entry once. */
  lemma FullDrawOnce<T>(x: seq<T>, r: seq<T>, v: T)
    requires Distinct(x) && v in x && |r| == |x| && multiset(r) <= multiset(x)
    ensures multiset(r)[v] == 1
  {
    SubMultisetFull(multiset(r), multiset(x));
    assert x == x[..0] + x[0..];
    DistinctCounts(x, v);
  }

  /** c copies of each of m entries is within one of n draws: (c - 1)·m < n < (c + 1)·m. */
  predicate Balanced(c: int, m: int, n: int)
  {
    (c - 1) * m < n < (c + 1) * m
  }

  lemma CountStep(c2: int, m: int, n: int)
    requires m > 0 && Balanced(c2, m, n - m)
    ensures Balanced(c2 + 1, m, n)
  {
    assert (c2 + 1) * m == c2 * m + m;
    assert (c2 + 2) * m == (c2 + 1) * m + m;
    assert (c2 - 1) * m + m == c2 * m;
  }

  /** When n >= |x| > 0 every entry of a distinct population is drawn, and
      each c times where (c - 1)·|x| < n < (c + 1)·|x|: counts stay within one
      of n / |x| of each other. */
  lemma {:induction false} SmartSampledBalanced<T>(x: seq<T>, n: nat, r: seq<T>, v: T)
    requires Distinct(x) && v in x && SmartSampled(x, n, r)
    ensures n >= |x| ==> multiset(r)[v] >= 1
    ensures Balanced(multiset(r)[v], |x|, n)
    decreases n
  {
    var m := |x|;
    if n < m {
      PartialDrawAtMostOnce(x, n, r, v);
    } else if n == m {
      FullDrawOnce(x, r, v);
      assert Balanced(1, m, m);
    } else {
      FullDrawOnce(x, r[..m], v);
      SmartSampledBalanced(x, n - m, r[m..], v);
      CountSplit(r, m, v);
      CountStep(multiset(r[m..])[v], m, n);
    }
  }

  lemma PartialDrawAtMostOnce<T>(x: seq<T>, n: nat, r: seq<T>, v: T)
    requires Distinct(x) && n < |x| && |r| == n && multiset(r) <= multiset(x)
    ensures Balanced(multiset(r)[v], |x|, n)
  {
    DistinctCounts(x, v);
    assert multiset(r)[v] == 1 ==> |r| > 0;
  }

  lemma CountSplit<T>(r: seq<T>, m: nat, v: T)
    requires m <= |r|
    ensures multiset(r)[v] == multiset(r[..m])[v] + multiset(r[m..])[v]
  {
    assert r == r[..m] + r[m..];
  }

  // ---------------------------------------------------------------------
  // add_experience: the pieces

  const HashModulus: int := 0x1_0000_0000_0000_0000

  /** `range(n)`. */
  function Range(n: nat): (r: seq<int>)
    ensures |r| == n && forall i :: 0 <= i < n ==> r[i] == i
  {
    seq(n, i => i)
  }

  /** The positions of the rows whose hash is not already in the buffer, in order. */
  function Survivors(newHashes: seq<int>, held: set<int>, from: nat): (ids: seq<int>)
    requires from <= |newHashes|
    ensures forall k :: 0 <= k < |ids| ==> from <= ids[k] < |newHashes| && newHashes[ids[k]] !in held
    ensures forall i :: from <= i < |newHashes| && newHashes[i] !in held ==> i in ids
    ensures Distinct(ids) && SortedBy(ids, IntLe)
    decreases |newHashes| - from
  {
    if from == |newHashes| then []
    else
      var rest := Survivors(newHashes, held, from + 1);
      if newHashes[from] in held then rest else [from] + rest
  }

  /** How many slots the batch refills. */
  function EntriesToAdd(experienceSeen: nat, newEntries: nat, n: nat, mode: string): (r: Result<nat, ReplayError>)
    ensures experienceSeen == 0 ==> r == Ok(n)
    ensures experienceSeen > 0 && mode == "uniform" ==>
              r.Ok? && r.value <= n
              && (r.value - 1) * (experienceSeen + newEntries) < newEntries * n <= r.value * (experienceSeen + newEntries)
    ensures experienceSeen > 0 && (mode == "overwrite" || mode == "sequential") ==> r == Ok(newEntries)
    ensures r.Err? <==> experienceSeen > 0 && mode !in ["uniform", "overwrite", "sequential"]
    ensures r.Err? ==> r.error == InvalidMode(mode)
  {
    if experienceSeen == 0 then Ok(n)
    else if mode == "uniform" then
      var total := experienceSeen + newEntries;
      var q := CeilDiv(newEntries * n, total);
      CeilAtMost(newEntries, total, n, q);
      Ok(q)
    else if mode == "overwrite" || mode == "sequential" then Ok(newEntries)
    else Err(InvalidMode(mode))
  }

  lemma CeilAtMost(a: nat, total: nat, n: nat, q: int)
    requires a <= total && total > 0
    requires (q - 1) * total < a * n
    ensures q <= n
  {
    assert a * n <= total * n;
  }

  /** Sequential mode's destinations: a ring cursor starting at experience_seen. */
  function RingSlots(start: nat, count: nat, n: nat): (r: seq<int>)
    requires n > 0
    ensures |r| == count && forall i :: 0 <= i < count ==> 0 <= r[i] < n && r[i] == (start + i) % n
  {
    seq(count, i => (start + i) % n)
  }

  /** `[xs[i] for i in idx]`. */
  function Gather<T>(xs: seq<T>, idx: seq<int>): (r: seq<T>)
    requires forall k :: 0 <= k < |idx| ==> 0 <= idx[k] < |xs|
    ensures |r| == |idx| && forall k :: 0 <= k < |idx| ==> r[k] == xs[idx[k]]
  {
    seq(|idx|, k requires 0 <= k < |idx| => xs[idx[k]])
  }

  /** The 64-bit hashes of a batch of frames. */
  function HashesOf<S>(hash: S -> nat, xs: seq<S>): (r: seq<int>)
    ensures |r| == |xs| && forall i :: 0 <= i < |xs| ==> r[i] == hash(xs[i]) % HashModulus
  {
    seq(|xs|, i requires 0 <= i < |xs| => hash(xs[i]) % HashModulus)
  }

  /** Writing vals[k] to slot dests[k] for k = 0, 1, ... in order. */
  function Scatter<T>(s: seq<T>, dests: seq<int>, vals: seq<T>): (r: seq<T>)
    requires |dests| == |vals|
    requires forall k :: 0 <= k < |dests| ==> 0 <= dests[k] < |s|
    ensures |r| == |s|
  {
    if dests == [] then s
    else Scatter(s, dests[..|dests| - 1], vals[..|vals| - 1])[dests[|dests| - 1] := vals[|vals| - 1]]
  }

  /** A slot that is not a destination keeps its value. */
  lemma {:induction false} ScatterUntouched<T>(s: seq<T>, dests: seq<int>, vals: seq<T>, i: int)
    requires |dests| == |vals| && forall k :: 0 <= k < |dests| ==> 0 <= dests[k] < |s|
    requires 0 <= i < |s| && i !in dests
    ensures Scatter(s, dests, vals)[i] == s[i]
  {
    if dests != [] {
      var d := dests[..|dests| - 1];
      assert forall k :: 0 <= k < |d| ==> d[k] == dests[k];
      ScatterUntouched(s, d, vals[..|vals| - 1], i);
    }
  }

  /** A destination holds the value of the last write to it. */
  lemma {:induction false} ScatterLastWrite<T>(s: seq<T>, dests: seq<int>, vals: seq<T>, k: int)
    requires |dests| == |vals| && forall j :: 0 <= j < |dests| ==> 0 <= dests[j] < |s|
    requires 0 <= k < |dests| && forall j :: k < j < |dests| ==> dests[j] != dests[k]
    ensures Scatter(s, dests, vals)[dests[k]] == vals[k]
  {
    if k < |dests| - 1 {
      var d := dests[..|dests| - 1];
      ScatterLastWrite(s, d, vals[..|vals| - 1], k);
    }
  }

  lemma ScatterSnoc<T>(s: seq<T>, dests: seq<int>, vals: seq<T>, k: nat)
    requires |dests| == |vals| && forall j :: 0 <= j < |dests| ==> 0 <= dests[j] < |s|
    requires k < |dests|
    ensures Scatter(s, dests[..k + 1], vals[..k + 1]) == Scatter(s, dests[..k], vals[..k])[dests[k] := vals[k]]
  {
    assert dests[..k + 1][..k] == dests[..k];
    assert vals[..k + 1][..k] == vals[..k];
  }

  // ---------------------------------------------------------------------
  // ExperienceReplayBuffer

  /** What `save_state` returns (with its copies). */
  datatype SavedState<S> = SavedState(n: int, experienceSeen: int, data: seq<S>, time: seq<real>, hashes: seq<int>)

  predicate WellFormed<S>(st: SavedState<S>)
  {
    st.n >= 0 && st.experienceSeen >= 0 && |st.data| == |st.time| == |st.hashes| == st.n
  }

  /** The rows of a batch that `add_experience` may use: those whose hash is
      not held yet when duplicates are filtered, all of them otherwise. */
  function CandidateRows(filterDuplicates: bool, newHashes: seq<int>, held: seq<int>): (ids: seq<int>)
    ensures forall k :: 0 <= k < |ids| ==> 0 <= ids[k] < |newHashes|
    ensures filterDuplicates ==> forall k :: 0 <= k < |ids| ==> newHashes[ids[k]] !in held
    ensures !filterDuplicates ==> ids == Range(|newHashes|)
    ensures SortedBy(ids, IntLe)
  {
    if filterDuplicates then Survivors(newHashes, set h | h in held, 0) else Range(|newHashes|)
  }

  class ExperienceReplayBuffer<S> {
    var n: int
    var experienceSeen: int
    var data: array<S>
    var time: array<real>
    var hashes: array<int>
    const filterDuplicates: bool
    const mode: string
    /** `sha256` of a frame's bytes, read as an integer. */
    const hash: S -> nat

    /** One slot of each array per entry. */
    ghost predicate Valid()
      reads this
    {
      && n >= 0 && experienceSeen >= 0
      && data.Length == time.Length == hashes.Length == n
      && data as object != time as object && data as object != hashes as object
    }

    function Snapshot(): SavedState<S>
      reads this, data, time, hashes
    {
      SavedState(n, experienceSeen, data[..], time[..], hashes[..])
    }

    constructor (n: nat, blank: S, filterDuplicates: bool, mode: string, hash: S -> nat)
      ensures Valid() && fresh(data) && fresh(time) && fresh(hashes)
      ensures Snapshot() == SavedState(n, 0, seq(n, _ => blank), seq(n, _ => 0.0), seq(n, _ => 0))
      ensures this.filterDuplicates == filterDuplicates && this.mode == mode && this.hash == hash
    {
      this.n, experienceSeen := n, 0;
      data := new S[n](_ => blank);
      time := new real[n](_ => 0.0);
      hashes := new int[n](_ => 0);
      this.filterDuplicates, this.mode, this.hash := filterDuplicates, mode, hash;
    }

    /** `save_state()`: a copy of the size, the counter and the three arrays. */
    method SaveState() returns (st: SavedState<S>)
      ensures st == Snapshot()
      ensures Valid() ==> WellFormed(st)
    {
      return SavedState(n, experienceSeen, data[..], time[..], hashes[..]);
    }

    /** `load_state(st)`: copies everything back, so loading a saved state
        restores the buffer it came from. */
    method LoadState(st: SavedState<S>)
      modifies this
      ensures Snapshot() == st
      ensures fresh(data) && fresh(time) && fresh(hashes)
      ensures Valid() <==> WellFormed(st)
    {
      n, experienceSeen := st.n, st.experienceSeen;
      data := new S[|st.data|](i requires 0 <= i < |st.data| => st.data[i]);
      time := new real[|st.time|](i requires 0 <= i < |st.time| => st.time[i]);
      hashes := new int[|st.hashes|](i requires 0 <= i < |st.hashes| => st.hashes[i]);
    }

    /** `add_experience(new_experience, new_time)`. On success the slots named
        by `dests` receive the rows named by `sources` (later writes win) and
        nothing else changes; `experience_seen` grows by the number of
        candidate rows, not by the number written. */
    method AddExperience(newExperience: seq<S>, newTime: Option<seq<real>>)
      returns (res: Result<(), ReplayError>, ghost sources: seq<int>, ghost dests: seq<int>)
      requires Valid()
      requires newTime.Some? ==> |newTime.value| >= |newExperience|
      modifies this, data, time, hashes
      ensures Valid() && data == old(data) && time == old(time) && hashes == old(hashes) && n == old(n)
      ensures var ids := CandidateRows(filterDuplicates, HashesOf(hash, newExperience), old(hashes[..]));
        && (res.Err? <==> PlanFails(ids, old(experienceSeen), n, mode))
        && (res == Err(InvalidMode(mode)) <==> old(experienceSeen) > 0 && mode !in ["uniform", "overwrite", "sequential"])
        && (res.Ok? ==> Planned(ids, old(experienceSeen), n, mode, sources, dests) && experienceSeen == old(experienceSeen) + |ids|)
        && (res.Ok? && old(experienceSeen) > 0 && (mode == "overwrite" || mode == "sequential") ==> sources == ids)
      ensures res.Err? ==> Snapshot() == old(Snapshot())
      ensures res.Ok? ==> |sources| == |dests| && forall k :: 0 <= k < |sources| ==> 0 <= sources[k] < |newExperience| && 0 <= dests[k] < n
      ensures res.Ok? ==> data[..] == Scatter(old(data[..]), dests, Gather(newExperience, sources))
      ensures res.Ok? ==> hashes[..] == (if filterDuplicates then Scatter(old(hashes[..]), dests, Gather(HashesOf(hash, newExperience), sources))
                                         else old(hashes[..]))
      ensures res.Ok? ==> time[..] == (if newTime.Some? then Scatter(old(time[..]), dests, Gather(newTime.value, sources)) else old(time[..]))
    {
      sources, dests := [], [];
      var newHashes := HashesOf(hash, newExperience);
      var ids := CandidateRows(filterDuplicates, newHashes, hashes[..]);
      var plan := MakePlan(ids, experienceSeen, n, mode);
      if plan.Err? {
        return Err(plan.error), sources, dests;
      }
      var (src, spots) := plan.value;
      if experienceSeen > 0 && (mode == "overwrite" || mode == "sequential") {
        LaterCallWritesEveryRowOnce(filterDuplicates, newHashes, hashes[..], experienceSeen, n, mode, src, spots);
      }
      Write(newExperience, newHashes, newTime, src, spots);
      experienceSeen := experienceSeen + |ids|;
      return Ok(()), src, spots;
    }

    /** One pass of the copy loop: slot spots[k] of each array receives its value. */
    method WriteStep(ghost d0: seq<S>, ghost h0: seq<int>, ghost t0: seq<real>, spots: seq<int>,
                     vals: seq<S>, hvals: seq<int>, tvals: seq<real>, withTime: bool, k: nat)
      requires Valid() && |d0| == n
      requires Written(data[..], hashes[..], time[..], d0, h0, t0, spots, vals, hvals, tvals, filterDuplicates, withTime, k)
      requires k < |spots|
      modifies data, hashes, time
      ensures Written(data[..], hashes[..], time[..], d0, h0, t0, spots, vals, hvals, tvals, filterDuplicates, withTime, k + 1)
    {
      ScatterSnoc(d0, spots, vals, k);
      data[spots[k]] := vals[k];
      if filterDuplicates {
        ScatterSnoc(h0, spots, hvals, k);
        hashes[spots[k]] := hvals[k];
      }
      if withTime {
        ScatterSnoc(t0, spots, tvals, k);
        time[spots[k]] := tvals[k];
      }
    }

    /** The copy loop of `add_experience`. */
    method Write(newExperience: seq<S>, newHashes: seq<int>, newTime: Option<seq<real>>, src: seq<int>, spots: seq<int>)
      requires Valid() && |src| == |spots| && |newHashes| == |newExperience|
      requires newTime.Some? ==> |newTime.value| >= |newExperience|
      requires forall k :: 0 <= k < |src| ==> 0 <= src[k] < |newExperience| && 0 <= spots[k] < n
      modifies data, time, hashes
      ensures data[..] == Scatter(old(data[..]), spots, Gather(newExperience, src))
      ensures hashes[..] == (if filterDuplicates then Scatter(old(hashes[..]), spots, Gather(newHashes, src)) else old(hashes[..]))
      ensures time[..] == (if newTime.Some? then Scatter(old(time[..]), spots, Gather(newTime.value, src)) else old(time[..]))
    {
      var vals := Gather(newExperience, src);
      var hvals := Gather(newHashes, src);
      var tvals := if newTime.Some? then Gather(newTime.value, src) else [];
      ghost var d0, h0, t0 := data[..], hashes[..], time[..];
      var k := 0;
      while k < |src|
        invariant 0 <= k <= |src|
        invariant Written(data[..], hashes[..], time[..], d0, h0, t0, spots, vals, hvals, tvals, filterDuplicates, newTime.Some?, k)
      {
        WriteStep(d0, h0, t0, spots, vals, hvals, tvals, newTime.Some?, k);
        k := k + 1;
      }
      assert spots[..k] == spots && vals[..k] == vals && hvals[..k] == hvals;
      assert newTime.Some? ==> tvals[..k] == tvals;
    }
  }

  /** Where `add_experience` fails before writing anything: an unknown mode
      on a later call, or a positive number of entries to write with no rows
      to draw from or no slots to write to. */
  predicate PlanFails(ids: seq<int>, seen: nat, n: nat, mode: string)
  {
    var count := EntriesToAdd(seen, |ids|, n, mode);
    count.Err? || (count.value > 0 && (ids == [] || n == 0))
  }

  /** What a successful `add_experience` draws: the number of entries its
      mode asks for, a smart sample of that many candidate rows put in
      increasing order, and slots from the ring cursor or a smart sample of
      all slots. */
  ghost predicate Planned(ids: seq<int>, seen: nat, n: nat, mode: string, sources: seq<int>, dests: seq<int>)
  {
    var count := EntriesToAdd(seen, |ids|, n, mode);
    && count.Ok? && |sources| == |dests| == count.value
    && (forall k :: 0 <= k < |sources| ==> sources[k] in ids && 0 <= dests[k] < n)
    && SortedBy(sources, IntLe)
    && (exists s :: SmartSampled(ids, count.value, s) && sources == Sort(s, IntLe))
    && (mode == "sequential" && n > 0 ==> dests == RingSlots(seen, count.value, n))
    && (mode != "sequential" ==> SmartSampled(Range(n), count.value, dests))
  }

  /** Steps 2 and 3 of `add_experience` up to the copy loop: how many entries,
      which rows, which slots. */
  method MakePlan(ids: seq<int>, seen: nat, n: nat, mode: string) returns (res: Result<(seq<int>, seq<int>), ReplayError>)
    ensures res.Err? <==> PlanFails(ids, seen, n, mode)
    ensures res == Err(InvalidMode(mode)) <==> seen > 0 && mode !in ["uniform", "overwrite", "sequential"]
    ensures res.Ok? ==> Planned(ids, seen, n, mode, res.value.0, res.value.1)
  {
    var count := EntriesToAdd(seen, |ids|, n, mode);
    if count.Err? {
      return Err(count.error);
    }
    var entriesToAdd := count.value;
    var sampled := SmartSample(ids, entriesToAdd);
    if sampled.Err? {
      return Err(sampled.error);
    }
    var src := SortedSample(ids, entriesToAdd, sampled.value);
    var drawn := Destinations(seen, entriesToAdd, n, mode);
    if drawn.Err? {
      return Err(drawn.error);
    }
    return Ok((src, drawn.value));
  }

  /** The slots to overwrite: a ring cursor in sequential mode, a smart
      sample of all slots otherwise. A ring over no slots fails on its first
      write. */
  method Destinations(seen: nat, count: nat, n: nat, mode: string) returns (res: Result<seq<int>, ReplayError>)
    ensures res.Ok? ==> |res.value| == count && forall k :: 0 <= k < count ==> 0 <= res.value[k] < n
    ensures res.Ok? && mode == "sequential" && n > 0 ==> res.value == RingSlots(seen, count, n)
    ensures res.Ok? && mode != "sequential" ==> SmartSampled(Range(n), count, res.value)
    ensures res.Err? <==> n == 0 && count > 0
    ensures res.Err? ==> res.error == (if mode == "sequential" then IndexError else RecursionError)
  {
    if mode == "sequential" {
      if n == 0 && count > 0 {
        return Err(IndexError);
      }
      return Ok(if n == 0 then [] else RingSlots(seen, count, n));
    }
    res := SmartSample(Range(n), count);
    if res.Ok? {
      SmartSampledFrom(Range(n), count, res.value);
    }
  }

  /** The three arrays after the first k writes of the copy loop. */
  ghost predicate Written<S>(d: seq<S>, h: seq<int>, t: seq<real>, d0: seq<S>, h0: seq<int>, t0: seq<real>, spots: seq<int>,
                             vals: seq<S>, hvals: seq<int>, tvals: seq<real>, withHashes: bool, withTime: bool, k: nat)
  {
    && |spots| == |vals| == |hvals| && k <= |spots| && (withTime ==> |tvals| == |spots|)
    && |d0| == |h0| == |t0| && (forall j :: 0 <= j < |spots| ==> 0 <= spots[j] < |d0|)
    && d == Scatter(d0, spots[..k], vals[..k])
    && h == (if withHashes then Scatter(h0, spots[..k], hvals[..k]) else h0)
    && t == (if withTime then Scatter(t0, spots[..k], tvals[..k]) else t0)
  }

  /** The first sequential fill writes slots 0 .. N-1 in order. */
  lemma FirstRingFill(n: nat)
    requires n > 0
    ensures RingSlots(0, n, n) == Range(n)
  {
  }

  /** With the duplicate filter on, no row whose hash the buffer already
      holds is among the rows copied in. */
  lemma FilteredRowsAreNew(newHashes: seq<int>, held: seq<int>, seen: nat, n: nat, mode: string,
                           sources: seq<int>, dests: seq<int>)
    requires Planned(CandidateRows(true, newHashes, held), seen, n, mode, sources, dests)
    ensures forall k :: 0 <= k < |sources| ==> 0 <= sources[k] < |newHashes| && newHashes[sources[k]] !in held
  {
    var ids := CandidateRows(true, newHashes, held);
    forall k | 0 <= k < |sources|
      ensures 0 <= sources[k] < |newHashes| && newHashes[sources[k]] !in held
    {
      var j :| 0 <= j < |ids| && ids[j] == sources[k];
    }
  }

  /** `sorted(smart_sample(ids, count))`: the drawn rows in increasing order. */
  method SortedSample(ids: seq<int>, count: nat, sampled: seq<int>) returns (src: seq<int>)
    requires SmartSampled(ids, count, sampled)
    ensures |src| == count && SortedBy(src, IntLe) && multiset(src) == multiset(sampled)
    ensures forall k :: 0 <= k < |src| ==> src[k] in ids
    ensures src == Sort(sampled, IntLe)
  {
    SmartSampledFrom(ids, count, sampled);
    src := Sort(sampled, IntLe);
    SortSameElements(sampled, IntLe);
    IntLeTotal();
    SortSorted(sampled, IntLe);
    forall k | 0 <= k < |src|
      ensures src[k] in ids
    {
      assert src[k] in sampled;
    }
  }

  /** On a later call in overwrite or sequential mode every candidate row is
      copied in exactly once, in order: the full draw from distinct rows is a
      permutation of them, and sorting it gives the rows back. */
  lemma LaterCallWritesEveryRowOnce(filterDuplicates: bool, newHashes: seq<int>, held: seq<int>, seen: nat, n: nat,
                                    mode: string, sources: seq<int>, dests: seq<int>)
    requires seen > 0 && (mode == "overwrite" || mode == "sequential")
    requires Planned(CandidateRows(filterDuplicates, newHashes, held), seen, n, mode, sources, dests)
    ensures sources == CandidateRows(filterDuplicates, newHashes, held)
  {
    var ids := CandidateRows(filterDuplicates, newHashes, held);
    var s :| SmartSampled(ids, |ids|, s) && sources == Sort(s, IntLe);
    assert SmartSampled(ids, |ids|, s);
    SubMultisetFull(multiset(s), multiset(ids));
    SortedPermutationUnique(sources, ids);
  }
}
