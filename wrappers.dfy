/** The per-episode bookkeeping wrappers of rl/wrappers.py. Each wrapper is a
    class over the fields the source updates; what the wrapped environment's
    `step` (or `reset`) returned is an input of the corresponding method. The
    `info` dictionary is a map from keys to a small union of value kinds. */
module Wrappers {
  import opened Common

  datatype InfoValue = Flag(b: bool) | Num(x: real) | Names(names: seq<string>)

  type Info = map<string, InfoValue>

  /** What `step` returns: `(obs, reward, done, info)`. */
  datatype StepResult<O> = StepResult(obs: O, reward: real, done: bool, info: Info)

  const TruncatedKey: string := "TimeLimit.truncated"
  const TimeFracKey: string := "time_frac"
  const FakeDoneKey: string := "fake_done"
  const UnclippedKey: string := "unclipped_reward"
  const EpScoreKey: string := "ep_score"
  const EpLengthKey: string := "ep_length"
  const ChannelsKey: string := "channels"

  // ---------------------------------------------------------------------
  // TimeLimitWrapper

  class TimeLimitWrapper {
    const maxEpisodeSteps: int
    var elapsedSteps: int

    ghost predicate Valid()
      reads this
    {
      elapsedSteps >= 0
    }

    constructor (maxEpisodeSteps: int)
      ensures Valid()
      ensures this.maxEpisodeSteps == maxEpisodeSteps && elapsedSteps == 0
    {
      this.maxEpisodeSteps := maxEpisodeSteps;
      elapsedSteps := 0;
    }

    /** One step: counts it, ends the episode once the limit is reached (and
        says so in info), and reports the fraction of the limit used by the
        state landed in, 0 when the episode ends. */
    method Step<O>(inner: StepResult<O>) returns (r: StepResult<O>)
      requires Valid()
      modifies this
      ensures Valid()
      ensures elapsedSteps == old(elapsedSteps) + 1
      ensures r.obs == inner.obs && r.reward == inner.reward
      ensures r.done <==> inner.done || elapsedSteps >= maxEpisodeSteps
      ensures elapsedSteps >= maxEpisodeSteps ==> r.info == inner.info[TruncatedKey := Flag(true)][TimeFracKey := Num(0.0)]
      ensures elapsedSteps < maxEpisodeSteps ==>
                r.info == inner.info[TimeFracKey := Num(if inner.done then 0.0 else elapsedSteps as real / maxEpisodeSteps as real)]
      ensures TimeFracKey in r.info && r.info[TimeFracKey].Num?
      ensures 0.0 <= r.info[TimeFracKey].x < 1.0
      ensures r.done ==> r.info[TimeFracKey] == Num(0.0)
    {
      elapsedSteps := elapsedSteps + 1;
      var done, info := inner.done, inner.info;
      if elapsedSteps >= maxEpisodeSteps {
        done := true;
        info := info[TruncatedKey := Flag(true)];
      }
      var frac := if !done then elapsedSteps as real / maxEpisodeSteps as real else 0.0;
      if !done {
        FracBelowOne(elapsedSteps, maxEpisodeSteps);
      }
      info := info[TimeFracKey := Num(frac)];
      r := StepResult(inner.obs, inner.reward, done, info);
    }

    method Reset()
      modifies this
      ensures Valid() && elapsedSteps == 0
    {
      elapsedSteps := 0;
    }
  }

  lemma FracBelowOne(k: int, m: int)
    requires 0 < k < m
    ensures 0.0 <= k as real / m as real < 1.0
  {
  }

  // ---------------------------------------------------------------------
  // DeferredRewardWrapper

  class DeferredRewardWrapper {
    const timeLimit: int
    var t: int
    var episodeReward: real
    /** The inner rewards since reset, and what this wrapper emitted for them. */
    ghost var received: seq<real>
    ghost var emitted: seq<real>

    /** Emitted rewards plus the pending one account for every inner reward. */
    ghost predicate Valid()
      reads this
    {
      && t == |received| == |emitted|
      && SumReals(emitted) + episodeReward == SumReals(received)
    }

    constructor (timeLimit: int)
      ensures Valid() && this.timeLimit == timeLimit && received == []
    {
      this.timeLimit := timeLimit;
      t := 0;
      episodeReward := 0.0;
      received, emitted := [], [];
    }

    /** Rewards are held back and paid out in one lump at step `timeLimit`, or
        at the end of the episode when `timeLimit` is -1. */
    method Step<O>(inner: StepResult<O>) returns (r: StepResult<O>)
      requires Valid()
      modifies this
      ensures Valid()
      ensures t == old(t) + 1 && received == old(received) + [inner.reward]
      ensures r == inner.(reward := r.reward)
      ensures var giveRewards := t == timeLimit || (timeLimit == -1 && inner.done);
        && (giveRewards ==> r.reward == old(episodeReward) + inner.reward && episodeReward == 0.0)
        && (!giveRewards ==> r.reward == 0.0 && episodeReward == old(episodeReward) + inner.reward)
      ensures emitted == old(emitted) + [r.reward]
    {
      t := t + 1;
      var giveRewards := t == timeLimit || (timeLimit == -1 && inner.done);
      episodeReward := episodeReward + inner.reward;
      var newReward: real;
      if giveRewards {
        newReward := episodeReward;
        episodeReward := 0.0;
      } else {
        newReward := 0.0;
      }
      SumRealsAppend(old(received), inner.reward);
      SumRealsAppend(old(emitted), newReward);
      received := received + [inner.reward];
      emitted := emitted + [newReward];
      r := inner.(reward := newReward);
    }

    method Reset()
      modifies this
      ensures Valid() && t == 0 && episodeReward == 0.0 && received == [] && emitted == []
    {
      t := 0;
      episodeReward := 0.0;
      received, emitted := [], [];
    }
  }

  // ---------------------------------------------------------------------
  // EpisodeScoreWrapper

  class EpisodeScoreWrapper {
    var epScore: real
    var epLength: int
    ghost var received: seq<real>

    /** The score is the sum, and the length the number, of the rewards since reset. */
    ghost predicate Valid()
      reads this
    {
      epScore == SumReals(received) && epLength == |received|
    }

    constructor ()
      ensures Valid() && received == []
    {
      epScore, epLength := 0.0, 0;
      received := [];
    }

    method Step<O>(inner: StepResult<O>) returns (r: StepResult<O>)
      requires Valid()
      modifies this
      ensures Valid() && received == old(received) + [inner.reward]
      ensures r == inner.(info := inner.info[EpScoreKey := Num(epScore)][EpLengthKey := Num(epLength as real)])
    {
      SumRealsAppend(received, inner.reward);
      epScore := epScore + inner.reward;
      epLength := epLength + 1;
      received := received + [inner.reward];
      r := inner.(info := inner.info[EpScoreKey := Num(epScore)][EpLengthKey := Num(epLength as real)]);
    }

    method Reset()
      modifies this
      ensures Valid() && received == [] && epScore == 0.0 && epLength == 0
    {
      epScore, epLength := 0.0, 0;
      received := [];
    }
  }

  // ---------------------------------------------------------------------
  // EpisodicLifeEnv

  class EpisodicLifeEnv {
    var lives: int
    var wasRealDone: bool

    constructor ()
      ensures lives == 0 && wasRealDone
    {
      lives, wasRealDone := 0, true;
    }

    /** A lost life (but not the last) ends the learner's episode with
        `fake_done`; the real end of the game is remembered for reset.
        `newLives` is `ale.lives()` after the inner step. */
    method Step<O>(inner: StepResult<O>, newLives: int) returns (r: StepResult<O>)
      modifies this
      ensures wasRealDone == inner.done && lives == newLives
      ensures var lifeLost := 0 < newLives < old(lives);
        && (lifeLost ==> r == inner.(done := true, info := inner.info[FakeDoneKey := Flag(true)]))
        && (!lifeLost ==> r == inner)
    {
      wasRealDone := inner.done;
      r := inner;
      if newLives < lives && newLives > 0 {
        r := r.(done := true, info := r.info[FakeDoneKey := Flag(true)]);
      }
      lives := newLives;
    }

    /** A real game over resets the inner environment; otherwise a no-op step
        continues the game. `resetObs`/`noopObs` are what each would return,
        `newLives` is `ale.lives()` afterwards. */
    method Reset<O>(resetObs: O, noopObs: O, newLives: int) returns (obs: O)
      modifies this
      ensures obs == (if old(wasRealDone) then resetObs else noopObs)
      ensures lives == newLives && wasRealDone == old(wasRealDone)
    {
      if wasRealDone {
        obs := resetObs;
      } else {
        obs := noopObs;
      }
      lives := newLives;
    }
  }

  // ---------------------------------------------------------------------
  // ClipRewardWrapper

  /** `np.clip(x, lo, hi)`: `min(max(x, lo), hi)`. */
  function Clip(x: real, lo: real, hi: real): (y: real)
    ensures lo <= hi ==> lo <= y <= hi
    ensures lo <= x <= hi ==> y == x
  {
    MinReal(MaxReal(x, lo), hi)
  }

  class ClipRewardWrapper {
    const clip: real

    constructor (clip: real)
      ensures this.clip == clip
    {
      this.clip := clip;
    }

    /** The reward is clipped to [-clip, clip]; exactly a reward strictly
        outside that range is changed, and recorded in info. */
    method Step<O>(inner: StepResult<O>) returns (r: StepResult<O>)
      ensures r.obs == inner.obs && r.done == inner.done
      ensures clip >= 0.0 ==> -clip <= r.reward <= clip
      ensures var outside := inner.reward > clip || inner.reward < -clip;
        && (outside ==> r.reward == Clip(inner.reward, -clip, clip) && r.info == inner.info[UnclippedKey := Num(inner.reward)])
        && (!outside ==> r == inner)
    {
      r := inner;
      if inner.reward > clip || inner.reward < -clip {
        r := inner.(reward := Clip(inner.reward, -clip, clip), info := inner.info[UnclippedKey := Num(inner.reward)]);
      }
    }
  }

  // ---------------------------------------------------------------------
  // FrameStack

  /** `np.roll(stack, -1, axis=0)` followed by writing the newest frame last. */
  function Pushed<F>(s: seq<F>, f: F): (r: seq<F>)
    ensures |r| == |s|
  {
    if s == [] then [] else s[1..] + [f]
  }

  function PushedTimes<F>(s: seq<F>, f: F, k: nat): (r: seq<F>)
    ensures |r| == |s|
  {
    if k == 0 then s else Pushed(PushedTimes(s, f, k - 1), f)
  }

  /** After k pushes of the same frame (k at most the stack size) the oldest
      slots are the old stack shifted by k and the newest k slots hold the frame. */
  lemma {:induction false} PushedTimesShape<F>(s: seq<F>, f: F, k: nat)
    requires k <= |s|
    ensures PushedTimes(s, f, k) == s[k..] + seq(k, _ => f)
  {
    if k > 0 {
      PushedTimesShape(s, f, k - 1);
      var p := s[k - 1..] + seq(k - 1, _ => f);
      assert p[1..] == s[k..] + seq(k - 1, _ => f);
      assert s[k..] + seq(k - 1, _ => f) + [f] == s[k..] + seq(k, _ => f);
    }
  }

  /** Pushing one frame as often as there are slots fills every slot with it. */
  lemma PushedFills<F>(s: seq<F>, f: F)
    ensures PushedTimes(s, f, |s|) == seq(|s|, _ => f)
  {
    PushedTimesShape(s, f, |s|);
    assert s[|s|..] == [];
  }

  /** `l * n` on a list: n copies of l one after another. */
  function Repeat<T>(l: seq<T>, n: nat): (r: seq<T>)
    ensures |r| == |l| * n
  {
    if n == 0 then [] else Repeat(l, n - 1) + l
  }

  /** a + b copies are a copies followed by b copies. */
  lemma {:induction false} RepeatAdd<T>(l: seq<T>, a: nat, b: nat)
    ensures Repeat(l, a + b) == Repeat(l, a) + Repeat(l, b)
  {
    if b > 0 {
      RepeatAdd(l, a, b - 1);
      assert Repeat(l, a + b) == Repeat(l, a + b - 1) + l;
    }
  }

  const StackColourError: string := "AssertionError: Stacking does not support color at the moment."

  class FrameStack<O, F> {
    const nStacks: nat
    const originalChannels: nat
    /** obs[:, :, 0]: the first channel of an inner observation. */
    const firstChannel: O -> F
    const stack: array<F>

    /** Grey or colour frames, one slot per channel of every stacked frame. */
    ghost predicate Valid()
      reads this
    {
      && (originalChannels == 1 || originalChannels == 3)
      && stack.Length == nStacks * originalChannels
    }

    /** The observation space is c x h x w with c in {1, 3}. */
    constructor (nStacks: nat, originalChannels: nat, firstChannel: O -> F, blank: F)
      requires originalChannels == 1 || originalChannels == 3
      ensures this.nStacks == nStacks && this.originalChannels == originalChannels
      ensures this.firstChannel == firstChannel
      ensures fresh(stack) && stack[..] == seq(nStacks * originalChannels, _ => blank)
      ensures Valid()
    {
      this.nStacks, this.originalChannels, this.firstChannel := nStacks, originalChannels, firstChannel;
      stack := new F[nStacks * originalChannels](_ => blank);
    }

    /** `_push_obs`: only single-channel frames can be stacked; the stack moves
        one slot towards the front and the newest frame goes last. */
    method PushObs(obs: O) returns (res: Result<(), string>)
      modifies stack
      ensures originalChannels != 1 ==> res == Err(StackColourError) && stack[..] == old(stack[..])
      ensures originalChannels == 1 ==> res == Ok(()) && stack[..] == Pushed(old(stack[..]), firstChannel(obs))
    {
      if originalChannels != 1 {
        return Err(StackColourError);
      }
      var n := stack.Length;
      if n > 0 {
        var i := 0;
        while i < n - 1
          invariant 0 <= i <= n - 1
          invariant forall j :: 0 <= j < i ==> stack[j] == old(stack[j + 1])
          invariant forall j :: i <= j < n ==> stack[j] == old(stack[j])
        {
          stack[i] := stack[i + 1];
          i := i + 1;
        }
        stack[n - 1] := firstChannel(obs);
        assert stack[..] == stack[..n - 1] + [stack[n - 1]];
      }
      return Ok(());
    }

    /** `step`: pushes the new frame and returns a snapshot of the stack,
        with the channel names repeated once per stacked frame. */
    method Step(inner: StepResult<O>) returns (res: Result<StepResult<seq<F>>, string>)
      modifies stack
      ensures originalChannels != 1 ==> res == Err(StackColourError) && stack[..] == old(stack[..])
      ensures originalChannels == 1 ==> stack[..] == Pushed(old(stack[..]), firstChannel(inner.obs))
      ensures originalChannels == 1 ==> res.Ok? && res.value.obs == stack[..]
      ensures res.Ok? ==> res.value.reward == inner.reward && res.value.done == inner.done
      ensures res.Ok? && ChannelsKey in inner.info && inner.info[ChannelsKey].Names? ==>
                res.value.info == inner.info[ChannelsKey := Names(Repeat(inner.info[ChannelsKey].names, nStacks))]
      ensures res.Ok? && !(ChannelsKey in inner.info && inner.info[ChannelsKey].Names?) ==> res.value.info == inner.info
    {
      var pushed := PushObs(inner.obs);
      if pushed.Err? {
        return Err(pushed.error);
      }
      var info := inner.info;
      if ChannelsKey in info && info[ChannelsKey].Names? {
        info := info[ChannelsKey := Names(Repeat(info[ChannelsKey].names, nStacks))];
      }
      return Ok(StepResult(stack[..], inner.reward, inner.done, info));
    }

    /** `reset`: the first frame is pushed once per stacked frame, so every
        slot holds it; with no stacked frames nothing is pushed, and colour
        frames are accepted. */
    method Reset(obs: O) returns (res: Result<seq<F>, string>)
      requires Valid()
      modifies stack
      ensures nStacks > 0 && originalChannels != 1 ==> res == Err(StackColourError) && stack[..] == old(stack[..])
      ensures nStacks == 0 ==> res == Ok([]) && stack[..] == old(stack[..])
      ensures originalChannels == 1 ==> res == Ok(stack[..])
      ensures originalChannels == 1 ==> stack[..] == seq(stack.Length, _ => firstChannel(obs))
    {
      if nStacks == 0 {
        return Ok(stack[..]);
      }
      if originalChannels != 1 {
        var pushed := PushObs(obs);
        return Err(pushed.error);
      }
      assert stack.Length == nStacks;
      var k := 0;
      while k < nStacks
        invariant 0 <= k <= nStacks
        invariant stack[..] == PushedTimes(old(stack[..]), firstChannel(obs), k)
      {
        var _ := PushObs(obs);
        k := k + 1;
      }
      PushedFills(old(stack[..]), firstChannel(obs));
      return Ok(stack[..]);
    }
  }

  // ---------------------------------------------------------------------
  // NullActionWrapper

  class NullActionWrapper<O> {
    var prevObs: Option<O>
    var prevTimeFrac: InfoValue

    constructor ()
      ensures prevObs == None && prevTimeFrac == Num(0.0)
    {
      prevObs, prevTimeFrac := None, Num(0.0);
    }

    /** A negative action freezes the environment: the previous observation,
        no reward, not done, and the last time fraction seen. Otherwise the
        inner step passes through and is remembered. */
    method Step(action: int, inner: StepResult<O>) returns (r: StepResult<Option<O>>)
      modifies this
      ensures action < 0 ==> r == StepResult(old(prevObs), 0.0, false, map[TimeFracKey := old(prevTimeFrac)])
      ensures action < 0 ==> prevObs == old(prevObs) && prevTimeFrac == old(prevTimeFrac)
      ensures action >= 0 ==> r == StepResult(Some(inner.obs), inner.reward, inner.done, inner.info)
      ensures action >= 0 ==> prevObs == Some(inner.obs)
      ensures action >= 0 ==> prevTimeFrac == (if TimeFracKey in inner.info then inner.info[TimeFracKey] else old(prevTimeFrac))
    {
      if action < 0 {
        return StepResult(prevObs, 0.0, false, map[TimeFracKey := prevTimeFrac]);
      }
      prevObs := Some(inner.obs);
      if TimeFracKey in inner.info {
        prevTimeFrac := inner.info[TimeFracKey];
      }
      return StepResult(Some(inner.obs), inner.reward, inner.done, inner.info);
    }

    method Reset(obs: O) returns (r: O)
      modifies this
      ensures r == obs && prevObs == Some(obs) && prevTimeFrac == old(prevTimeFrac)
    {
      prevObs := Some(obs);
      return obs;
    }
  }

  // ---------------------------------------------------------------------
  // get_wrapper

  /** `get_wrapper(env, wrapper_type)`: `chain` lists the type of each env met
      along `.env`, outermost first; the innermost has no `.env`. The answer
      is the position of the first env of the requested type. */
  method GetWrapper(chain: seq<string>, wrapperType: string) returns (r: Option<nat>)
    ensures r.Some? ==> r.value < |chain| && chain[r.value] == wrapperType
    ensures r.Some? ==> forall j :: 0 <= j < r.value ==> chain[j] != wrapperType
    ensures r.None? <==> forall j :: 0 <= j < |chain| ==> chain[j] != wrapperType
  {
    var i := 0;
    while i < |chain|
      invariant 0 <= i <= |chain|
      invariant forall j :: 0 <= j < i ==> chain[j] != wrapperType
    {
      if chain[i] == wrapperType {
        return Some(i);
      }
      i := i + 1;
    }
    return None;
  }
}
