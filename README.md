# PPO / TVF return estimation: a Dafny model

This project models the computational core of a PPO agent with truncated value
functions (TVF). The agent learns one value estimate per reward horizon. The
model covers:

- **Return and advantage estimators** that turn a rollout into training
  targets. These are bootstrapped returns, time-to-go ("TP") returns, GAE, and
  the TVF n-step, Monte-Carlo, TD(0) and λ targets over a table of horizons.
  The model also covers rediscounting a horizon-indexed value curve to a new
  discount, and the integer horizon lists the agent samples.
- **The experience replay buffer**, a fixed-size store that is filled in place
  under the uniform, overwrite and sequential policies.
- **Gym wrappers** that keep small per-episode state. These are the time
  limit, deferred reward, episode score, life-loss terminal, reward clip, frame
  stack, null action and wrapper-chain lookup.
- **Start-up helpers and utilities**: `str2bool`, `prod`, `smooth`,
  `safe_mean`/`safe_round`, dynamic time warping, run-folder GUID recovery,
  the worker-count adjustment and the resolution lookup.

The model follows the form of the code:

- The estimators work agent by agent. The arrays are independent along the
  agent axis, so the `[N, A]` and `[N, A, H]` arrays become a per-agent
  `seq<real>` and an `array2<real>` of shape `[N, H]`, filled by loops just as
  in the source.
- Each method is proved against a recursive specification function. The
  properties the code promises are then proved as lemmas about those functions.
- The replay buffer and the wrappers are classes whose methods update their
  fields and arrays in place.
- The inner environment's `step` result is a method argument.
- Random draws are nondeterministic choices: a relation on the result, with a
  `:|` choice in the method.
- Floating point numbers are Dafny `real`s.

Modules:

| module | file | what it models |
|---|---|---|
| `Common` | common.dfy | Option/Result, powers, Python `round`, `int()`, `math.ceil`, ASCII `lower()`, Python's negative slices |
| `Sorting` | sorting.dfy | `sort`/`sorted`, as insertion sort under a total preorder |
| `Returns` | returns.dfy | `calculate_tp_returns`, `calculate_bootstrapped_returns`, `calculate_gae` |
| `Tvf` | tvf.dfy | `calculate_tvf_n_step`, `calculate_tvf_mc`, `calculate_tvf_td`, `calculate_tvf_lambda` |
| `Rediscount` | rediscount.dfy | `get_rediscounted_value_estimate`, the dynamic horizon list |
| `Horizons` | horizons.dfy | `generate_horizon_sample`, `get_standard_horizon_sample`, `expand_to_na`/`expand_to_h` |
| `Replay` | replay.dfy | `ExperienceReplayBuffer`, `smart_sample` |
| `Wrappers` | wrappers.dfy | the eight state-keeping wrappers and `get_wrapper` |
| `Utils` | utils.dfy | `str2bool`, `prod`, `smooth`, `safe_mean`, `safe_round`, `dtw` |
| `Train` | train.dfy | `get_previous_experiment_guid`, the log-folder name, worker count, resolution |

## Model

| member | source | states |
|---|---|---|
| Common.RoundHalfEven | src/utils.py:98-99 | Python's `round` to an integer lands within 1/2 of its argument |
| Common.RoundOfInt | src/utils.py:98-99 | rounding leaves an integer unchanged |
| Common.RoundMonotone | src/utils.py:98-99 | rounding is monotone |
| Common.Trunc | rl/rollout.py:227 | `int()` truncates toward zero: within 1 of its argument, on the zero side |
| Common.CeilDiv | rl/replay.py:90 | `math.ceil(a / b)` is the least q with a ≤ q·b |
| Common.Lower | train.py:62 | `lower()` keeps the length and lower-cases each character |
| Common.LowerIdempotent | train.py:62 | lower-casing twice is lower-casing once |
| Common.DropLast | train.py:17 | `f[:-k]` is the prefix without the last k characters, and empty when the string is shorter |
| Common.TakeLast | train.py:88 | `s[-k:]` is the last k characters, or the whole string when it is shorter |
| Common.SliceFromEnd | train.py:18 | `f[-a:-b]` is the slice between the a-th and b-th characters from the end, and empty when too short |
| Common.PowAdd | rl/rollout.py:237 | λ^(a+b) = λ^a·λ^b, used to combine discount factors |
| Common.SumRealsAppend | rl/wrappers.py:318 | a running reward sum extends by the new reward |
| Sorting.Insert | rl/rollout.py:2102 | inserting keeps every element and adds the new one (multiset) |
| Sorting.Sort | rl/rollout.py:2102 | sorting is a permutation: same length, same multiset |
| Sorting.SortSorted | rl/rollout.py:2102 | under a total preorder the result is sorted |
| Sorting.SortSameElements | rl/replay.py:97 | sorting neither adds nor drops a value |
| Sorting.SortOfSorted | rl/rollout.py:2102 | sorting an already sorted sequence changes nothing |
| Sorting.SortedPermutationUnique | rl/replay.py:97 | two sorted integer sequences with the same multiset are equal |
| Sorting.RealLeTotal | rl/rollout.py:2102 | `<=` on reals is a total preorder |
| Sorting.IntLeTotal | rl/replay.py:97 | `<=` on integers is a total preorder |
| Returns.Const | rl/rollout.py:89-90 | a scalar γ broadcast to one value per step |
| Returns.DiscountPeel | rl/rollout.py:92-93 | the discount over k+1 steps is γ(1−d) of the first step times the discount over the rest |
| Returns.RewardSumPeel | rl/rollout.py:92-93 | the reward sum over k+1 steps is r plus γ(1−d) times the sum over the rest |
| Returns.DiscountZeroAfterTerminal | rl/rollout.py:93 | the discount vanishes once a terminal step has been passed |
| Returns.RewardSumStopsAtTerminal | rl/rollout.py:93 | rewards after a terminal step add nothing |
| Returns.CalculateBootstrappedReturns | rl/rollout.py:72-95 | each output is the backward recurrence seeded with the final value estimate, for scalar or per-step γ |
| Returns.BootstrappedClosedForm | rl/rollout.py:86-95 | return[i] = discounted sum of rewards from i to N−1 plus the discounted final estimate |
| Returns.BootstrappedAtTerminal | rl/rollout.py:93 | at a terminal step the return is the reward alone |
| Returns.BootstrappedNoLeak | rl/rollout.py:86-95 | returns up to a terminal step do not depend on anything after it (rewards, dones, γ, final estimate) |
| Returns.BootstrappedScenario | rl/rollout.py:72-95 | four rewards of 1, γ = 0.9, final value 5: the return at t=0 is 6.7195 |
| Returns.CalculateTpReturns | rl/rollout.py:52-69 | each output is the time-to-go recurrence 1 + γ_tp(1−d)·next, seeded with the final estimate |
| Returns.TpIsBootstrappedCount | rl/rollout.py:52-69 | TP returns are bootstrapped returns of a reward of 1 per step at γ = 0.99 |
| Returns.TdErrors | rl/rollout.py:112-118 | the δ_t sequence has one TD error per step |
| Returns.CalculateGae | rl/rollout.py:98-120 | each advantage is the GAE recurrence seeded with the final value; a missing terminal array means no terminals |
| Returns.GaeStep | rl/rollout.py:114-118 | one backward step of the loop yields the GAE of step t from that of t+1 |
| Returns.GaeAtTerminal | rl/rollout.py:116-118 | a terminal step zeroes the bootstrap and the carried advantage: adv = r − v |
| Returns.GaeLambdaZero | rl/rollout.py:114-118 | with λ = 0 each advantage is the one-step TD error |
| Returns.GaeIsDiscountedTdSum | rl/rollout.py:112-120 | the advantage is the (γλ)-discounted sum of TD errors, cut at terminals |
| Returns.GaeLambdaOneIsReturn | rl/rollout.py:112-120 | with λ = 1, advantage + value equals the bootstrapped return with the same γ |
| Tvf.StepsMade | rl/rollout.py:266-277 | the n-step loop collects min(n_step, N−t, H−1) rewards, and none when H or n_step is 0 |
| Tvf.RewardSums | rl/rollout.py:275-280 | one partial reward sum per collected step |
| Tvf.RewardSumsAt | rl/rollout.py:275-280 | the h-th partial sum is the discounted sum of the first h rewards |
| Tvf.CollectStep | rl/rollout.py:274-277 | one pass of the reward loop extends the reward sum and the discount by one step |
| Tvf.CollectRewards | rl/rollout.py:264-280 | writes returns[t, h] for 1 ≤ h ≤ steps_made as the discounted partial sums, and changes no other cell |
| Tvf.AddBootstrap | rl/rollout.py:286-287 | adds reward_sum + discount·bootstrap[h−s] to each cell beyond steps_made, and changes no other cell |
| Tvf.NStepRow | rl/rollout.py:261-287 | fills row t with the n-step cells and leaves other rows alone |
| Tvf.McRow | rl/rollout.py:315-341 | fills row t with the Monte-Carlo cells and leaves other rows alone |
| Tvf.CalculateTvfNStep | rl/rollout.py:242-294 | every cell of the fresh [N, H] table is the n-step target; column 0 stays 0 |
| Tvf.CalculateTvfMc | rl/rollout.py:297-343 | every cell is the Monte-Carlo target, bootstrapped from the final estimate |
| Tvf.CalculateTvfTd | rl/rollout.py:346-382 | every cell with h ≥ 1 is r + γ(1−d)·V[t+1, h−1], just r at h = 1; column 0 stays 0 |
| Tvf.NStepOneIsTd | rl/rollout.py:242-382 | n_step = 1 gives the TD table, cell by cell |
| Tvf.NStepLongIsMc | rl/rollout.py:242-343 | n_step ≥ N gives the Monte-Carlo table, cell by cell |
| Tvf.BootstrapCellStopsAtTerminal | rl/rollout.py:275-287 | past a terminal inside the window a cell is the reward sum up to it |
| Tvf.NStepStopsAtTerminal | rl/rollout.py:275-287 | an n-step cell beyond a terminal ignores later rewards and the bootstrap |
| Tvf.McStopsAtTerminal | rl/rollout.py:329-341 | likewise for the Monte-Carlo target |
| Tvf.NStepTargets | rl/rollout.py:229-231 | the list g holds one target per n = 1..K |
| Tvf.NStepTargetsAt | rl/rollout.py:229-231 | g[i] is the (i+1)-step target |
| Tvf.CombineSnoc | rl/rollout.py:235-237 | each pass of the combining loop adds g[i]·λ^i·(1−λ) |
| Tvf.Column | rl/rollout.py:233-237 | one cell read across the tables of g |
| Tvf.CombineTables | rl/rollout.py:233-237 | every cell of the combined table is Σ_i g[i]·λ^i·(1−λ) over that cell |
| Tvf.ScaledFirst | rl/rollout.py:235 | the result starts as g[0]·(1−λ) |
| Tvf.AddStep | rl/rollout.py:236-237 | one pass adds the next table's weighted term |
| Tvf.AddScaled | rl/rollout.py:237 | `result += g[i]·w·c`, cell by cell |
| Tvf.CalculateTvfLambda | rl/rollout.py:208-239 | λ = 0 gives TD and λ = 1 gives MC. Otherwise the result is the λ-combination of the first K n-step tables. It fails exactly when K < 1 (`g[0]` of an empty list) |
| Tvf.LambdaDefinedIff | rl/rollout.py:221-235 | a result exists iff λ ∈ {0, 1}, or 0 < λ < 1 and n_steps ≥ 1 |
| Tvf.LambdaWeightTotalClosed | rl/rollout.py:233-237 | the K weights (1−λ)λ^i total 1 − λ^K |
| Tvf.CombineOfAgreeing | rl/rollout.py:233-237 | targets that all equal c combine to c·(1 − λ^K) |
| Tvf.LambdaUnderweights | rl/rollout.py:227-237 | a one-step episode whose every n-step target is 1 gets the λ-target 0.5 at λ = 0.5 |
| Tvf.CorrectedCombineKeepsAgreement | rl/rollout.py:233-237 | with the last weight λ^(K−1), targets that all equal c combine to c |
| Tvf.CorrectedLambdaScenario | rl/rollout.py:227-237 | the corrected target of the same episode is the exact return 1 |
| Rediscount.RediscountStep | rl/rollout.py:2870-2873 | one pass recovers the next reward, re-weights it and extends the sum |
| Rediscount.GetRediscountedValueEstimate | rl/rollout.py:2844-2875 | the loop's result equals the rediscounted sum; equal γs return the last column. A too-short row is the source's IndexError; old^h = 0, where torch divides by zero and yields inf or nan, is reported as Err(NonFinite) |
| Rediscount.RediscountTelescopes | rl/rollout.py:2869-2873 | with old = new the loop's sum telescopes to the last column it reads |
| Rediscount.RediscountIdentity | rl/rollout.py:2858-2859 | equal discounts return values[−1] unchanged |
| Rediscount.RediscountLinear | rl/rollout.py:2869-2873 | the estimate is linear in the value row |
| Rediscount.RediscountToSmallerGamma | rl/rollout.py:2869-2873 | for a nondecreasing curve and 0 < new ≤ old, the estimate lies between 0 and the last value read |
| Rediscount.Reverse | rl/rollout.py:1597 | `[::-1]` reverses |
| Rediscount.RangeDownAt | rl/rollout.py:1597 | `range(start, stop, −step)`'s i-th element is start − i·step, above stop |
| Rediscount.RangeDownEnds | rl/rollout.py:1597 | the range stops at the first value at or below stop |
| Rediscount.DynamicHorizonsShape | rl/rollout.py:1587-1597 | for a positive effective horizon: at most 400 horizons, increasing by step_skip, starting in 1..step_skip, ending at the effective horizon |
| Rediscount.DynamicHorizonsZero | rl/rollout.py:1594-1597 | an effective horizon of 0 gives step 0, which `range` rejects |
| Horizons.ParseDistributionNames | rl/rollout.py:2082-2100 | the six distribution names are recognised exactly |
| Horizons.Arange | rl/rollout.py:2078-2079 | `np.arange(0, n)` is 0..n−1 |
| Horizons.Linspace | rl/rollout.py:2082-2083 | `np.linspace` yields num points |
| Horizons.GeomWitness | rl/rollout.py:2084-2085 | geomspace-shaped draws exist for every size |
| Horizons.Draw | rl/rollout.py:2082-2098 | the draw satisfies the distribution's shape (count and range) |
| Horizons.DrawnShape | rl/rollout.py:2082-2098 | any draw has the distribution's length, 2·(samples div 2) for the saturated variants, and lies in [0, max] |
| Horizons.LinspaceAt | rl/rollout.py:2082-2083 | linspace points lie in [0, max], with first 0 and last max |
| Horizons.LinspaceSorted | rl/rollout.py:2082-2083 | linspace is sorted |
| Horizons.Rint | rl/rollout.py:2106 | `np.rint` keeps the length |
| Horizons.RintKeepsOrder | rl/rollout.py:2106 | rounding sorted values in [0, max] gives nondecreasing ints in [0, max] |
| Horizons.ForceKeepsOrder | rl/rollout.py:2103-2105 | forcing first 0 and last max keeps a sorted sample sorted and in range |
| Horizons.SortKeepsWithin | rl/rollout.py:2102 | sorting keeps values in range |
| Horizons.FinishShape | rl/rollout.py:2102-2106 | sort, force, rint yields nondecreasing ints in [0, max], last = max (and first = 0 for length ≥ 2) when forced |
| Horizons.FixedLinearFinish | rl/rollout.py:2082-2105 | fixed_linear is already sorted and already starts at 0 and ends at max |
| Horizons.ForceFixes | rl/rollout.py:2103-2105 | forcing a sample that already starts at 0 and ends at max changes nothing |
| Horizons.SampleDistribution | rl/rollout.py:2081-2106 | the errors are `choice` over too small a population and forcing an empty sample; otherwise the sample has the right shape |
| Horizons.GenerateHorizonSample | rl/rollout.py:2061-2106 | samples = −1 or ≥ max+1 gives 0..max. An unknown name, a negative size, an oversized `choice` and forcing an empty sample are the only errors. Otherwise nondecreasing ints of the distribution's length in [0, max], with first 0 and last max when forced |
| Horizons.FixedLinearScenario | rl/rollout.py:2082-2083 | fixed_linear with max 100 and 5 samples is [0, 25, 50, 75, 100] |
| Horizons.UpTo | rl/rollout.py:611-612 | the filtered ladder keeps exactly the rungs ≤ max_horizon |
| Horizons.UpToIncreasing | rl/rollout.py:611-612 | filtering keeps the ladder increasing |
| Horizons.WithMaxShape | rl/rollout.py:611-615 | after appending max when absent: increasing, ends at max, holds exactly the rungs ≤ max and max |
| Horizons.StandardHorizonSampleShape | rl/rollout.py:610-616 | for max ≤ 30000: increasing, starts at 1 when max ≥ 1, ends at max_horizon |
| Horizons.StandardHorizonSampleTooLarge | rl/rollout.py:610 | max_horizon above 30000 is refused |
| Horizons.RepeatEach | rl/rollout.py:2952 | `np.repeat` along an axis: |s|·k entries, each one of s |
| Horizons.RepeatSingleton | rl/rollout.py:2962 | repeating one entry k times gives k copies of it |
| Horizons.ExpandToNaSlices | rl/rollout.py:2946-2954 | the two repeats give shape [n, a] with every slice equal to x |
| Horizons.ExpandToHLayers | rl/rollout.py:2956-2964 | each of the h layers of the result is x |
| Replay.SmartSample | rl/replay.py:120-132 | satisfies the sampling relation; the recursion never terminates exactly when x is empty and n > 0, which is the error it reports |
| Replay.PrefixSubMultiset | rl/replay.py:130 | a prefix draws nothing the population lacks |
| Replay.SmartSampledFrom | rl/replay.py:120-132 | exactly n elements, all from x |
| Replay.DistinctCounts | rl/replay.py:130 | a repeat-free sequence holds each value at most once |
| Replay.NoRepeats | rl/replay.py:129-130 | for n ≤ \|x\| over distinct x the sample has no repeats |
| Replay.FullDrawOnce | rl/replay.py:129-132 | a full draw without replacement holds each element exactly once |
| Replay.SmartSampledBalanced | rl/replay.py:126-132 | for n ≥ \|x\| every element appears; each count c satisfies (c−1)·\|x\| < n < (c+1)·\|x\|, so counts differ by at most 1 |
| Replay.CountStep | rl/replay.py:132 | one more full round raises the count by one and keeps it balanced |
| Replay.PartialDrawAtMostOnce | rl/replay.py:129-130 | a draw of fewer than \|x\| is balanced |
| Replay.CountSplit | rl/replay.py:132 | counts add across a concatenation |
| Replay.Range | rl/replay.py:72 | `range(n)` is 0..n−1 |
| Replay.Survivors | rl/replay.py:74-78 | the kept ids are exactly the rows whose hash is not held, in increasing order without repeats |
| Replay.CandidateRows | rl/replay.py:72-80 | with filtering no kept row's hash is in `hashes`; without it every row is kept; either way in increasing order |
| Replay.EntriesToAdd | rl/replay.py:85-94 | the first call adds N. Uniform adds ⌈new·N/(seen+new)⌉ ≤ N, overwrite and sequential add new. Any other mode raises `Invalid mode` |
| Replay.CeilAtMost | rl/replay.py:90 | the uniform count never exceeds N |
| Replay.RingSlots | rl/replay.py:102-104 | sequential slots are (seen + i) mod N |
| Replay.FirstRingFill | rl/replay.py:102-104 | a first sequential fill writes exactly slots 0..N−1 |
| Replay.Gather | rl/replay.py:111 | `new_experience[source]` per source |
| Replay.HashesOf | rl/replay.py:70-75 | each row's hash reduced mod 2^64 |
| Replay.Scatter | rl/replay.py:108-115 | writing each value to its destination in order keeps the length |
| Replay.ScatterUntouched | rl/replay.py:108-115 | slots outside the destinations keep their value |
| Replay.ScatterLastWrite | rl/replay.py:108-115 | the last write to a slot wins |
| Replay.ScatterSnoc | rl/replay.py:108-115 | one pass writes one slot |
| Replay.ExperienceReplayBuffer.constructor | rl/replay.py:27-39 | N zero rows, zero times and hashes, nothing seen |
| Replay.ExperienceReplayBuffer.SaveState | rl/replay.py:41-48 | the saved state is the buffer's N, experience_seen, data, time and hashes |
| Replay.ExperienceReplayBuffer.LoadState | rl/replay.py:50-55 | loading installs copies of the saved fields, so `load_state(save_state())` restores the buffer |
| Replay.ExperienceReplayBuffer.AddExperience | rl/replay.py:57-117 | data, hashes (when filtering) and time (when given) change only at the destinations, each taking its sampled source row. experience_seen grows by the surviving count. The sources are a smart sample of the candidate rows, sorted; on a later call in overwrite or sequential mode they are the candidate rows themselves, each written once. The errors are an unknown mode, sampling from nothing, or the IndexError of writing into an empty buffer (line 111), and they leave the buffer unchanged |
| Replay.ExperienceReplayBuffer.WriteStep | rl/replay.py:111-115 | one pass of the copy loop |
| Replay.ExperienceReplayBuffer.Write | rl/replay.py:108-115 | the copy loop leaves each array equal to its scatter of the sources |
| Replay.MakePlan | rl/replay.py:83-106 | the count, the sources as the sorted smart sample of the candidates, and the destinations, or the error that stops them |
| Replay.LaterCallWritesEveryRowOnce | rl/replay.py:88-97 | on a later call in overwrite or sequential mode, sorted(smart_sample(ids, len(ids))) is ids itself: every candidate row once, in order |
| Replay.Destinations | rl/replay.py:102-106 | sequential mode gives ring slots; otherwise a sample of range(N); an empty buffer fails |
| Replay.FilteredRowsAreNew | rl/replay.py:74-96 | with filtering no copied row's hash was already held |
| Replay.SortedSample | rl/replay.py:96-97 | the sorted sample is a sorted permutation of the draw, drawn from the ids |
| Wrappers.TimeLimitWrapper.constructor | rl/wrappers.py:529-532 | the counter starts at 0 |
| Wrappers.TimeLimitWrapper.Step | rl/wrappers.py:534-544 | counts the step and forces done with `TimeLimit.truncated` once the limit is reached. time_frac is elapsed/max when not done and 0 when done, always in [0, 1) |
| Wrappers.TimeLimitWrapper.Reset | rl/wrappers.py:546-548 | the counter returns to 0 |
| Wrappers.DeferredRewardWrapper.constructor | rl/wrappers.py:305-310 | nothing received or pending |
| Wrappers.DeferredRewardWrapper.Step | rl/wrappers.py:312-325 | emits 0, except at t = time_limit (or at done when time_limit = −1), where it emits and clears the accumulated reward. Emitted plus pending always equals the rewards received since reset |
| Wrappers.DeferredRewardWrapper.Reset | rl/wrappers.py:327-331 | clears the step counter and the pending reward |
| Wrappers.EpisodeScoreWrapper.constructor | rl/wrappers.py:652-655 | score and length start at 0 |
| Wrappers.EpisodeScoreWrapper.Step | rl/wrappers.py:657-663 | after k steps ep_length = k and ep_score = the sum of the k rewards, both in info |
| Wrappers.EpisodeScoreWrapper.Reset | rl/wrappers.py:665-669 | score and length return to 0 |
| Wrappers.EpisodicLifeEnv.constructor | rl/wrappers.py:196-202 | no lives seen, real done |
| Wrappers.EpisodicLifeEnv.Step | rl/wrappers.py:204-217 | a life loss (0 < lives < previous) gives done with `fake_done`. was_real_done is the inner done, and lives is stored |
| Wrappers.EpisodicLifeEnv.Reset | rl/wrappers.py:219-230 | resets the inner env only after a real done, otherwise takes a no-op step; lives is refreshed |
| Wrappers.Clip | rl/wrappers.py:295 | clipping lands in [lo, hi] and leaves values inside unchanged |
| Wrappers.ClipRewardWrapper.constructor | rl/wrappers.py:286-288 | stores the clip bound |
| Wrappers.ClipRewardWrapper.Step | rl/wrappers.py:290-297 | reward in [−clip, clip]. `unclipped_reward` is set exactly when the inner reward was strictly outside |
| Wrappers.Pushed | rl/wrappers.py:758-762 | the roll-and-write keeps the stack size |
| Wrappers.PushedTimes | rl/wrappers.py:771-775 | k pushes keep the stack size |
| Wrappers.PushedTimesShape | rl/wrappers.py:758-775 | after k pushes the oldest slots are shifted out and the last k equal the frame |
| Wrappers.PushedFills | rl/wrappers.py:771-775 | n_stacks pushes of one frame fill every slot with it |
| Wrappers.Repeat | rl/wrappers.py:767-768 | `channels * n_stacks` has n times the names |
| Wrappers.RepeatAdd | rl/wrappers.py:767-768 | repeating a + b times is repeating a then b times |
| Wrappers.FrameStack.constructor | rl/wrappers.py:734-756 | for grey or colour frames (1 or 3 channels), a blank stack of n_stacks · channels slots |
| Wrappers.FrameStack.PushObs | rl/wrappers.py:758-762 | shifts the stack left by one and writes the newest frame last; colour frames are refused |
| Wrappers.FrameStack.Step | rl/wrappers.py:764-769 | pushes the observation, returns the stack, repeats the channel names n_stacks times |
| Wrappers.FrameStack.Reset | rl/wrappers.py:771-775 | every slot equals the first frame; with n_stacks = 0 nothing is pushed and the empty stack is returned even for colour frames; otherwise colour frames raise |
| Wrappers.NullActionWrapper.constructor | rl/wrappers.py:626-629 | no previous obs, time_frac 0 |
| Wrappers.NullActionWrapper.Step | rl/wrappers.py:631-639 | a negative action returns the previous obs, reward 0, not done and the last time_frac, and changes nothing. Otherwise passes the step through and records obs and time_frac |
| Wrappers.NullActionWrapper.Reset | rl/wrappers.py:641-644 | records the reset observation |
| Wrappers.GetWrapper | rl/wrappers.py:934-944 | the first position in the chain with the requested type; None exactly when none matches |
| Utils.Str2BoolCases | src/utils.py:25-35 | a bool passes through. Text is true iff its lower case is yes/true/t/y/1 and false iff it is no/false/f/n/0. Anything else raises |
| Utils.Str2BoolIgnoresCase | src/utils.py:28-33 | the result does not depend on case |
| Utils.Prod | src/utils.py:43-47 | the loop returns the product, 1 for an empty list |
| Utils.ProductAppend | src/utils.py:43-47 | the product of a concatenation is the product of the products |
| Utils.ProductExamples | src/utils.py:43-47 | prod([]) = 1 and prod([2, 3, 4]) = 24 |
| Utils.Smoothed | src/utils.py:81-87 | one output per input |
| Utils.Smooth | src/utils.py:81-87 | an empty list raises; otherwise the smoothed list seeded with X[0] |
| Utils.SmoothedPrefix | src/utils.py:84-87 | smoothing a prefix gives the prefix of the smoothing |
| Utils.SmoothedAt | src/utils.py:84-87 | the k-th output is one step from the previous output |
| Utils.SmoothShape | src/utils.py:81-87 | first output is X[0]; each next is (1−α)x + α·previous |
| Utils.SmoothFixed | src/utils.py:85 | a constant input is a fixed point |
| Utils.ConvexStep | src/utils.py:85 | for 0 ≤ α ≤ 1 a step stays between bounds of both its arguments |
| Utils.SmoothedBounded | src/utils.py:81-87 | for 0 ≤ α ≤ 1 the smoothed list stays within any bounds of the input |
| Utils.RoundToClose | src/utils.py:98-99 | rounding to d digits moves a value by at most half a unit in the last place |
| Utils.RoundScaledClose | src/utils.py:98-99 | the same at a positive scale factor |
| Utils.SafeMeanRounding | src/utils.py:90-96 | None exactly for an empty list; otherwise the mean, rounded when `rounding` is given |
| Utils.SafeRoundNone | src/utils.py:98-99 | None passes through |
| Utils.SumBounded | src/utils.py:94 | a sum of bounded terms is bounded by the count times the bounds |
| Utils.MeanBounded | src/utils.py:94 | the mean lies within any bounds of the elements |
| Utils.FillRow | src/utils.py:142-149 | fills row i with the DTW recurrence and leaves other rows unchanged |
| Utils.Dtw | src/utils.py:124-151 | DTW[0,0] = 0, the rest of row 0 and column 0 are ∞, each inner cell adds the cost to the least predecessor; returns the last cell |
| Utils.DtwNonNegative | src/utils.py:142-151 | with non-negative costs every cell is ≥ 0 or ∞ |
| Utils.DtwSelfZero | src/utils.py:142-151 | a sequence against itself gives 0 when cost(a, a) = 0 |
| Utils.DtwEmpty | src/utils.py:136-151 | two empty sequences give 0; exactly one empty gives ∞ |
| Train.FirstMatchSpec | train.py:16-20 | the GUID part of the first entry whose name part matches; None exactly when none matches |
| Train.PreviousExperimentGuidMissing | train.py:14-15 | a missing folder gives None |
| Train.FolderEntryName | train.py:88 | the folder name is the run name, " [", guid[-8:] and "]": 11 characters more than the run name for a guid of at least 8 characters, and |guid| + 3 more for a shorter one |
| Train.FolderEntryNameParts | train.py:88 | the folder name splits back into the run name and the last 8 GUID characters |
| Train.GuidRoundTrip | train.py:12-20 | a listing whose first match is the run's folder yields guid[−8:] |
| Train.AdjustWorkers | train.py:54-58 | a non-negative request is kept. A negative one becomes the largest count ≤ cpu_count that divides the agents, and is at least 1 |
| Train.ResolutionCases | train.py:61-65 | full, standard and half map to (210,160), (84,84), (42,42) in any case; every other name raises `Invalid resolution <lower-cased name>` |
| Train.ResolutionIgnoresCase | train.py:61-62 | the lookup does not depend on case |

Some functions of the model have no row of their own; each is stated by the lemma whose row cites the same source lines: Utils.Str2Bool by Utils.Str2BoolCases, Utils.SafeMean by Utils.SafeMeanRounding, Utils.SafeRound by Utils.SafeRoundNone and Utils.SafeMeanRounding, Train.PreviousExperimentGuid by Train.FirstMatchSpec, Train.Resolution by Train.ResolutionCases, Rediscount.DynamicHorizons by Rediscount.DynamicHorizonsShape and Rediscount.DynamicHorizonsZero, Horizons.StandardHorizonSample by Horizons.StandardHorizonSampleShape and Horizons.StandardHorizonSampleTooLarge, Horizons.ExpandToNa by Horizons.ExpandToNaSlices, and Horizons.ExpandToH by Horizons.ExpandToHLayers.

## Findings

| source | as written | input that shows it | evidently intended | confidence | as-written member | corrected member |
|---|---|---|---|---|---|---|
| rl/rollout.py:233-237 | the λ-target weights the first K n-step targets by (1−λ)λ^i, which total 1 − λ^K, so the target is scaled down | λ = 0.5, n_steps = 1, a one-step terminal episode with reward 1: every n-step target is 1 but the λ-target is 0.5 | the remaining mass λ^(K−1) goes to the last target, so the weights total 1 and agreeing targets give their common value | not executed | Tvf.LambdaUnderweights | Tvf.CorrectedCombineKeepsAgreement |

## Left out

- Torch and numpy dtypes, devices and batching: values are exact reals, not float32, and the agent axis is modelled one agent at a time.
- Returns.CalculateGae: the `normalize` branch (mean and standard deviation over the batch) is not modelled.
- `calculate_gae_tvf` (rl/rollout.py:126-205) is not modelled: as written it cannot run (mismatched array shapes and a scalar passed where a discount function is expected).
- rl/returns.py (`get_return_estimate` and its estimators) is not part of this model.
- Horizons.Draw: the random distributions are described only by their length and range, and the fixed geometric ones also by their first and last points; the values of `np.geomspace` and `np.random` are not computed.
- Horizons.StandardHorizonSampleShape: the `tvf_mode == "fixed"` branch of `get_standard_horizon_sample`, which asserts configuration flags and defers to `generate_horizon_sample`, is not modelled.
- Rediscount.GetRediscountedValueEstimate: when `old_gamma ** h` is 0 the source divides by zero and carries inf or nan on without raising; the model returns Err(NonFinite) instead of those values.
- Tvf.CalculateTvfLambda: the window K = int(min(1/(1−λ), n_steps, 100)) is computed in exact reals. In double precision 1/(1−0.95) is just below 20 and 1/(1−0.99) just below 100, so the source truncates to 19 and 99 where the model gets 20 and 100 and combines one more n-step table, with other weights.
- Rediscount.DynamicHorizonsShape: the effective horizon, `min(round(7/(1−γ)), max_horizon)` in floating point, is an input.
- Common.Lower: lower-casing covers ASCII letters only.
- Utils.RoundTo: rounds the exact real; floating-point representation error in Python's `round(x, d)` is not modelled.
- Utils.Dtw: the cost `mse` is an arbitrary function argument (non-negative where a lemma needs it); the table is built but only its last cell is returned, as in the source.
- Replay.SmartSample: the recursion is unbounded in the model. In Python `smart_sample` recurses once per full pass over x, so a draw of more than about 1000·|x| entries (CPython's default recursion limit) raises RecursionError, e.g. `smart_sample([0], 2000)`; the model returns the sample. The same holds for Replay.Destinations (`smart_sample(range(N), count)` outside sequential mode), Replay.MakePlan and Replay.ExperienceReplayBuffer.AddExperience, whose errors are only those of an empty population or an empty buffer.
- Replay.EntriesToAdd: the uniform count is the exact rational ceiling of new·N/(seen + new), not `math.ceil` of the float product; they can differ, e.g. seen = 5, new = 9, N = 42, where `(9/14)*42` is 27.000000000000004 in double precision, so the source adds 28 entries and the model 27.
- Replay.Destinations: outside sequential mode it inherits the recursion limit of Replay.SmartSample: for more than about 1000·N entries `smart_sample(range(N), count)` raises RecursionError in the source, and the model returns the sample.
- Replay.MakePlan: inherits the same recursion limit through `smart_sample(ids, entries_to_add)` and Replay.Destinations; the model reports no error there.
- Replay.ExperienceReplayBuffer.AddExperience: requires `new_time` to cover every row; with a shorter `new_time` the source raises `IndexError` part way through the copy loop, which is not modelled.
- Replay.ExperienceReplayBuffer.AddExperience: the shape and dtype assertions are enforced by typing; SHA-256 is an abstract hash function; in sequential mode with N = 0, `np.mod` gives 0 with a warning and the first write `self.data[destination]` raises `IndexError`, which the model reports as `Err(IndexError)` before any write; the uniform count is the exact rational ceiling, not the float product.
- Replay.ExperienceReplayBuffer.SaveState: `force_copy=False` (sharing the arrays with the caller) is not modelled; the saved state is a value.
- Replay.ExperienceReplayBuffer.LoadState: the source does not check the loaded fields; the model reports whether the result is well formed instead of requiring it.
- The `Runner` calls a replay buffer with a different signature (`max_size`, `thinning`); only the buffer defined in rl/replay.py is modelled.
- Wrappers.TimeLimitWrapper: `max_episode_steps=None` (which makes the comparison fail in Python 3) is not modelled; the limit is an integer.
- Wrappers.FrameStack.constructor: the assertion `c in [1, 3]` is a precondition; other channel counts are not modelled.
- Wrappers.FrameStack.PushObs: colour frames (`channels != 1`) raise in the source, and the model returns the same error; the frame's first channel is an abstract function of the observation.
- Wrappers.FrameStack.Step: the channel names are repeated only when `info["channels"]` is a list of names.
- Wrappers.EpisodicLifeEnv.Reset: the inner `reset`/`step(0)` calls and the ALE lives query are inputs.
- Wrappers.GetWrapper: the chain of `.env` attributes is a sequence of type names.
- Wrappers with floating-point, image or emulator dependencies (Atari, hash, time-aware, normalisation, EMA frame stack, frame skip, state saving, lazy frames) are not modelled.
- The rest of train.py (devices, locks, model construction, logging) and the `Runner` machinery (optimisers, checkpoints, environments, logging) are not modelled.
