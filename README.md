# DDPG agent core in Dafny

This project models the reusable core of a DDPG (Deep Deterministic Policy
Gradient) driving agent, written in Python over PyTorch and numpy in
`ddpg.py`. It covers:

- the experience **replay buffer**, a fixed-capacity ring of transitions that
  overwrites the oldest entry once full, and its sampling of a batch;
- the synchronisation of the **target networks** with the live critic and
  actor: a hard copy at construction and a soft (Polyak) update after every
  training step;
- the **Ornstein-Uhlenbeck exploration noise**, with its linearly decaying
  noise scale;
- the **action normalisation** maps between the policy's range [-1, 1] and
  the environment's action box [low, high].

All arithmetic is over Dafny's `real`, an idealisation of numpy float64 that
says nothing about rounding. A network's parameters are one flat vector of
reals. Randomness is an input: the Gaussian draw of a noise step is a
vector argument, and the slots `random.sample` picks are a sequence of
distinct indices.

Modules, one per component: `Wrappers` (Option and Result), `Numeric` (clip,
absolute value, powers and a few arithmetic lemmas), `ReplayBuffers`,
`TargetSync`, `OrnsteinUhlenbeck`, `NormalizedActions` and `Agent` (the
`DDPG` class that owns the networks and the buffer).

The model follows the code as written, also where its comments or the usual
account of DDPG say otherwise:

- `get_action` of the noise takes its step with the noise scale *before*
  the decay, and decays it afterwards (line 84 precedes line 85).
- `reverse_action` clips its result to [low, high], not to [-1, 1] (line 129).
  See "## Findings".
- `sample` raises `ValueError` in two ways: `random.sample` refuses a batch
  larger than the buffer or negative (line 102), and a batch of size 0 leaves
  `zip(*batch)` with nothing to unpack into the five names (line 103). `Sample`
  models each as its own `Failure` result.

## Model

| member | source | states |
|---|---|---|
| `Numeric.Clip` | ddpg.py:118 | `np.clip` as `minimum(maximum(x, lo), hi)`: the result lies in [lo, hi] when lo <= hi, equals x exactly when x is inside, is the violated bound otherwise, and is hi when the bounds cross |
| `Numeric.VecAdd` | ddpg.py:86 | `action + ou_state`: the sum keeps the length, and adding the zero vector (the state right after a reset to mu 0) leaves the action unchanged |
| `Numeric.ClipVec` | ddpg.py:86 | element-wise clip: every component lies within its bounds, and a vector already inside is returned unchanged |
| `ReplayBuffers.IsDraw` | ddpg.py:102 | what `random.sample` picks: k pairwise distinct slot indices below len; such a draw exists only when k <= len |
| `ReplayBuffers.DistinctBelow` | ddpg.py:102 | pigeonhole: pairwise distinct indices below len number at most len |
| `ReplayBuffers.DrawExists` | ddpg.py:102 | conversely, every batch size k <= len has a draw (the first k slots), so the draw argument constrains nothing beyond the source |
| `ReplayBuffers.RingAfter` | ddpg.py:95-99 | the slots after a history of pushes: their number is min(pushes, capacity) and every slot is populated |
| `ReplayBuffers.CursorAdvance` | ddpg.py:99 | advancing the cursor modulo the capacity keeps it equal to the number of pushes modulo the capacity |
| `ReplayBuffers.RingHoldsRecent` | ddpg.py:95-99 | FIFO eviction: each of the last `capacity` pushes, index j, sits in slot j mod capacity |
| `ReplayBuffers.SlotHoldsLatest` | ddpg.py:95-99 | every populated slot i holds the most recent push whose index is congruent to i modulo the capacity, and that push is one of the last `capacity` |
| `ReplayBuffers.RingExample` | ddpg.py:95-99 | capacity 5 after pushing 0..6 holds 5, 6, 2, 3, 4 in slots 0..4 |
| `ReplayBuffers.Columns` | ddpg.py:103 | `zip(*batch)` gives five columns of equal length, one row per transition |
| `ReplayBuffers.RowsOfColumns` | ddpg.py:103 | regrouping into columns loses nothing: row i of the columns is transition i |
| `ReplayBuffers.ColumnsOfRows` | ddpg.py:103 | every rectangular batch is the regrouping of its own rows |
| `ReplayBuffers.ReplayBuffer.constructor` | ddpg.py:90-93 | an empty buffer with cursor 0 and no pushes, for a positive capacity |
| `ReplayBuffers.ReplayBuffer.Len` | ddpg.py:106-107 | the populated count never exceeds the capacity and is min(pushes, capacity) |
| `ReplayBuffers.ReplayBuffer.Push` | ddpg.py:95-99 | the ring invariant is kept; the count grows by one below capacity and stays put when full; the cursor advances modulo the capacity; only the slot at the old cursor is written, with the new transition |
| `ReplayBuffers.ReplayBuffer.Sample` | ddpg.py:101-104 | fails exactly when the batch size is at most 0 or exceeds the count: with the `random.sample` error when it is negative or too large, with the unpacking error when it is 0; otherwise returns that many rows, each equal to the transition in its own drawn (pairwise distinct) slot |
| `NormalizedActions.ScaleToBounds` | ddpg.py:116 | the affine map sends -1 to low and 1 to high, and [-1, 1] into [low, high] |
| `NormalizedActions.ScaleToUnit` | ddpg.py:128 | the affine map of `reverse_action` before its clip: for high != low, `ScaleToBounds` sends its result back to the input |
| `NormalizedActions.ScaleInverse` | ddpg.py:116-128 | for high != low, the unclipped maps of lines 116 and 128 invert each other in both directions |
| `NormalizedActions.Action` | ddpg.py:112-120 | the result lies in [low, high] componentwise, maps -1 to low and 1 to high |
| `NormalizedActions.ActionInsideIsAffine` | ddpg.py:116-118 | for inputs in [-1, 1] the clip of line 118 is inactive |
| `NormalizedActions.ReverseAction` | ddpg.py:122-131 | as written: the result lies in [low, high], the environment box, not in [-1, 1] |
| `NormalizedActions.ReverseActionAfterAction` | ddpg.py:112-131 | for a in [-1, 1] and low < high, reverse_action(action(a)) is a clipped to [low, high] |
| `NormalizedActions.ReverseActionRoundTrip` | ddpg.py:112-131 | for a in [-1, 1] and low < high, reverse_action(action(a)) == a if and only if a also lies in [low, high] |
| `NormalizedActions.ReverseActionLosesAction` | ddpg.py:129 | with box [0, 4], action -0.5 maps to 1 and reverse_action sends it to 0, not back to -0.5 |
| `NormalizedActions.ReverseActionIntended` | ddpg.py:126-129 | with the clip to [-1, 1] that the comment at line 126 describes, the result lies in [-1, 1] |
| `NormalizedActions.ReverseActionIntendedRoundTrip` | ddpg.py:112-131 | with that clip, every action in [-1, 1] survives the round trip exactly |
| `OrnsteinUhlenbeck.DecayedSigma` | ddpg.py:85 | equals max_sigma at t = 0 and min_sigma once t >= decay_period, and stays between them for t >= 0 when min_sigma <= max_sigma |
| `OrnsteinUhlenbeck.DecayedSigmaMonotone` | ddpg.py:85 | the noise scale never increases with the step counter |
| `OrnsteinUhlenbeck.OUStep` | ddpg.py:79-80 | one step keeps the length, and the new deviation from mu is (1 - theta) times the old one plus sigma times the draw |
| `OrnsteinUhlenbeck.OUStepReverts` | ddpg.py:79-80 | with a zero draw and 0 <= theta <= 1, the deviation from mu shrinks by the factor 1 - theta, never grows, and mu is a fixed point |
| `OrnsteinUhlenbeck.OUNoise.constructor` | ddpg.py:62-72 | the defaults mu 0, theta 0.15, sigma 0.3 to 0.3 over 10000 steps; sigma starts at max_sigma and the state at mu |
| `OrnsteinUhlenbeck.OUNoise.Reset` | ddpg.py:74-75 | the state becomes a vector of mu of length action_dim, which re-establishes the object invariant; only the state is written |
| `OrnsteinUhlenbeck.OUNoise.EvolveState` | ddpg.py:77-81 | the state takes one OU step with the current sigma and the given draw, and the new state is returned |
| `OrnsteinUhlenbeck.OUNoise.GetAction` | ddpg.py:83-86 | the step uses the sigma before the call; sigma then follows the decay schedule for t; the result is action plus new state clipped to [low, high], inside the box when low <= high |
| `TargetSync.Blend` | ddpg.py:196 | the new gap to the live value is (1 - tau) times the old gap; for 0 <= tau <= 1 the value lies between target and live; tau 0 keeps the target, tau 1 copies the live value |
| `TargetSync.Polyak` | ddpg.py:194-202 | the same facts for a whole parameter vector, whose length is kept |
| `TargetSync.SoftUpdates` | ddpg.py:194-202 | k soft updates in a row against fixed live parameters, each a `Polyak` step; the vector length is kept (its values are characterised by `SoftUpdatesGap`) |
| `TargetSync.SoftUpdatesGap` | ddpg.py:194-202 | after k soft updates against fixed live values, t_k - p == (1 - tau)^k * (t_0 - p) |
| `TargetSync.SoftUpdatesConverge` | ddpg.py:194-202 | for tau <= 1, abs(t_k - p) == (1 - tau)^k * abs(t_0 - p), and for 0 <= tau the gap never exceeds the initial gap |
| `TargetSync.HardUpdate` | ddpg.py:153-157 | after the copy loop every target parameter equals its live parameter; only the target is written |
| `TargetSync.SoftUpdate` | ddpg.py:194-202 | after the loop the target is the Polyak blend of its old value and the live parameters; only the target is written |
| `Agent.LoopGuardAllowsSample` | ddpg.py:290 | the loop's guard len > 32 implies the agent's batch size 30 is at most len |
| `Agent.GuardedUpdateSamples` | ddpg.py:290-292 | under that guard the agent's sample of 30 transitions succeeds |
| `Agent.DDPG.constructor` | ddpg.py:147-164 | four distinct networks, each target an exact copy of its live network, and an empty replay buffer of capacity 5000 |
| `Agent.DDPG.Update` | ddpg.py:166-202 | samples a batch of 30; if that raises, nothing changes; otherwise the live networks take their trained parameters and each target moves to the Polyak blend with tau 0.02 |

## Left out

- The critic and actor networks themselves (`ValueNetwork`, `PolicyNetwork`: forward passes, ReLU and tanh, their initialisation) and the tensor plumbing of `PolicyNetwork.get_action`: these are PyTorch modules whose behaviour is not visible here.
- The loss and gradient part of `ddpg_update` (lines 169-192: the bootstrapped target, the MSE loss, `backward`, the Adam steps and the clamp to [-inf, inf], which is a no-op). This is autodiff and floating-point numerics.
- `Agent.DDPG.Update`: takes the parameters the optimisers produce as inputs instead of computing them, so it says nothing about how training changes them.
- Device selection and printing (lines 10-12), the environment set-up, the episode loop, rendering and reward logging (lines 211-301), apart from the guard of line 290. The sentinel reward rewrite at lines 285-287 is part of the loop and is not modelled.
- Network parameters as lists of tensors: each network is one flat vector, so the per-tensor `zip` and the shapes that `copy_` checks are not modelled.
- `ReplayBuffers.ReplayBuffer.Sample`: the draw of distinct slots is an argument. The model does not capture that `random.sample` draws it uniformly. `np.stack` shape details are not modelled.
- `ReplayBuffers.ReplayBuffer.constructor`: requires a positive capacity. With capacity 0 or less, `push` raises `IndexError` at line 98 (and line 99 would take `% 0`), so a buffer of that kind is not modelled.
- `OrnsteinUhlenbeck.OUNoise.GetAction`: the Gaussian draw `np.random.randn` is an argument, and its distribution is not modelled. It requires `decay_period != 0`, since line 85 divides by it.
- `NormalizedActions.ReverseAction`: requires low != high in every component. There line 128 divides by zero and numpy produces infinities or NaN, which `real` cannot express.
- `Numeric.ClipVec`: requires the bounds to have the vector's length, so numpy broadcasting is not modelled.
- Float64 rounding, infinities and NaN: all arithmetic is over `real`.

## Findings

| source | as written | input that shows it | evidently intended | confidence | as-written member | corrected member |
|---|---|---|---|---|---|---|
| ddpg.py:129 | `reverse_action` clips the normalised action to the environment box [low, high] | low = 0, high = 4, action = -0.5: `action` gives 1 and `reverse_action(1)` gives 0, not -0.5 | clip to the policy's range [-1, 1], as the comment at line 126 says, so that `reverse_action(action(a)) == a` for every a in [-1, 1] | high; not executed (nothing in ddpg.py calls `reverse_action`, so training is unaffected) | `NormalizedActions.ReverseActionLosesAction` | `NormalizedActions.ReverseActionIntendedRoundTrip` |
