/** Ornstein-Uhlenbeck exploration noise: a mean-reverting random walk added
    to the policy's action, with a noise scale that decays linearly over the
    training steps. The Gaussian draw of each step is an argument. */
module OrnsteinUhlenbeck {
  import opened Numeric

  /** The noise scale after step `t` of a linear decay from `maxSigma` to
      `minSigma` over `decayPeriod` steps, held at `minSigma` afterwards
      (line 85; `t / decay_period` is true division). */
  function DecayedSigma(maxSigma: real, minSigma: real, t: int, decayPeriod: int): (s: real)
    requires decayPeriod != 0
    ensures t == 0 ==> s == maxSigma
    ensures 0 < decayPeriod <= t ==> s == minSigma
    ensures minSigma <= maxSigma && 0 <= t && 0 < decayPeriod ==> minSigma <= s <= maxSigma
  {
    var q := t as real / decayPeriod as real;
    assert 0 < decayPeriod ==> (0 <= t ==> 0.0 <= q) && (decayPeriod <= t ==> 1.0 <= q) by {
      if 0 < decayPeriod {
        DivMonotone(t as real, 0.0, decayPeriod as real);
      }
    }
    var frac := Min(1.0, q);
    var span := maxSigma - minSigma;
    MulBetween(frac, span);
    maxSigma - (maxSigma - minSigma) * frac
  }

  /** The schedule never increases: a later step has no larger noise scale. */
  lemma DecayedSigmaMonotone(maxSigma: real, minSigma: real, t1: int, t2: int, decayPeriod: int)
    requires minSigma <= maxSigma && 0 < decayPeriod && t1 <= t2
    ensures DecayedSigma(maxSigma, minSigma, t2, decayPeriod) <= DecayedSigma(maxSigma, minSigma, t1, decayPeriod)
  {
    var p := decayPeriod as real;
    var f1, f2 := Min(1.0, t1 as real / p), Min(1.0, t2 as real / p);
    assert f1 <= f2 by {
      DivMonotone(t1 as real, t2 as real, p);
    }
    InterpolationOrder(maxSigma, minSigma, f1, f2);
  }

  /** Interpolating from `hi` down to `lo` by a larger fraction gives a smaller value. */
  lemma InterpolationOrder(hi: real, lo: real, f1: real, f2: real)
    requires lo <= hi && f1 <= f2
    ensures hi - (hi - lo) * f2 <= hi - (hi - lo) * f1
  {
    MulMonotone(hi - lo, f1, f2);
  }

  /** One mean-reverting step, `x + theta * (mu - x) + sigma * noise`, written
      as the deviation from `mu` shrinking by `1 - theta` plus scaled noise. */
  function OUStep(x: seq<real>, mu: real, theta: real, sigma: real, noise: seq<real>): (r: seq<real>)
    requires |noise| == |x|
    ensures |r| == |x|
    ensures forall i :: 0 <= i < |x| ==> r[i] - mu == (1.0 - theta) * (x[i] - mu) + sigma * noise[i]
  {
    seq(|x|, i requires 0 <= i < |x| => x[i] + (theta * (mu - x[i]) + sigma * noise[i]))
  }

  /** Without noise, a step with `0 <= theta <= 1` never moves the state
      further from the mean, and the mean itself is a fixed point. */
  lemma OUStepReverts(x: seq<real>, mu: real, theta: real, sigma: real, noise: seq<real>, i: int)
    requires |noise| == |x| && 0 <= i < |x| && noise[i] == 0.0 && 0.0 <= theta <= 1.0
    ensures Abs(OUStep(x, mu, theta, sigma, noise)[i] - mu) == (1.0 - theta) * Abs(x[i] - mu)
    ensures Abs(OUStep(x, mu, theta, sigma, noise)[i] - mu) <= Abs(x[i] - mu)
    ensures x[i] == mu ==> OUStep(x, mu, theta, sigma, noise)[i] == mu
  {
    var d := x[i] - mu;
    var e := OUStep(x, mu, theta, sigma, noise)[i] - mu;
    assert e == (1.0 - theta) * d;
    MulMonotone(1.0 - theta, d, 0.0);
    MulMonotone(1.0 - theta, 0.0, d);
    MulMonotone(Abs(d), 1.0 - theta, 1.0);
    if d < 0.0 {
      assert Abs(e) == (1.0 - theta) * -d;
    } else {
      assert Abs(e) == (1.0 - theta) * d;
    }
  }

  /** The exploration noise process of one agent. */
  class OUNoise {
    const mu: real
    const theta: real
    const maxSigma: real
    const minSigma: real
    const decayPeriod: int
    const actionDim: nat
    const low: seq<real>
    const high: seq<real>
    var sigma: real
    var state: seq<real>

    /** The vectors have one component per action dimension. */
    ghost predicate Valid()
      reads this
    {
      |low| == actionDim && |high| == actionDim && |state| == actionDim
    }

    /** Built from the action space's bounds, starting at `maxSigma` and at the mean. */
    constructor (low: seq<real>, high: seq<real>, mu: real := 0.0, theta: real := 0.15,
                 maxSigma: real := 0.3, minSigma: real := 0.3, decayPeriod: int := 10000)
      requires |high| == |low|
      ensures Valid()
      ensures this.low == low && this.high == high && actionDim == |low|
      ensures this.mu == mu && this.theta == theta && this.maxSigma == maxSigma
      ensures this.minSigma == minSigma && this.decayPeriod == decayPeriod
      ensures sigma == maxSigma
      ensures forall i :: 0 <= i < actionDim ==> state[i] == mu
    {
      this.mu := mu;
      this.theta := theta;
      this.sigma := maxSigma;
      this.maxSigma := maxSigma;
      this.minSigma := minSigma;
      this.decayPeriod := decayPeriod;
      this.actionDim := |low|;
      this.low := low;
      this.high := high;
      new;
      Reset();
    }

    /** Return the state to the mean, one component per action dimension. */
    method Reset()
      requires |low| == actionDim && |high| == actionDim
      modifies this`state
      ensures Valid()
      ensures |state| == actionDim
      ensures forall i :: 0 <= i < actionDim ==> state[i] == mu
    {
      state := seq(actionDim, _ => mu);
    }

    /** Take one step of the process with the Gaussian draw `noise` and return the new state. */
    method EvolveState(noise: seq<real>) returns (s: seq<real>)
      requires Valid() && |noise| == actionDim
      modifies this`state
      ensures Valid()
      ensures state == OUStep(old(state), mu, theta, sigma, noise)
      ensures s == state
    {
      var x := state;
      state := OUStep(x, mu, theta, sigma, noise);
      s := state;
    }

    /** Perturb `action` by one step of the process, taken with the noise scale
        in force before this call; then decay the scale for step `t`; return the
        perturbed action clipped to the action space. */
    method GetAction(action: seq<real>, noise: seq<real>, t: int := 0) returns (r: seq<real>)
      requires Valid() && |action| == actionDim && |noise| == actionDim
      requires decayPeriod != 0
      modifies this`state, this`sigma
      ensures Valid()
      ensures state == OUStep(old(state), mu, theta, old(sigma), noise)
      ensures sigma == DecayedSigma(maxSigma, minSigma, t, decayPeriod)
      ensures r == ClipVec(VecAdd(action, state), low, high)
      ensures forall i :: 0 <= i < actionDim && low[i] <= high[i] ==> low[i] <= r[i] <= high[i]
    {
      var ouState := EvolveState(noise);
      sigma := DecayedSigma(maxSigma, minSigma, t, decayPeriod);
      r := ClipVec(VecAdd(action, ouState), low, high);
    }
  }
}
