/** Synchronisation of a target network with its live network, each network's
    parameters flattened into one vector: the hard copy made at construction
    and the soft (Polyak) update made after every training step. */
module TargetSync {
  import opened Numeric

  /** One soft-updated parameter, `t * (1 - tau) + p * tau` (line 196). */
  function Blend(t: real, p: real, tau: real): (r: real)
    ensures r - p == (1.0 - tau) * (t - p)
    ensures 0.0 <= tau <= 1.0 ==> Min(t, p) <= r <= Max(t, p)
    ensures tau == 0.0 ==> r == t
    ensures tau == 1.0 ==> r == p
  {
    MulBetween(tau, p - t);
    assert t * (1.0 - tau) + p * tau == t + tau * (p - t);
    assert t * (1.0 - tau) + p * tau - p == (1.0 - tau) * (t - p);
    t * (1.0 - tau) + p * tau
  }

  /** The whole soft update of a target vector towards a live vector. */
  function Polyak(target: seq<real>, live: seq<real>, tau: real): (r: seq<real>)
    requires |live| == |target|
    ensures |r| == |target|
    ensures 0.0 <= tau <= 1.0 ==>
      forall i :: 0 <= i < |target| ==> Min(target[i], live[i]) <= r[i] <= Max(target[i], live[i])
    ensures tau == 0.0 ==> r == target
    ensures tau == 1.0 ==> r == live
  {
    seq(|target|, i requires 0 <= i < |target| => Blend(target[i], live[i], tau))
  }

  /** `k` soft updates in a row against fixed live parameters. */
  function SoftUpdates(target: seq<real>, live: seq<real>, tau: real, k: nat): (r: seq<real>)
    requires |live| == |target|
    ensures |r| == |target|
    decreases k
  {
    if k == 0 then target else SoftUpdates(Polyak(target, live, tau), live, tau, k - 1)
  }

  /** After `k` soft updates the gap to the live parameter is the initial gap
      scaled by `(1 - tau)^k`. */
  lemma {:induction false} SoftUpdatesGap(target: seq<real>, live: seq<real>, tau: real, k: nat, i: int)
    requires |live| == |target| && 0 <= i < |target|
    ensures SoftUpdates(target, live, tau, k)[i] - live[i] == Pow(1.0 - tau, k) * (target[i] - live[i])
    decreases k
  {
    if k > 0 {
      var next := Polyak(target, live, tau);
      var g, d := Pow(1.0 - tau, k - 1), target[i] - live[i];
      var e := next[i] - live[i];
      assert SoftUpdates(target, live, tau, k)[i] - live[i] == g * e by {
        SoftUpdatesGap(next, live, tau, k - 1, i);
      }
      assert e == (1.0 - tau) * d by {
        assert next[i] == Blend(target[i], live[i], tau);
      }
      assert g * e == Pow(1.0 - tau, k) * d by {
        MulAssoc(g, 1.0 - tau, d);
        assert g * (1.0 - tau) == (1.0 - tau) * g;
      }
    }
  }

  /** For `tau <= 1` this is the convergence statement
      `|t_k - p| == (1 - tau)^k * |t_0 - p|`, and the gap never grows when `0 <= tau`. */
  lemma SoftUpdatesConverge(target: seq<real>, live: seq<real>, tau: real, k: nat, i: int)
    requires |live| == |target| && 0 <= i < |target| && tau <= 1.0
    ensures Abs(SoftUpdates(target, live, tau, k)[i] - live[i]) == Pow(1.0 - tau, k) * Abs(target[i] - live[i])
    ensures 0.0 <= tau ==> Abs(SoftUpdates(target, live, tau, k)[i] - live[i]) <= Abs(target[i] - live[i])
  {
    SoftUpdatesGap(target, live, tau, k, i);
    GeometricGap(SoftUpdates(target, live, tau, k)[i], target[i], live[i], tau, k);
  }

  /** A gap equal to the initial gap times `(1 - tau)^k` shrinks geometrically. */
  lemma GeometricGap(x: real, t: real, p: real, tau: real, k: nat)
    requires tau <= 1.0 && x - p == Pow(1.0 - tau, k) * (t - p)
    ensures Abs(x - p) == Pow(1.0 - tau, k) * Abs(t - p)
    ensures 0.0 <= tau ==> Abs(x - p) <= Abs(t - p)
  {
    PowBounds(1.0 - tau, k);
    ScaledGap(x, p, Pow(1.0 - tau, k), t - p);
  }

  /** A gap scaled by a factor in [0, 1] keeps its sign and does not grow. */
  lemma ScaledGap(x: real, p: real, g: real, d: real)
    requires x - p == g * d && 0.0 <= g
    ensures Abs(x - p) == g * Abs(d)
    ensures g <= 1.0 ==> Abs(x - p) <= Abs(d)
  {
    AbsMul(g, d);
    if g <= 1.0 {
      MulMonotone(Abs(d), g, 1.0);
      assert g * Abs(d) == Abs(d) * g <= Abs(d) * 1.0 == Abs(d);
    }
  }

  /** The target copy loop of construction: `target_param.copy_(param)` for every parameter. */
  method HardUpdate(target: array<real>, live: array<real>)
    requires target != live && target.Length == live.Length
    modifies target
    ensures target[..] == live[..]
  {
    var i := 0;
    while i < target.Length
      invariant 0 <= i <= target.Length
      invariant forall k :: 0 <= k < i ==> target[k] == live[k]
    {
      target[i] := live[i];
      i := i + 1;
    }
  }

  /** The soft-update loop of a training step: every target parameter moves a
      fraction `tau` towards its live parameter; the live parameters are only read. */
  method SoftUpdate(target: array<real>, live: array<real>, tau: real)
    requires target != live && target.Length == live.Length
    modifies target
    ensures target[..] == Polyak(old(target[..]), live[..], tau)
  {
    var i := 0;
    while i < target.Length
      invariant 0 <= i <= target.Length
      invariant forall k :: 0 <= k < i ==> target[k] == Blend(old(target[k]), live[k], tau)
      invariant forall k :: i <= k < target.Length ==> target[k] == old(target[k])
    {
      target[i] := target[i] * (1.0 - tau) + live[i] * tau;
      i := i + 1;
    }
  }
}
