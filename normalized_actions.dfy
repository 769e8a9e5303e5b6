/** The action-normalisation wrapper around the environment: an affine map
    from the policy's range [-1, 1] to the environment's box [low, high] and
    back, each followed by a clip. */
module NormalizedActions {
  import opened Numeric

  /** The affine map of `action` (line 116): -1 goes to `lo`, 1 goes to `hi`. */
  function ScaleToBounds(a: real, lo: real, hi: real): (r: real)
    ensures a == -1.0 ==> r == lo
    ensures a == 1.0 ==> r == hi
    ensures lo <= hi && -1.0 <= a <= 1.0 ==> lo <= r <= hi
  {
    MulBetween((a + 1.0) * 0.5, hi - lo);
    lo + (a + 1.0) * 0.5 * (hi - lo)
  }

  /** The affine map of `reverse_action` (line 128), before its clip: the
      inverse of `ScaleToBounds`. */
  function ScaleToUnit(a: real, lo: real, hi: real): (r: real)
    requires hi != lo
    ensures ScaleToBounds(r, lo, hi) == a
  {
    var d := hi - lo;
    var u := 2.0 * (a - lo) / d;
    assert lo + (u - 1.0 + 1.0) * 0.5 * d == a by {
      assert u * d == 2.0 * (a - lo);
      assert (u - 1.0 + 1.0) * 0.5 * d == 0.5 * (u * d);
    }
    2.0 * (a - lo) / (hi - lo) - 1.0
  }

  /** The two affine maps are mutually inverse whenever the box is not degenerate. */
  lemma ScaleInverse(a: real, lo: real, hi: real)
    requires hi != lo
    ensures ScaleToUnit(ScaleToBounds(a, lo, hi), lo, hi) == a
    ensures ScaleToBounds(ScaleToUnit(a, lo, hi), lo, hi) == a
  {
    var d := hi - lo;
    var x := ScaleToBounds(a, lo, hi);
    var y := 2.0 * (x - lo) / d;
    assert (y - (a + 1.0)) * d == 0.0 by {
      assert x - lo == (a + 1.0) * 0.5 * d;
      assert y * d == 2.0 * (x - lo);
    }
    ZeroProduct(y - (a + 1.0), d);
  }

  /** `NormalizedActions.action`: map each component to the box and clip to it. */
  function Action(a: seq<real>, low: seq<real>, high: seq<real>): (r: seq<real>)
    requires |low| == |a| && |high| == |a|
    ensures |r| == |a|
    ensures forall i :: 0 <= i < |a| && low[i] <= high[i] ==> low[i] <= r[i] <= high[i]
    ensures forall i :: 0 <= i < |a| && low[i] <= high[i] && a[i] == -1.0 ==> r[i] == low[i]
    ensures forall i :: 0 <= i < |a| && low[i] <= high[i] && a[i] == 1.0 ==> r[i] == high[i]
  {
    seq(|a|, i requires 0 <= i < |a| => Clip(ScaleToBounds(a[i], low[i], high[i]), low[i], high[i]))
  }

  /** Inside [-1, 1] the clip of `action` is inactive: the result is the affine image. */
  lemma ActionInsideIsAffine(a: seq<real>, low: seq<real>, high: seq<real>, i: int)
    requires |low| == |a| && |high| == |a| && 0 <= i < |a|
    requires low[i] <= high[i] && -1.0 <= a[i] <= 1.0
    ensures Action(a, low, high)[i] == ScaleToBounds(a[i], low[i], high[i])
  {
  }

  /** `NormalizedActions.reverse_action` as written: the affine map back to
      [-1, 1], clipped to the environment box [low, high] (line 129), not to [-1, 1]. */
  function ReverseAction(a: seq<real>, low: seq<real>, high: seq<real>): (r: seq<real>)
    requires |low| == |a| && |high| == |a|
    requires forall i :: 0 <= i < |a| ==> low[i] != high[i]
    ensures |r| == |a|
    ensures forall i :: 0 <= i < |a| && low[i] <= high[i] ==> low[i] <= r[i] <= high[i]
  {
    seq(|a|, i requires 0 <= i < |a| => Clip(ScaleToUnit(a[i], low[i], high[i]), low[i], high[i]))
  }

  /** The round trip through `action` and `reverse_action` as written gives back
      the original action clipped to the environment box. */
  lemma ReverseActionAfterAction(a: seq<real>, low: seq<real>, high: seq<real>)
    requires |low| == |a| && |high| == |a|
    requires forall i :: 0 <= i < |a| ==> low[i] < high[i] && -1.0 <= a[i] <= 1.0
    ensures ReverseAction(Action(a, low, high), low, high) == ClipVec(a, low, high)
  {
    var x := Action(a, low, high);
    forall i | 0 <= i < |a|
      ensures ReverseAction(x, low, high)[i] == ClipVec(a, low, high)[i]
    {
      ActionInsideIsAffine(a, low, high, i);
      ScaleInverse(a[i], low[i], high[i]);
    }
  }

  /** Hence the round trip restores `a` exactly when `a` also lies inside the
      environment box, and only then. */
  lemma ReverseActionRoundTrip(a: seq<real>, low: seq<real>, high: seq<real>)
    requires |low| == |a| && |high| == |a|
    requires forall i :: 0 <= i < |a| ==> low[i] < high[i] && -1.0 <= a[i] <= 1.0
    ensures ReverseAction(Action(a, low, high), low, high) == a
            <==> forall i :: 0 <= i < |a| ==> low[i] <= a[i] <= high[i]
  {
    ReverseActionAfterAction(a, low, high);
    if ClipVec(a, low, high) == a {
      forall i | 0 <= i < |a| ensures low[i] <= a[i] <= high[i] {
        assert ClipVec(a, low, high)[i] == a[i];
      }
    }
  }

  /** A concrete case for the finding: with box [0, 4], the action -0.5 maps to 1,
      and `reverse_action` sends 1 to -0.5 clipped to 0. */
  lemma ReverseActionLosesAction()
    ensures Action([-0.5], [0.0], [4.0]) == [1.0]
    ensures ReverseAction([1.0], [0.0], [4.0]) == [0.0]
    ensures ReverseAction(Action([-0.5], [0.0], [4.0]), [0.0], [4.0]) != [-0.5]
  {
    assert ScaleToBounds(-0.5, 0.0, 4.0) == 1.0;
    assert ScaleToUnit(1.0, 0.0, 4.0) == -0.5;
  }

  /** The evidently intended `reverse_action`: clip to the policy's range [-1, 1]. */
  function ReverseActionIntended(a: seq<real>, low: seq<real>, high: seq<real>): (r: seq<real>)
    requires |low| == |a| && |high| == |a|
    requires forall i :: 0 <= i < |a| ==> low[i] != high[i]
    ensures |r| == |a|
    ensures forall i :: 0 <= i < |a| ==> -1.0 <= r[i] <= 1.0
  {
    seq(|a|, i requires 0 <= i < |a| => Clip(ScaleToUnit(a[i], low[i], high[i]), -1.0, 1.0))
  }

  /** With the intended clip, every action of the policy survives the round trip. */
  lemma ReverseActionIntendedRoundTrip(a: seq<real>, low: seq<real>, high: seq<real>)
    requires |low| == |a| && |high| == |a|
    requires forall i :: 0 <= i < |a| ==> low[i] < high[i] && -1.0 <= a[i] <= 1.0
    ensures ReverseActionIntended(Action(a, low, high), low, high) == a
  {
    var x := Action(a, low, high);
    forall i | 0 <= i < |a|
      ensures ReverseActionIntended(x, low, high)[i] == a[i]
    {
      ActionInsideIsAffine(a, low, high, i);
      ScaleInverse(a[i], low[i], high[i]);
    }
  }
}
