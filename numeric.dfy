/** Scalar and vector arithmetic over `real`, an idealisation of numpy float64. */
module Numeric {

  function Min(x: real, y: real): (r: real)
    ensures r <= x && r <= y && (r == x || r == y)
  {
    if x <= y then x else y
  }

  function Max(x: real, y: real): (r: real)
    ensures r >= x && r >= y && (r == x || r == y)
  {
    if x >= y then x else y
  }

  function Abs(x: real): (r: real)
    ensures r >= 0.0 && (r == x || r == -x)
  {
    if x < 0.0 then -x else x
  }

  /** `numpy.clip(x, lo, hi)`, which numpy computes as `minimum(maximum(x, lo), hi)`:
      when the bounds are crossed (`lo > hi`) the upper bound wins. */
  function Clip(x: real, lo: real, hi: real): (r: real)
    ensures lo <= hi ==> lo <= r <= hi
    ensures lo <= hi ==> (r == x <==> lo <= x <= hi)
    ensures x < lo <= hi ==> r == lo
    ensures lo <= hi < x ==> r == hi
    ensures hi < lo ==> r == hi
  {
    Min(Max(x, lo), hi)
  }

  /** Element-wise `numpy.clip` of a vector against per-component bounds. */
  function ClipVec(v: seq<real>, lo: seq<real>, hi: seq<real>): (r: seq<real>)
    requires |lo| == |v| && |hi| == |v|
    ensures |r| == |v|
    ensures forall i :: 0 <= i < |v| && lo[i] <= hi[i] ==> lo[i] <= r[i] <= hi[i]
    ensures (forall i :: 0 <= i < |v| ==> lo[i] <= v[i] <= hi[i]) ==> r == v
  {
    seq(|v|, i requires 0 <= i < |v| => Clip(v[i], lo[i], hi[i]))
  }

  /** Element-wise sum of two vectors of the same length; the zero vector is its identity. */
  function VecAdd(u: seq<real>, v: seq<real>): (r: seq<real>)
    requires |u| == |v|
    ensures |r| == |u|
    ensures (forall i :: 0 <= i < |v| ==> v[i] == 0.0) ==> r == u
  {
    seq(|u|, i requires 0 <= i < |u| => u[i] + v[i])
  }

  /** `x` raised to the natural power `k`. */
  function Pow(x: real, k: nat): (r: real)
  {
    if k == 0 then 1.0 else x * Pow(x, k - 1)
  }

  /** A power of a number in [0, 1] stays in [0, 1]. */
  lemma {:induction false} PowBounds(x: real, k: nat)
    requires 0.0 <= x
    ensures 0.0 <= Pow(x, k)
    ensures x <= 1.0 ==> Pow(x, k) <= 1.0
  {
    if k > 0 {
      PowBounds(x, k - 1);
      var p := Pow(x, k - 1);
      MulMonotone(x, 0.0, p);
      MulMonotone(p, x, 1.0);
      assert Pow(x, k) == x * p == p * x;
      if x <= 1.0 {
        assert p <= 1.0;
        assert p * x <= p * 1.0;
        assert p * 1.0 == p;
      }
    }
  }

  /** Products regroup freely. */
  lemma MulAssoc(a: real, b: real, c: real)
    ensures a * (b * c) == (a * b) * c
  {
  }

  /** A non-negative factor comes out of an absolute value. */
  lemma AbsMul(g: real, d: real)
    requires 0.0 <= g
    ensures Abs(g * d) == g * Abs(d)
  {
    MulMonotone(g, d, 0.0);
    MulMonotone(g, 0.0, d);
    if d < 0.0 {
      assert g * -d == -(g * d);
    }
  }

  /** Multiplying by a non-negative factor preserves order. */
  lemma MulMonotone(a: real, b: real, c: real)
    ensures 0.0 <= a && b <= c ==> a * b <= a * c
  {
    if 0.0 <= a && b <= c {
      assert a * c - a * b == a * (c - b);
    }
  }

  /** A fraction in [0, 1] of `d` lies between 0 and `d`. */
  lemma MulBetween(w: real, d: real)
    ensures 0.0 <= w <= 1.0 ==> Min(0.0, d) <= w * d <= Max(0.0, d)
    ensures d * w == w * d
  {
    if 0.0 <= w <= 1.0 {
      if 0.0 <= d {
        FractionOfNonNegative(w, d, w * d);
      } else {
        FractionOfNonPositive(w, d, w * d);
      }
    }
  }

  /** A fraction `m` in [0, 1] of a non-negative `d` lies in [0, d]. */
  lemma FractionOfNonNegative(w: real, d: real, m: real)
    requires 0.0 <= w <= 1.0 && 0.0 <= d && m == w * d
    ensures Min(0.0, d) <= m <= Max(0.0, d)
  {
    assert 0.0 <= m by {
      MulMonotone(w, 0.0, d);
    }
    assert m <= d by {
      MulMonotone(d, w, 1.0);
      assert d * w == m;
    }
  }

  /** A fraction `m` in [0, 1] of a non-positive `d` lies in [d, 0]. */
  lemma FractionOfNonPositive(w: real, d: real, m: real)
    requires 0.0 <= w <= 1.0 && d <= 0.0 && m == w * d
    ensures Min(0.0, d) <= m <= Max(0.0, d)
  {
    assert m <= 0.0 by {
      MulMonotone(w, d, 0.0);
    }
    assert d <= m by {
      var e := 1.0 - w;
      MulMonotone(e, 0.0, -d);
      assert e * -d == m - d;
    }
  }

  /** Dividing by a positive divisor preserves order and sign, and a dividend
      at least the divisor gives a quotient at least one. */
  lemma DivMonotone(x: real, y: real, p: real)
    requires p > 0.0
    ensures x <= y ==> x / p <= y / p
    ensures 0.0 <= x ==> 0.0 <= x / p
    ensures p <= x ==> 1.0 <= x / p
  {
    var qx, qy := x / p, y / p;
    if x <= y {
      QuotientOrder(x, y, p, qx, qy);
    }
    if 0.0 <= x {
      QuotientOrder(0.0, x, p, 0.0, qx);
    }
    if p <= x {
      QuotientOrder(p, x, p, 1.0, qx);
    }
  }

  /** Quotients by the same positive divisor keep the order of their dividends. */
  lemma QuotientOrder(x: real, y: real, p: real, qx: real, qy: real)
    requires p > 0.0 && x <= y && qx * p == x && qy * p == y
    ensures qx <= qy
  {
    MulStrict(p, qy, qx);
    assert p * qy == qy * p && p * qx == qx * p;
  }

  /** Multiplying by a positive factor preserves strict order. */
  lemma MulStrict(a: real, b: real, c: real)
    ensures 0.0 < a && b < c ==> a * b < a * c
  {
    if 0.0 < a && b < c {
      assert a * c - a * b == a * (c - b);
    }
  }

  /** A product with a non-zero factor vanishes only when the other factor does. */
  lemma ZeroProduct(e: real, d: real)
    requires e * d == 0.0 && d != 0.0
    ensures e == 0.0
  {
    MulStrict(d, 0.0, e);
    MulStrict(d, e, 0.0);
    MulStrict(-d, 0.0, e);
    MulStrict(-d, e, 0.0);
    assert d * e == e * d && -d * e == -(e * d);
  }
}
