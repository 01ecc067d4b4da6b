/**
  Points of a data set and the squared Euclidean distance between them.
  A point is a sequence of real coordinates; the engine never takes a square
  root, so every comparison is made between squared distances.
 */
module Vectors {

  type Point = seq<real>

  /** Every point of `ps` has exactly `dim` coordinates. */
  ghost predicate Shaped(ps: seq<Point>, dim: int) {
    forall i :: 0 <= i < |ps| ==> |ps[i]| == dim
  }

  function Sq(x: real): (r: real)
    ensures r >= 0.0
  {
    x * x
  }

  /** A non-zero real has a positive square. */
  lemma SqPositive(x: real)
    requires x != 0.0
    ensures Sq(x) > 0.0
  {
    if x > 0.0 {
      calc {
        Sq(x);
      ==
        x * x;
      >
        0.0;
      }
    } else {
      var y := -x;
      calc {
        Sq(x);
      ==
        y * y;
      >
        0.0;
      }
    }
  }

  /** The sum over the coordinates of `(p[i] - q[i])^2`, accumulated from
      the first coordinate to the last. */
  function SquaredDistance(p: Point, q: Point): (d: real)
    requires |p| == |q|
    ensures d >= 0.0
    decreases |p|
  {
    if |p| == 0 then 0.0
    else SquaredDistance(p[..|p| - 1], q[..|q| - 1]) + Sq(p[|p| - 1] - q[|q| - 1])
  }

  lemma {:induction false} SquaredDistanceSymmetric(p: Point, q: Point)
    requires |p| == |q|
    ensures SquaredDistance(p, q) == SquaredDistance(q, p)
    decreases |p|
  {
    if |p| > 0 {
      var n := |p| - 1;
      SquaredDistanceSymmetric(p[..n], q[..n]);
      assert Sq(p[n] - q[n]) == Sq(q[n] - p[n]);
    }
  }

  /** The distance is zero exactly between equal points. */
  lemma {:induction false} SquaredDistanceZeroIff(p: Point, q: Point)
    requires |p| == |q|
    ensures SquaredDistance(p, q) == 0.0 <==> p == q
    decreases |p|
  {
    if |p| > 0 {
      var n := |p| - 1;
      SquaredDistanceZeroIff(p[..n], q[..n]);
      if p[n] != q[n] {
        SqPositive(p[n] - q[n]);
      }
      assert p == p[..n] + [p[n]];
      assert q == q[..n] + [q[n]];
    }
  }

  /** The engine compares `sqrt(d) >= eps` (kmeans.c); for a non-negative
      root `s` of `d` this holds exactly when `eps <= 0` or `d >= eps * eps`,
      which is the test the model makes without a square root. */
  lemma RootThreshold(s: real, d: real, eps: real)
    requires s >= 0.0 && s * s == d
    ensures s >= eps <==> (eps <= 0.0 || d >= eps * eps)
  {
    if eps > 0.0 {
      var below, mid, above := s * s, s * eps, eps * eps;
      if s >= eps {
        assert below >= mid;
        assert mid >= above;
      } else {
        assert below <= mid;
        assert mid < above;
      }
    }
  }
}
