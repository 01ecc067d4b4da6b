/**
  A worked run of the engine: two clusters over four points in the plane,
  seeded with the first and the third point.
 */
module LloydExample {
  import opened Vectors
  import opened Lloyd
  import KMeans

  /** In the plane the squared distance has two terms. */
  lemma PlanarDistance(p: Point, q: Point)
    requires |p| == 2 && |q| == 2
    ensures SquaredDistance(p, q) == Sq(p[0] - q[0]) + Sq(p[1] - q[1])
  {
    var a, b := p[..1], q[..1];
    assert SquaredDistance(a, b) == SquaredDistance(a[..0], b[..0]) + Sq(a[0] - b[0]);
    assert SquaredDistance(p, q) == SquaredDistance(a, b) + Sq(p[1] - q[1]);
  }

  /** With two centroids the second wins only when strictly closer. */
  lemma NearestOfTwo(cs: seq<Point>, p: Point)
    requires |cs| == 2 && Shaped(cs, |p|)
    ensures Nearest(cs, p) == if SquaredDistance(cs[1], p) < SquaredDistance(cs[0], p) then 1 else 0
  {
    assert cs[..1] == [cs[0]];
  }

  const Points: seq<Point> := [[0.0, 0.0], [0.0, 1.0], [10.0, 0.0], [10.0, 1.0]]
  const Seeds: seq<Point> := [[0.0, 0.0], [10.0, 0.0]]
  const Centres: seq<Point> := [[0.0, 0.5], [10.0, 0.5]]

  /** The seeds are the records `initialize_sets` fills from the indices
      0 and 2. */
  lemma SeedsFromIndices()
    ensures KMeans.SeedCentroids(Points, [0, 2], 2) == Seeds
  {
  }

  /** The first two points are closer to the first centroid, the last two
      to the second. */
  ghost predicate SplitsInHalves(cs: seq<Point>)
    requires |cs| == 2 && Shaped(cs, 2)
  {
    && Nearest(cs, Points[0]) == 0 && Nearest(cs, Points[1]) == 0
    && Nearest(cs, Points[2]) == 1 && Nearest(cs, Points[3]) == 1
  }

  lemma AssignPoint(cs: seq<Point>, i: nat)
    requires |cs| == 2 && Shaped(cs, 2) && i < 4
    requires cs[0][0] == 0.0 && cs[1][0] == 10.0 && cs[0][1] == cs[1][1]
    requires 0.0 <= cs[0][1] <= 1.0
    ensures Nearest(cs, Points[i]) == if i < 2 then 0 else 1
  {
    var p := Points[i];
    PlanarDistance(cs[0], p);
    PlanarDistance(cs[1], p);
    NearestOfTwo(cs, p);
    var dy := cs[0][1] - p[1];
    assert Sq(cs[1][1] - p[1]) == Sq(dy) <= 1.0 by {
      assert -1.0 <= dy <= 1.0;
      if dy >= 0.0 {
        assert dy * dy <= dy * 1.0;
      } else {
        assert dy * dy <= dy * -1.0;
      }
    }
    if i < 2 {
      assert Sq(cs[0][0] - p[0]) == 0.0;
      assert Sq(cs[1][0] - p[0]) == 100.0;
    } else {
      assert Sq(cs[0][0] - p[0]) == 100.0;
      assert Sq(cs[1][0] - p[0]) == 0.0;
    }
  }

  /** Both the seeds and the centres split the points in halves. */
  lemma Assignments(cs: seq<Point>)
    requires cs == Seeds || cs == Centres
    ensures Shaped(cs, 2) && SplitsInHalves(cs)
  {
    AssignPoint(cs, 0);
    AssignPoint(cs, 1);
    AssignPoint(cs, 2);
    AssignPoint(cs, 3);
  }

  /** Whether point `i` joins cluster `c`, as 0 or 1. */
  ghost function Joins(points: seq<Point>, cs: seq<Point>, dim: nat, c: nat, i: nat): nat
    requires Compatible(points, cs, dim) && i < |points|
  {
    if Nearest(cs, points[i]) == c then 1 else 0
  }

  /** What point `i` adds to coordinate `j` of the sum of cluster `c`. */
  ghost function Share(points: seq<Point>, cs: seq<Point>, dim: nat, c: nat, i: nat, j: nat): real
    requires Compatible(points, cs, dim) && i < |points| && j < dim
  {
    if Nearest(cs, points[i]) == c then points[i][j] else 0.0
  }

  /** The count of a cluster over four points, term by term. */
  lemma FourPointsCount(points: seq<Point>, cs: seq<Point>, dim: nat, c: nat)
    requires Compatible(points, cs, dim) && |points| == 4
    ensures MemberCount(points, cs, dim, c)
      == Joins(points, cs, dim, c, 0) + Joins(points, cs, dim, c, 1)
       + Joins(points, cs, dim, c, 2) + Joins(points, cs, dim, c, 3)
  {
    var p3, p2, p1 := points[..3], points[..2], points[..1];
    assert p3[..2] == p2 && p2[..1] == p1 && p1[..0] == [];
    assert MemberCount(p1, cs, dim, c) == Joins(points, cs, dim, c, 0);
    assert MemberCount(p2, cs, dim, c) == MemberCount(p1, cs, dim, c) + Joins(points, cs, dim, c, 1);
    assert MemberCount(p3, cs, dim, c) == MemberCount(p2, cs, dim, c) + Joins(points, cs, dim, c, 2);
  }

  /** A coordinate sum of a cluster over four points, term by term. */
  lemma FourPointsSum(points: seq<Point>, cs: seq<Point>, dim: nat, c: nat, j: nat)
    requires Compatible(points, cs, dim) && |points| == 4 && j < dim
    ensures MemberSum(points, cs, dim, c, j)
      == Share(points, cs, dim, c, 0, j) + Share(points, cs, dim, c, 1, j)
       + Share(points, cs, dim, c, 2, j) + Share(points, cs, dim, c, 3, j)
  {
    var p3, p2, p1 := points[..3], points[..2], points[..1];
    assert p3[..2] == p2 && p2[..1] == p1 && p1[..0] == [];
    assert MemberSum(p1, cs, dim, c, j) == Share(points, cs, dim, c, 0, j);
    assert MemberSum(p2, cs, dim, c, j) == MemberSum(p1, cs, dim, c, j) + Share(points, cs, dim, c, 1, j);
    assert MemberSum(p3, cs, dim, c, j) == MemberSum(p2, cs, dim, c, j) + Share(points, cs, dim, c, 2, j);
  }

  /** Centroids that split the points in halves give each cluster two
      points, summing to `(0, 1)` for the first and `(20, 1)` for the
      second. */
  lemma Totals(cs: seq<Point>, c: nat)
    requires |cs| == 2 && Shaped(cs, 2) && SplitsInHalves(cs) && c < 2
    ensures Compatible(Points, cs, 2)
    ensures MemberCount(Points, cs, 2, c) == 2
    ensures MemberSum(Points, cs, 2, c, 0) == (if c == 0 then 0.0 else 20.0)
    ensures MemberSum(Points, cs, 2, c, 1) == 1.0
  {
    FourPointsCount(Points, cs, 2, c);
    FourPointsSum(Points, cs, 2, c, 0);
    FourPointsSum(Points, cs, 2, c, 1);
  }

  /** A planar cluster of two points has its mean at half their sum. */
  lemma MeanOfTwo(points: seq<Point>, cs: seq<Point>, c: nat, x: real, y: real)
    requires Compatible(points, cs, 2) && MemberCount(points, cs, 2, c) == 2
    requires MemberSum(points, cs, 2, c, 0) == x && MemberSum(points, cs, 2, c, 1) == y
    ensures Mean(points, cs, 2, c) == [x / 2.0, y / 2.0]
  {
    var m := Mean(points, cs, 2, c);
    assert m[0] * 2.0 == x && m[1] * 2.0 == y;
    assert m == [m[0], m[1]];
  }

  /** The means of the two clusters are the centres. */
  lemma MeansAreCentres(cs: seq<Point>)
    requires |cs| == 2 && Shaped(cs, 2) && SplitsInHalves(cs)
    ensures Compatible(Points, cs, 2) && NoEmptyCluster(Points, cs, 2, 2)
    ensures Mean(Points, cs, 2, 0) == Centres[0] && Mean(Points, cs, 2, 1) == Centres[1]
  {
    Totals(cs, 0);
    Totals(cs, 1);
    MeanOfTwo(Points, cs, 0, 0.0, 1.0);
    MeanOfTwo(Points, cs, 1, 20.0, 1.0);
  }

  /** A round from centroids that split the points in halves produces the
      centres. */
  lemma RoundGivesCentres(cs: seq<Point>)
    requires |cs| == 2 && Shaped(cs, 2) && SplitsInHalves(cs)
    ensures Compatible(Points, cs, 2)
    ensures Step(Points, cs, 2, 0.001).Updated?
    ensures Step(Points, cs, 2, 0.001).centroids == Centres
  {
    MeansAreCentres(cs);
    var next := Step(Points, cs, 2, 0.001).centroids;
    assert next == [next[0], next[1]];
  }

  /** Both seeds are 0.5 away from their centres, beyond a tolerance of
      0.001. */
  lemma SeedsMove()
    ensures Moved(Seeds[0], Centres[0], 0.001) && Moved(Seeds[1], Centres[1], 0.001)
  {
    PlanarDistance(Centres[0], Seeds[0]);
    PlanarDistance(Centres[1], Seeds[1]);
    assert Sq(0.5) == 0.25;
  }

  /** Over two centroids the moved count has two terms. */
  lemma MovedCountOfTwo(previous: seq<Point>, next: seq<Point>, eps: real)
    requires |previous| == |next| == 2 && |previous[0]| == |next[0]| && |previous[1]| == |next[1]|
    ensures MovedCount(previous, next, eps)
      == (if Moved(previous[0], next[0], eps) then 1 else 0) + (if Moved(previous[1], next[1], eps) then 1 else 0)
  {
    assert previous[..1] == [previous[0]] && next[..1] == [next[0]];
    assert previous[..1][..0] == [] && next[..1][..0] == [];
  }

  /** Both seeds move by 0.5 in the first round. */
  lemma FirstRoundMovesBoth()
    ensures Step(Points, Seeds, 2, 0.001) == Updated(Centres, 2)
  {
    Assignments(Seeds);
    RoundGivesCentres(Seeds);
    StepIsMeans(Points, Seeds, 2, 0.001);
    SeedsMove();
    MovedCountOfTwo(Seeds, Centres, 0.001);
  }

  /** Clustering the four points from the seeds with a tolerance of 0.001
      and at most 200 rounds converges after two rounds on the centres
      `(0, 0.5)` and `(10, 0.5)`. */
  lemma TwoClustersConverge()
    ensures Run(Points, Seeds, 2, 0.001, 0, 200) == (Centres, Finished(2, true))
  {
    FirstRoundMovesBoth();
    RunFirstRound(Points, Seeds, 2, 0.001, 0, 200);
    Assignments(Centres);
    RoundGivesCentres(Centres);
    StepIsMeans(Points, Centres, 2, 0.001);
    NothingMovesInPlace(Centres, 0.001);
    RunFirstRound(Points, Centres, 2, 0.001, 1, 200);
  }
}
