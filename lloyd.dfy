/**
  What one run of the k-means engine computes, stated over values.

  A round assigns every point, in data-set order, to its nearest centroid
  (the lowest cluster index wins a tie), sums the members of every cluster,
  and replaces each centroid by the mean of its members. A run repeats
  rounds until one round moves no centroid by at least `eps`, or until
  `maxIter` rounds have been made. The class in kmeans.dfy is proved to
  compute exactly this.
 */
module Lloyd {
  import opened Vectors
  import opened Results

  /** Points and centroids share the dimension `dim`; there is at least one
      cluster. */
  ghost predicate Compatible(points: seq<Point>, cs: seq<Point>, dim: nat) {
    |cs| > 0 && Shaped(points, dim) && Shaped(cs, dim)
  }

  /** `m` is the cluster a point joins: no centroid is closer to `p`, and
      every centroid with a lower index is strictly farther away. */
  ghost predicate IsNearest(cs: seq<Point>, p: Point, m: int)
    requires Shaped(cs, |p|)
  {
    && 0 <= m < |cs|
    && (forall c :: 0 <= c < |cs| ==> SquaredDistance(cs[m], p) <= SquaredDistance(cs[c], p))
    && (forall c :: 0 <= c < m ==> SquaredDistance(cs[m], p) < SquaredDistance(cs[c], p))
  }

  /** The cluster the point `p` is assigned to. */
  ghost function Nearest(cs: seq<Point>, p: Point): (m: nat)
    requires |cs| > 0 && Shaped(cs, |p|)
    ensures IsNearest(cs, p, m)
    decreases |cs|
  {
    if |cs| == 1 then 0
    else
      var m := Nearest(cs[..|cs| - 1], p);
      if SquaredDistance(cs[|cs| - 1], p) < SquaredDistance(cs[m], p) then |cs| - 1 else m
  }

  /** The nearest cluster is determined uniquely. */
  lemma NearestUnique(cs: seq<Point>, p: Point, m: int)
    requires |cs| > 0 && Shaped(cs, |p|)
    requires IsNearest(cs, p, m)
    ensures m == Nearest(cs, p)
  {
  }

  /** On an exact tie the lower cluster index wins. */
  lemma TieGoesToLowerIndex(cs: seq<Point>, p: Point, a: nat, b: nat)
    requires |cs| > 0 && Shaped(cs, |p|)
    requires a < b < |cs|
    requires SquaredDistance(cs[a], p) == SquaredDistance(cs[b], p)
    ensures Nearest(cs, p) != b
  {
  }

  /** How many of `points` join cluster `c`. */
  ghost function MemberCount(points: seq<Point>, cs: seq<Point>, dim: nat, c: int): (n: nat)
    requires Compatible(points, cs, dim)
    ensures n <= |points|
    decreases |points|
  {
    if |points| == 0 then 0
    else
      var k := |points| - 1;
      MemberCount(points[..k], cs, dim, c) + (if Nearest(cs, points[k]) == c then 1 else 0)
  }

  /** Coordinate `j` of the sum of the points that join cluster `c`. */
  ghost function MemberSum(points: seq<Point>, cs: seq<Point>, dim: nat, c: int, j: nat): real
    requires Compatible(points, cs, dim) && j < dim
    decreases |points|
  {
    if |points| == 0 then 0.0
    else
      var k := |points| - 1;
      MemberSum(points[..k], cs, dim, c, j) + (if Nearest(cs, points[k]) == c then points[k][j] else 0.0)
  }

  /** The members of the clusters below `n`, counted together. */
  ghost function CountBelow(points: seq<Point>, cs: seq<Point>, dim: nat, n: nat): nat
    requires Compatible(points, cs, dim)
  {
    if n == 0 then 0 else CountBelow(points, cs, dim, n - 1) + MemberCount(points, cs, dim, n - 1)
  }

  lemma {:induction false} CountBelowStep(points: seq<Point>, cs: seq<Point>, dim: nat, n: nat)
    requires Compatible(points, cs, dim) && |points| > 0
    ensures var k := |points| - 1;
      CountBelow(points, cs, dim, n)
      == CountBelow(points[..k], cs, dim, n) + (if Nearest(cs, points[k]) < n then 1 else 0)
  {
    if n > 0 {
      CountBelowStep(points, cs, dim, n - 1);
    }
  }

  /** After the assignment phase every point has joined exactly one
      cluster: the member counts add up to the number of points. */
  lemma {:induction false} CountsCoverPoints(points: seq<Point>, cs: seq<Point>, dim: nat)
    requires Compatible(points, cs, dim)
    ensures CountBelow(points, cs, dim, |cs|) == |points|
    decreases |points|
  {
    if |points| == 0 {
      CountBelowEmpty(points, cs, dim, |cs|);
    } else {
      var k := |points| - 1;
      CountsCoverPoints(points[..k], cs, dim);
      CountBelowStep(points, cs, dim, |cs|);
    }
  }

  lemma {:induction false} CountBelowEmpty(points: seq<Point>, cs: seq<Point>, dim: nat, n: nat)
    requires Compatible(points, cs, dim) && |points| == 0
    ensures CountBelow(points, cs, dim, n) == 0
  {
    if n > 0 {
      CountBelowEmpty(points, cs, dim, n - 1);
    }
  }

  /** `m` times `n` is `v`, coordinate by coordinate. */
  ghost predicate ScaledBy(m: seq<real>, n: real, v: seq<real>) {
    |m| == |v| && forall j :: 0 <= j < |v| ==> m[j] * n == v[j]
  }

  /** Every coordinate of `v` divided by `n`. */
  function DivideBy(v: seq<real>, n: real): (m: seq<real>)
    requires n != 0.0
    ensures ScaledBy(m, n, v)
  {
    var m := seq(|v|, j requires 0 <= j < |v| => v[j] / n);
    assert forall j :: 0 <= j < |v| ==> m[j] * n == v[j] by {
      forall j | 0 <= j < |v|
        ensures m[j] * n == v[j]
      {
        QuotientTimesDivisor(v[j], n);
      }
    }
    m
  }

  lemma QuotientTimesDivisor(s: real, n: real)
    requires n != 0.0
    ensures (s / n) * n == s
  {
  }

  /** The coordinate sums of the members of cluster `c`. */
  ghost function MemberSums(points: seq<Point>, cs: seq<Point>, dim: nat, c: int): (s: Point)
    requires Compatible(points, cs, dim)
    ensures |s| == dim
    ensures forall j :: 0 <= j < dim ==> s[j] == MemberSum(points, cs, dim, c, j)
  {
    seq(dim, j requires 0 <= j < dim => MemberSum(points, cs, dim, c, j))
  }

  /** Coordinate `j` summed over all of `points`. */
  ghost function Total(points: seq<Point>, dim: nat, j: nat): real
    requires Shaped(points, dim) && j < dim
    decreases |points|
  {
    if |points| == 0 then 0.0
    else Total(points[..|points| - 1], dim, j) + points[|points| - 1][j]
  }

  /** Coordinate `j` of the sums of the clusters below `n`, added together. */
  ghost function SumBelow(points: seq<Point>, cs: seq<Point>, dim: nat, n: nat, j: nat): real
    requires Compatible(points, cs, dim) && j < dim
  {
    if n == 0 then 0.0 else SumBelow(points, cs, dim, n - 1, j) + MemberSum(points, cs, dim, n - 1, j)
  }

  lemma {:induction false} SumBelowStep(points: seq<Point>, cs: seq<Point>, dim: nat, n: nat, j: nat)
    requires Compatible(points, cs, dim) && j < dim && |points| > 0
    ensures var k := |points| - 1;
      SumBelow(points, cs, dim, n, j)
      == SumBelow(points[..k], cs, dim, n, j) + (if Nearest(cs, points[k]) < n then points[k][j] else 0.0)
  {
    if n > 0 {
      SumBelowStep(points, cs, dim, n - 1, j);
    }
  }

  lemma {:induction false} SumBelowEmpty(points: seq<Point>, cs: seq<Point>, dim: nat, n: nat, j: nat)
    requires Compatible(points, cs, dim) && j < dim && |points| == 0
    ensures SumBelow(points, cs, dim, n, j) == 0.0
  {
    if n > 0 {
      SumBelowEmpty(points, cs, dim, n - 1, j);
    }
  }

  /** After the assignment phase the sums of all clusters add up, coordinate
      by coordinate, to the sum of all the points: every point is added into
      exactly one sum. */
  lemma {:induction false} SumsCoverPoints(points: seq<Point>, cs: seq<Point>, dim: nat, j: nat)
    requires Compatible(points, cs, dim) && j < dim
    ensures SumBelow(points, cs, dim, |cs|, j) == Total(points, dim, j)
    decreases |points|
  {
    if |points| == 0 {
      SumBelowEmpty(points, cs, dim, |cs|, j);
    } else {
      var k := |points| - 1;
      SumsCoverPoints(points[..k], cs, dim, j);
      SumBelowStep(points, cs, dim, |cs|, j);
    }
  }

  /** The new centroid of a non-empty cluster: the mean of its members. */
  ghost function Mean(points: seq<Point>, cs: seq<Point>, dim: nat, c: int): (m: Point)
    requires Compatible(points, cs, dim) && MemberCount(points, cs, dim, c) > 0
    ensures |m| == dim
    ensures ScaledBy(m, Size(points, cs, dim, c), MemberSums(points, cs, dim, c))
  {
    DivideBy(MemberSums(points, cs, dim, c), Size(points, cs, dim, c))
  }

  /** Whether a centroid moved from `previous` to `next` by at least `eps`.
      The engine compares the root of the squared distance with `eps`; see
      Vectors.RootThreshold for why this comparison is the same. */
  ghost predicate Moved(previous: Point, next: Point, eps: real)
    requires |previous| == |next|
  {
    eps <= 0.0 || SquaredDistance(next, previous) >= eps * eps
  }

  ghost predicate NoEmptyCluster(points: seq<Point>, cs: seq<Point>, dim: nat, n: int)
    requires Compatible(points, cs, dim)
  {
    forall c :: 0 <= c < n ==> MemberCount(points, cs, dim, c) > 0
  }

  /** How many of the centroids moved by at least `eps` from `previous`
      to `next`. */
  ghost function MovedCount(previous: seq<Point>, next: seq<Point>, eps: real): (r: nat)
    requires |previous| == |next|
    requires forall c :: 0 <= c < |next| ==> |previous[c]| == |next[c]|
    ensures r <= |next|
    decreases |next|
  {
    if |next| == 0 then 0
    else
      var n := |next| - 1;
      MovedCount(previous[..n], next[..n], eps) + (if Moved(previous[n], next[n], eps) then 1 else 0)
  }

  /** A round counts no moved centroid exactly when none of them moved. */
  lemma {:induction false} NoneMovedIff(previous: seq<Point>, next: seq<Point>, eps: real)
    requires |previous| == |next|
    requires forall c :: 0 <= c < |next| ==> |previous[c]| == |next[c]|
    ensures MovedCount(previous, next, eps) == 0 <==> forall c :: 0 <= c < |next| ==> !Moved(previous[c], next[c], eps)
    decreases |next|
  {
    if |next| > 0 {
      var n := |next| - 1;
      NoneMovedIff(previous[..n], next[..n], eps);
      assert forall c :: 0 <= c < n ==> previous[..n][c] == previous[c] && next[..n][c] == next[c];
    }
  }

  /** The means of the clusters below `n`, in cluster order. */
  ghost function Means(points: seq<Point>, cs: seq<Point>, dim: nat, n: nat): (ms: seq<Point>)
    requires Compatible(points, cs, dim) && n <= |cs| && NoEmptyCluster(points, cs, dim, n)
    ensures |ms| == n && Shaped(ms, dim)
    ensures forall c :: 0 <= c < n ==> ms[c] == Mean(points, cs, dim, c)
  {
    seq(n, c requires 0 <= c < n => Mean(points, cs, dim, c))
  }

  /** Counting the moved centroids one cluster further. */
  lemma MovedCountStep(points: seq<Point>, cs: seq<Point>, dim: nat, eps: real, n: nat)
    requires Compatible(points, cs, dim) && n < |cs| && NoEmptyCluster(points, cs, dim, n + 1)
    ensures MovedCount(cs[..n + 1], Means(points, cs, dim, n + 1), eps)
      == MovedCount(cs[..n], Means(points, cs, dim, n), eps)
       + (if Moved(cs[n], Mean(points, cs, dim, n), eps) then 1 else 0)
  {
    assert cs[..n + 1][..n] == cs[..n];
    assert Means(points, cs, dim, n + 1)[..n] == Means(points, cs, dim, n);
  }

  /** One round ends either with the new centroids and the number of them
      that moved, or with a cluster that received no point. */
  datatype Round = Updated(centroids: seq<Point>, moved: nat) | EmptyCluster

  ghost function Step(points: seq<Point>, cs: seq<Point>, dim: nat, eps: real): (r: Round)
    requires Compatible(points, cs, dim)
    ensures r.Updated? ==> |r.centroids| == |cs| && Shaped(r.centroids, dim)
  {
    if NoEmptyCluster(points, cs, dim, |cs|) then
      var next := Means(points, cs, dim, |cs|);
      Updated(next, MovedCount(cs, next, eps))
    else
      EmptyCluster
  }

  /** A round completes exactly when no cluster is empty; it then moves
      every centroid to the mean of its cluster and counts the centroids
      that moved by at least the tolerance `eps`. */
  lemma StepIsMeans(points: seq<Point>, cs: seq<Point>, dim: nat, eps: real)
    requires Compatible(points, cs, dim)
    ensures Step(points, cs, dim, eps).Updated? <==> NoEmptyCluster(points, cs, dim, |cs|)
    ensures Step(points, cs, dim, eps).Updated? ==>
      forall c :: 0 <= c < |cs| ==> Step(points, cs, dim, eps).centroids[c] == Mean(points, cs, dim, c)
    ensures Step(points, cs, dim, eps).Updated? ==>
      Step(points, cs, dim, eps).moved == MovedCount(cs, Step(points, cs, dim, eps).centroids, eps)
  {
  }

  /** A cluster without members ends the round without new centroids. */
  lemma EmptyClusterStopsRound(points: seq<Point>, cs: seq<Point>, dim: nat, eps: real, c: int)
    requires Compatible(points, cs, dim) && 0 <= c < |cs|
    requires MemberCount(points, cs, dim, c) == 0
    ensures Step(points, cs, dim, eps) == EmptyCluster
  {
  }

  /** How a run ends: after `rounds` rounds, `converged` when the last of
      them moved no centroid; or in `round` (counted from 0), at a cluster
      that received no point. */
  datatype Outcome = Finished(rounds: nat, converged: bool) | EmptyClusterIn(round: nat)

  /** The centroids and the outcome of a run that has already made `iter`
      of its at most `maxIter` rounds and holds the centroids `cs`. */
  ghost function Run(points: seq<Point>, cs: seq<Point>, dim: nat, eps: real, iter: nat, maxIter: int)
    : (r: (seq<Point>, Outcome))
    requires Compatible(points, cs, dim)
    ensures |r.0| == |cs| && Shaped(r.0, dim)
    ensures match r.1
      case Finished(n, converged) =>
        if iter < maxIter then iter < n <= maxIter && (!converged ==> n == maxIter)
        else n == iter && !converged
      case EmptyClusterIn(k) => iter <= k < maxIter
    decreases maxIter - iter
  {
    if iter >= maxIter then (cs, Finished(iter, false))
    else
      match Step(points, cs, dim, eps)
      case EmptyCluster => (cs, EmptyClusterIn(iter))
      case Updated(next, moved) =>
        if moved == 0 then (next, Finished(iter + 1, true))
        else Run(points, next, dim, eps, iter + 1, maxIter)
  }

  /** With a positive tolerance a centroid that stays where it is does
      not count as moved. */
  lemma {:induction false} NothingMovesInPlace(cs: seq<Point>, eps: real)
    requires eps > 0.0
    ensures MovedCount(cs, cs, eps) == 0
    decreases |cs|
  {
    if |cs| > 0 {
      var n := |cs| - 1;
      NothingMovesInPlace(cs[..n], eps);
      SquaredDistanceZeroIff(cs[n], cs[n]);
      SqPositive(eps);
      assert Sq(eps) == eps * eps;
    }
  }

  /** Centroids that are already the means of their clusters are a fixed
      point: a run from them ends after one round, converged, unchanged. */
  lemma FixedPointConverges(points: seq<Point>, cs: seq<Point>, dim: nat, eps: real, maxIter: int)
    requires Compatible(points, cs, dim) && eps > 0.0 && maxIter > 0
    requires Step(points, cs, dim, eps).Updated?
    requires Step(points, cs, dim, eps).centroids == cs
    ensures Run(points, cs, dim, eps, 0, maxIter) == (cs, Finished(1, true))
  {
    NothingMovesInPlace(cs, eps);
  }

  /** A cap of one round returns the centroids of that round, whether or
      not they have settled. */
  lemma OneRoundCap(points: seq<Point>, cs: seq<Point>, dim: nat, eps: real)
    requires Compatible(points, cs, dim) && Step(points, cs, dim, eps).Updated?
    ensures Run(points, cs, dim, eps, 0, 1).0 == Step(points, cs, dim, eps).centroids
    ensures Run(points, cs, dim, eps, 0, 1).1
      == Finished(1, Step(points, cs, dim, eps).moved == 0)
  {
  }

  /** The number of members of cluster `c`, as a real. */
  ghost function Size(points: seq<Point>, cs: seq<Point>, dim: nat, c: int): real
    requires Compatible(points, cs, dim)
  {
    MemberCount(points, cs, dim, c) as real
  }

  /** Coordinate `j` of the centroids `ms` of the clusters below `n`, each
      weighted by its number of members, added together. */
  ghost function WeightedBelow(points: seq<Point>, cs: seq<Point>, dim: nat, ms: seq<Point>, n: nat, j: nat): real
    requires Compatible(points, cs, dim) && n <= |ms| && Shaped(ms, dim) && j < dim
  {
    if n == 0 then 0.0
    else WeightedBelow(points, cs, dim, ms, n - 1, j) + ms[n - 1][j] * Size(points, cs, dim, n - 1)
  }

  /** Coordinate `j` of a cluster's mean times its number of members is
      the coordinate's sum over the members. */
  lemma MeanTimesCount(points: seq<Point>, cs: seq<Point>, dim: nat, c: int, j: nat)
    requires Compatible(points, cs, dim) && MemberCount(points, cs, dim, c) > 0 && j < dim
    ensures Mean(points, cs, dim, c)[j] * Size(points, cs, dim, c) == MemberSum(points, cs, dim, c, j)
  {
    var v := MemberSums(points, cs, dim, c);
    assert ScaledBy(Mean(points, cs, dim, c), Size(points, cs, dim, c), v);
    assert v[j] == MemberSum(points, cs, dim, c, j);
  }

  lemma {:induction false} WeightedSums(points: seq<Point>, cs: seq<Point>, dim: nat, ms: seq<Point>, n: nat, j: nat)
    requires Compatible(points, cs, dim) && n <= |ms| && Shaped(ms, dim) && j < dim
    requires forall c :: 0 <= c < n ==> ms[c][j] * Size(points, cs, dim, c) == MemberSum(points, cs, dim, c, j)
    ensures WeightedBelow(points, cs, dim, ms, n, j) == SumBelow(points, cs, dim, n, j)
  {
    if n > 0 {
      WeightedSums(points, cs, dim, ms, n - 1, j);
    }
  }

  /** A round keeps the data's totals: the new centroids, each weighted by
      the number of its members, add up to the sum of all the points. */
  lemma StepKeepsTotals(points: seq<Point>, cs: seq<Point>, dim: nat, eps: real, j: nat)
    requires Compatible(points, cs, dim) && j < dim
    requires Step(points, cs, dim, eps).Updated?
    ensures WeightedBelow(points, cs, dim, Step(points, cs, dim, eps).centroids, |cs|, j) == Total(points, dim, j)
  {
    StepIsMeans(points, cs, dim, eps);
    var ms := Step(points, cs, dim, eps).centroids;
    forall c | 0 <= c < |cs|
      ensures ms[c][j] * Size(points, cs, dim, c) == MemberSum(points, cs, dim, c, j)
    {
      assert ms[c] == Mean(points, cs, dim, c);
      MeanTimesCount(points, cs, dim, c, j);
    }
    WeightedSums(points, cs, dim, ms, |cs|, j);
    SumsCoverPoints(points, cs, dim, j);
  }

  /** The centroids at the start of round `r` (counted from 0) of a run
      from `cs` without a cap, or nothing when an earlier round met an
      empty cluster. */
  ghost function Before(points: seq<Point>, cs: seq<Point>, dim: nat, eps: real, r: nat): (o: Option<seq<Point>>)
    requires Compatible(points, cs, dim)
    ensures o.Some? ==> |o.value| == |cs| && Shaped(o.value, dim)
    decreases r
  {
    if r == 0 then Some(cs)
    else
      match Step(points, cs, dim, eps)
      case EmptyCluster => None
      case Updated(next, _) => Before(points, next, dim, eps, r - 1)
  }

  /** How round `r` (counted from 0) of a run from `cs` without a cap
      ends, or nothing when an earlier round met an empty cluster. */
  ghost function RoundAt(points: seq<Point>, cs: seq<Point>, dim: nat, eps: real, r: nat): Option<Round>
    requires Compatible(points, cs, dim)
    decreases r
  {
    match Step(points, cs, dim, eps)
    case EmptyCluster => if r == 0 then Some(EmptyCluster) else None
    case Updated(next, moved) => if r == 0 then Some(Updated(next, moved)) else RoundAt(points, next, dim, eps, r - 1)
  }

  /** Round `r` is the step from the centroids it starts with. */
  lemma {:induction false} RoundAtStartsFromBefore(points: seq<Point>, cs: seq<Point>, dim: nat, eps: real, r: nat)
    requires Compatible(points, cs, dim)
    ensures RoundAt(points, cs, dim, eps, r).Some? <==> Before(points, cs, dim, eps, r).Some?
    ensures RoundAt(points, cs, dim, eps, r).Some? ==>
      RoundAt(points, cs, dim, eps, r).value == Step(points, Before(points, cs, dim, eps, r).value, dim, eps)
    decreases r
  {
    if r > 0 && Step(points, cs, dim, eps).Updated? {
      RoundAtStartsFromBefore(points, Step(points, cs, dim, eps).centroids, dim, eps, r - 1);
    }
  }

  /** Round `r` is reached and moves at least one centroid. */
  ghost predicate Moves(points: seq<Point>, cs: seq<Point>, dim: nat, eps: real, r: nat)
    requires Compatible(points, cs, dim)
  {
    var o := RoundAt(points, cs, dim, eps, r);
    o.Some? && o.value.Updated? && o.value.moved > 0
  }

  /** Round `r` is reached and moves no centroid. */
  ghost predicate Settles(points: seq<Point>, cs: seq<Point>, dim: nat, eps: real, r: nat)
    requires Compatible(points, cs, dim)
  {
    var o := RoundAt(points, cs, dim, eps, r);
    o.Some? && o.value.Updated? && o.value.moved == 0
  }

  /** Round `r` is reached and meets an empty cluster. */
  ghost predicate Empties(points: seq<Point>, cs: seq<Point>, dim: nat, eps: real, r: nat)
    requires Compatible(points, cs, dim)
  {
    RoundAt(points, cs, dim, eps, r) == Some(EmptyCluster)
  }

  /** After a successful first round, round `r + 1` from `cs` starts where
      round `r` from the centroids that round produced starts. */
  lemma BeforeShift(points: seq<Point>, cs: seq<Point>, dim: nat, eps: real, r: nat)
    requires Compatible(points, cs, dim) && Step(points, cs, dim, eps).Updated?
    ensures Before(points, cs, dim, eps, r + 1) == Before(points, Step(points, cs, dim, eps).centroids, dim, eps, r)
  {
  }

  /** After a successful first round, round `r + 1` from `cs` ends as round
      `r` from the centroids that round produced. */
  lemma RoundAtShift(points: seq<Point>, cs: seq<Point>, dim: nat, eps: real, r: nat)
    requires Compatible(points, cs, dim) && Step(points, cs, dim, eps).Updated?
    ensures RoundAt(points, cs, dim, eps, r + 1) == RoundAt(points, Step(points, cs, dim, eps).centroids, dim, eps, r)
  {
  }

  /** A first round that moves a centroid, followed by `m` rounds that do,
      makes `m + 1` such rounds. */
  lemma MovesShift(points: seq<Point>, cs: seq<Point>, dim: nat, eps: real, m: int)
    requires Compatible(points, cs, dim) && Step(points, cs, dim, eps).Updated?
    requires Step(points, cs, dim, eps).moved > 0
    requires var next := Step(points, cs, dim, eps).centroids;
      forall r :: 0 <= r < m - 1 ==> Moves(points, next, dim, eps, r)
    ensures forall r :: 0 <= r < m ==> Moves(points, cs, dim, eps, r)
  {
    var next := Step(points, cs, dim, eps).centroids;
    forall r | 0 <= r < m
      ensures Moves(points, cs, dim, eps, r)
    {
      if r == 0 {
        assert RoundAt(points, cs, dim, eps, 0) == Some(Step(points, cs, dim, eps));
      } else {
        RoundAtShift(points, cs, dim, eps, r - 1);
        assert Moves(points, next, dim, eps, r - 1);
      }
    }
  }

  /** The first round of a run (counted from round `iter`) that has not
      reached its cap: an empty cluster stops it, a round that moves
      nothing ends it converged, and any other round hands its centroids
      on to the rest of the run. */
  lemma RunFirstRound(points: seq<Point>, cs: seq<Point>, dim: nat, eps: real, iter: nat, maxIter: int)
    requires Compatible(points, cs, dim) && iter < maxIter
    ensures Step(points, cs, dim, eps).EmptyCluster? ==>
      Run(points, cs, dim, eps, iter, maxIter) == (cs, EmptyClusterIn(iter))
    ensures Step(points, cs, dim, eps).Updated? && Step(points, cs, dim, eps).moved == 0 ==>
      Run(points, cs, dim, eps, iter, maxIter) == (Step(points, cs, dim, eps).centroids, Finished(iter + 1, true))
    ensures Step(points, cs, dim, eps).Updated? && Step(points, cs, dim, eps).moved > 0 ==>
      Run(points, cs, dim, eps, iter, maxIter) == Run(points, Step(points, cs, dim, eps).centroids, dim, eps, iter + 1, maxIter)
  {
  }

  /** The early exit of a run (counted from round `iter`): a run that ends
      converged after `n` rounds moved some centroid in every round before
      the last, and moved none in the last. */
  lemma {:induction false} ConvergedRun(points: seq<Point>, cs: seq<Point>, dim: nat, eps: real, iter: nat, maxIter: int,
                                        final: seq<Point>, n: nat)
    requires Compatible(points, cs, dim)
    requires Run(points, cs, dim, eps, iter, maxIter) == (final, Finished(n, true))
    ensures iter < n
    ensures forall r :: 0 <= r < n - iter - 1 ==> Moves(points, cs, dim, eps, r)
    ensures Settles(points, cs, dim, eps, n - iter - 1)
    decreases maxIter - iter
  {
    RunFirstRound(points, cs, dim, eps, iter, maxIter);
    var next := Step(points, cs, dim, eps).centroids;
    if Step(points, cs, dim, eps).moved > 0 {
      ConvergedRun(points, next, dim, eps, iter + 1, maxIter, final, n);
      MovesShift(points, cs, dim, eps, n - iter - 1);
      RoundAtShift(points, cs, dim, eps, n - iter - 2);
    }
  }

  /** A run (counted from round `iter`) that ends converged after `n`
      rounds returns the centroids its last round produced. */
  lemma {:induction false} ConvergedRunEnds(points: seq<Point>, cs: seq<Point>, dim: nat, eps: real, iter: nat, maxIter: int,
                                            final: seq<Point>, n: nat)
    requires Compatible(points, cs, dim)
    requires Run(points, cs, dim, eps, iter, maxIter) == (final, Finished(n, true))
    ensures iter < n
    ensures Before(points, cs, dim, eps, n - iter) == Some(final)
    decreases maxIter - iter
  {
    RunFirstRound(points, cs, dim, eps, iter, maxIter);
    var next := Step(points, cs, dim, eps).centroids;
    if Step(points, cs, dim, eps).moved > 0 {
      ConvergedRunEnds(points, next, dim, eps, iter + 1, maxIter, final, n);
      BeforeShift(points, cs, dim, eps, n - iter - 1);
    } else {
      BeforeShift(points, cs, dim, eps, 0);
    }
  }

  /** A run (counted from round `iter`) that reaches its cap unconverged
      after `n` rounds moved some centroid in every round. */
  lemma {:induction false} CappedRun(points: seq<Point>, cs: seq<Point>, dim: nat, eps: real, iter: nat, maxIter: int,
                                     final: seq<Point>, n: nat)
    requires Compatible(points, cs, dim)
    requires Run(points, cs, dim, eps, iter, maxIter) == (final, Finished(n, false))
    ensures iter <= n
    ensures forall r :: 0 <= r < n - iter ==> Moves(points, cs, dim, eps, r)
    decreases maxIter - iter
  {
    if iter < maxIter {
      RunFirstRound(points, cs, dim, eps, iter, maxIter);
      var next := Step(points, cs, dim, eps).centroids;
      CappedRun(points, next, dim, eps, iter + 1, maxIter, final, n);
      MovesShift(points, cs, dim, eps, n - iter);
    }
  }

  /** A run (counted from round `iter`) that reaches its cap unconverged
      after `n` rounds returns the centroids of its last round. */
  lemma {:induction false} CappedRunEnds(points: seq<Point>, cs: seq<Point>, dim: nat, eps: real, iter: nat, maxIter: int,
                                         final: seq<Point>, n: nat)
    requires Compatible(points, cs, dim)
    requires Run(points, cs, dim, eps, iter, maxIter) == (final, Finished(n, false))
    ensures iter <= n
    ensures Before(points, cs, dim, eps, n - iter) == Some(final)
    decreases maxIter - iter
  {
    if iter < maxIter {
      RunFirstRound(points, cs, dim, eps, iter, maxIter);
      var next := Step(points, cs, dim, eps).centroids;
      CappedRunEnds(points, next, dim, eps, iter + 1, maxIter, final, n);
      BeforeShift(points, cs, dim, eps, n - iter - 1);
    }
  }

  /** A run (counted from round `iter`) that stops at an empty cluster in
      round `k` moved some centroid in every round before `k`. */
  lemma {:induction false} EmptiedRun(points: seq<Point>, cs: seq<Point>, dim: nat, eps: real, iter: nat, maxIter: int,
                                      final: seq<Point>, k: nat)
    requires Compatible(points, cs, dim)
    requires Run(points, cs, dim, eps, iter, maxIter) == (final, EmptyClusterIn(k))
    ensures iter <= k < maxIter
    ensures forall r :: 0 <= r < k - iter ==> Moves(points, cs, dim, eps, r)
    decreases maxIter - iter
  {
    RunFirstRound(points, cs, dim, eps, iter, maxIter);
    if Step(points, cs, dim, eps).Updated? {
      var next := Step(points, cs, dim, eps).centroids;
      EmptiedRun(points, next, dim, eps, iter + 1, maxIter, final, k);
      MovesShift(points, cs, dim, eps, k - iter);
    }
  }

  /** A run (counted from round `iter`) that stops at an empty cluster in
      round `k` did so because round `k` met a cluster without points. */
  lemma {:induction false} EmptiedRunStops(points: seq<Point>, cs: seq<Point>, dim: nat, eps: real, iter: nat, maxIter: int,
                                           final: seq<Point>, k: nat)
    requires Compatible(points, cs, dim)
    requires Run(points, cs, dim, eps, iter, maxIter) == (final, EmptyClusterIn(k))
    ensures iter <= k < maxIter
    ensures Empties(points, cs, dim, eps, k - iter)
    decreases maxIter - iter
  {
    RunFirstRound(points, cs, dim, eps, iter, maxIter);
    if Step(points, cs, dim, eps).Updated? {
      var next := Step(points, cs, dim, eps).centroids;
      EmptiedRunStops(points, next, dim, eps, iter + 1, maxIter, final, k);
      RoundAtShift(points, cs, dim, eps, k - iter - 1);
    }
  }

  /** A run (counted from round `iter`) that stops at an empty cluster in
      round `k` returns the centroids round `k` started from. */
  lemma {:induction false} EmptiedRunEnds(points: seq<Point>, cs: seq<Point>, dim: nat, eps: real, iter: nat, maxIter: int,
                                          final: seq<Point>, k: nat)
    requires Compatible(points, cs, dim)
    requires Run(points, cs, dim, eps, iter, maxIter) == (final, EmptyClusterIn(k))
    ensures iter <= k < maxIter
    ensures Before(points, cs, dim, eps, k - iter) == Some(final)
    decreases maxIter - iter
  {
    RunFirstRound(points, cs, dim, eps, iter, maxIter);
    if Step(points, cs, dim, eps).Updated? {
      var next := Step(points, cs, dim, eps).centroids;
      EmptiedRunEnds(points, next, dim, eps, iter + 1, maxIter, final, k);
      BeforeShift(points, cs, dim, eps, k - iter - 1);
    }
  }
}
