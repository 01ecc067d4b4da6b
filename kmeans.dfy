/**
  The clustering engine of kmeans.c.

  The source keeps an array of `K` cluster records (`set_t`), each holding
  the current centroid, the running sum of the points assigned to the
  cluster in this round, and their count. The model stores these records
  column by column: `centroid[i, j]` and `sum[i, j]` are coordinate `j` of
  record `i`'s centroid and sum, and `count[i]` is its count. The data set
  is never changed and is passed as a sequence of points.
 */
module KMeans {
  import opened Vectors
  import opened Lloyd
  import opened Results

  /** Row `i` of a matrix, as a point. */
  function Row(a: array2<real>, i: nat): (r: Point)
    requires i < a.Length0
    reads a
    ensures |r| == a.Length1
    ensures forall j :: 0 <= j < |r| ==> r[j] == a[i, j]
  {
    seq(a.Length1, j requires 0 <= j < a.Length1 reads a => a[i, j])
  }

  /** `sqdist`: the squared distance of two points, accumulated coordinate
      by coordinate in a running total. */
  method SqDist(p1: Point, p2: Point) returns (dot: real)
    requires |p1| == |p2|
    ensures dot == SquaredDistance(p1, p2)
  {
    dot := 0.0;
    for i := 0 to |p1|
      invariant dot == SquaredDistance(p1[..i], p2[..i])
    {
      var temp := p1[i] - p2[i];
      assert p1[..i + 1][..i] == p1[..i] && p2[..i + 1][..i] == p2[..i];
      dot := dot + temp * temp;
    }
    assert p1[..|p1|] == p1 && p2[..|p2|] == p2;
  }

  /** The starting centroids: the data points at the first `k` seed
      indices. */
  ghost function SeedCentroids(points: seq<Point>, indices: seq<int>, k: nat): (cs: seq<Point>)
    requires k <= |indices|
    requires forall i :: 0 <= i < k ==> 0 <= indices[i] < |points|
    ensures |cs| == k
  {
    seq(k, i requires 0 <= i < k => points[indices[i]])
  }

  class ClusterStore {
    const k: nat
    const dim: nat
    const centroid: array2<real>
    const sum: array2<real>
    const count: array<int>

    ghost predicate Valid() {
      && k > 0
      && centroid.Length0 == k && centroid.Length1 == dim
      && sum.Length0 == k && sum.Length1 == dim
      && count.Length == k
      && centroid != sum
    }

    /** The current centroids, in cluster order. */
    function Centroids(): (cs: seq<Point>)
      requires Valid()
      reads centroid
      ensures |cs| == k && Shaped(cs, dim)
      ensures forall i :: 0 <= i < k ==> cs[i] == Row(centroid, i)
    {
      seq(k, i requires 0 <= i < k reads centroid => Row(centroid, i))
    }

    /** Every record is between rounds: no member and a zero sum. */
    ghost predicate Cleared()
      requires Valid()
      reads sum, count
    {
      && (forall i :: 0 <= i < k ==> count[i] == 0)
      && (forall i, j :: 0 <= i < k && 0 <= j < dim ==> sum[i, j] == 0.0)
    }

    /** The records hold, cluster by cluster, the count and the sum of those
        of `points` whose nearest centroid in `cs` is that cluster's. */
    ghost predicate Accumulated(points: seq<Point>, cs: seq<Point>)
      requires Valid() && Compatible(points, cs, dim)
      reads sum, count
    {
      && (forall i :: 0 <= i < k ==> count[i] == MemberCount(points, cs, dim, i))
      && (forall i, j :: 0 <= i < k && 0 <= j < dim ==> sum[i, j] == MemberSum(points, cs, dim, i, j))
    }

    /** `initialize_sets`: record `i` starts at the data point
        `datapoints[indices[i]]`, with no member and a zero sum. */
    constructor InitializeSets(k: nat, dim: nat, datapoints: seq<Point>, indices: seq<int>)
      requires 0 < k <= |indices| && dim > 0
      requires Shaped(datapoints, dim)
      requires forall i :: 0 <= i < k ==> 0 <= indices[i] < |datapoints|
      ensures Valid() && this.k == k && this.dim == dim
      ensures fresh(centroid) && fresh(sum) && fresh(count)
      ensures Centroids() == SeedCentroids(datapoints, indices, k)
      ensures Cleared()
    {
      var c := new real[k, dim];
      for i := 0 to k
        invariant forall i', j :: 0 <= i' < i && 0 <= j < dim ==> c[i', j] == datapoints[indices[i']][j]
      {
        for j := 0 to dim
          invariant forall i', j' :: 0 <= i' < i && 0 <= j' < dim ==> c[i', j'] == datapoints[indices[i']][j']
          invariant forall j' :: 0 <= j' < j ==> c[i, j'] == datapoints[indices[i]][j']
        {
          c[i, j] := datapoints[indices[i]][j];
        }
      }
      this.k := k;
      this.dim := dim;
      centroid := c;
      sum := new real[k, dim]((_, _) => 0.0);
      count := new int[k](_ => 0);
      new;
      assert forall i :: 0 <= i < k ==> Row(centroid, i) == datapoints[indices[i]];
    }

    /** `add_to_set`: record `c` gains one member and adds `p` into its sum;
        no other record changes. */
    method AddToSet(c: nat, p: Point)
      requires Valid() && c < k && |p| == dim
      modifies sum, count
      ensures count[c] == old(count[c]) + 1
      ensures forall i :: 0 <= i < k && i != c ==> count[i] == old(count[i])
      ensures forall i, j :: 0 <= i < k && 0 <= j < dim ==>
        sum[i, j] == old(sum[i, j]) + (if i == c then p[j] else 0.0)
    {
      count[c] := count[c] + 1;
      for j := 0 to dim
        invariant count[c] == old(count[c]) + 1
        invariant forall i :: 0 <= i < k && i != c ==> count[i] == old(count[i])
        invariant forall i, j' :: 0 <= i < k && 0 <= j' < dim ==>
          sum[i, j'] == old(sum[i, j']) + (if i == c && j' < j then p[j'] else 0.0)
      {
        sum[c, j] := sum[c, j] + p[j];
      }
    }

    /** The search loop of `assign_to_closest`: the index of the centroid
        nearest to `p`, the first one found winning a tie. The source starts
        from the sentinel distance -1, which any real distance replaces. */
    method Closest(p: Point) returns (minIdx: nat)
      requires Valid() && |p| == dim
      ensures minIdx == Nearest(Centroids(), p)
    {
      ghost var cs := Centroids();
      minIdx := 0;
      var minDist := -1.0;
      for i := 0 to k
        invariant i == 0 ==> minIdx == 0 && minDist == -1.0
        invariant i > 0 ==> minIdx < i && minDist == SquaredDistance(cs[minIdx], p)
        invariant forall c :: 0 <= c < i ==> minDist <= SquaredDistance(cs[c], p)
        invariant forall c :: 0 <= c < minIdx ==> minDist < SquaredDistance(cs[c], p)
      {
        var dist := SqDist(Row(centroid, i), p);
        if minDist < 0.0 || dist < minDist {
          minIdx := i;
          minDist := dist;
        }
      }
      NearestUnique(cs, p, minIdx);
    }

    /** `assign_to_closest`: `p` joins the cluster of its nearest centroid. */
    method AssignToClosest(p: Point)
      requires Valid() && |p| == dim
      modifies sum, count
      ensures Centroids() == old(Centroids())
      ensures var m := Nearest(Centroids(), p);
        && count[m] == old(count[m]) + 1
        && (forall i :: 0 <= i < k && i != m ==> count[i] == old(count[i]))
        && (forall i, j :: 0 <= i < k && 0 <= j < dim ==>
              sum[i, j] == old(sum[i, j]) + (if i == m then p[j] else 0.0))
    {
      var m := Closest(p);
      AddToSet(m, p);
    }

    /** `update_centroid`: record `c`'s centroid becomes its sum divided by
        its count, its sum and count return to zero, and the result is 1
        exactly when the centroid moved by at least `eps`. */
    method UpdateCentroid(c: nat, eps: real) returns (changed: int)
      requires Valid() && c < k && count[c] > 0
      modifies centroid, sum, count
      ensures forall j :: 0 <= j < dim ==> centroid[c, j] == old(sum[c, j]) / (old(count[c]) as real)
      ensures changed == if Moved(old(Row(centroid, c)), Row(centroid, c), eps) then 1 else 0
      ensures forall j :: 0 <= j < dim ==> sum[c, j] == 0.0
      ensures count[c] == 0
      ensures forall i, j :: 0 <= i < k && i != c && 0 <= j < dim ==>
        centroid[i, j] == old(centroid[i, j]) && sum[i, j] == old(sum[i, j])
      ensures forall i :: 0 <= i < k && i != c ==> count[i] == old(count[i])
    {
      var n := count[c] as real;
      for j := 0 to dim
        invariant forall j' :: 0 <= j' < dim ==>
          sum[c, j'] == if j' < j then old(sum[c, j']) / n else old(sum[c, j'])
        invariant forall i, j' :: 0 <= i < k && 0 <= j' < dim ==> centroid[i, j'] == old(centroid[i, j'])
        invariant forall i, j' :: 0 <= i < k && i != c && 0 <= j' < dim ==> sum[i, j'] == old(sum[i, j'])
        invariant forall i :: 0 <= i < k ==> count[i] == old(count[i])
      {
        sum[c, j] := sum[c, j] / n;
      }
      ghost var previous := Row(centroid, c);
      ghost var next := Row(sum, c);
      assert previous == old(Row(centroid, c));
      var dist := SqDist(Row(sum, c), Row(centroid, c));
      for j := 0 to dim
        invariant forall j' :: 0 <= j' < dim ==>
          centroid[c, j'] == (if j' < j then next[j'] else previous[j'])
          && sum[c, j'] == (if j' < j then 0.0 else next[j'])
        invariant forall i, j' :: 0 <= i < k && i != c && 0 <= j' < dim ==>
          centroid[i, j'] == old(centroid[i, j']) && sum[i, j'] == old(sum[i, j'])
        invariant forall i :: 0 <= i < k ==> count[i] == old(count[i])
      {
        centroid[c, j] := sum[c, j];
        sum[c, j] := 0.0;
      }
      count[c] := 0;
      assert Row(centroid, c) == next;
      changed := if eps <= 0.0 || dist >= eps * eps then 1 else 0;
    }

    /** The assignment phase of `converge`: every point, in order, joins
        the cluster of its nearest centroid. */
    method AssignAll(points: seq<Point>)
      requires Valid() && Shaped(points, dim) && Cleared()
      modifies sum, count
      ensures Centroids() == old(Centroids())
      ensures Accumulated(points, Centroids())
    {
      ghost var cs := Centroids();
      for i := 0 to |points|
        invariant Centroids() == cs
        invariant Accumulated(points[..i], cs)
      {
        AssignToClosest(points[i]);
        assert points[..i + 1][..i] == points[..i];
      }
      assert points[..|points|] == points;
    }

    /** The update phase has reached record `n` over the centroids `cs`:
        every record below `n` had members, holds the mean of its cluster and
        is cleared. */
    ghost predicate UpdatedBelow(points: seq<Point>, cs: seq<Point>, n: nat)
      reads centroid, sum, count
    {
      && Valid() && Compatible(points, cs, dim) && |cs| == k && n <= k
      && NoEmptyCluster(points, cs, dim, n)
      && (forall c :: 0 <= c < n ==> Row(centroid, c) == Mean(points, cs, dim, c))
      && (forall c :: 0 <= c < n ==> count[c] == 0)
      && (forall c, j :: 0 <= c < n && 0 <= j < dim ==> sum[c, j] == 0.0)
    }

    /** The records from `n` on still hold the centroids `cs` and the
        totals of their members. */
    ghost predicate PendingFrom(points: seq<Point>, cs: seq<Point>, n: nat)
      reads centroid, sum, count
    {
      && Valid() && Compatible(points, cs, dim) && |cs| == k
      && (forall c :: n <= c < k ==> Row(centroid, c) == cs[c])
      && (forall c :: n <= c < k ==> count[c] == MemberCount(points, cs, dim, c))
      && (forall c, j :: n <= c < k && 0 <= j < dim ==> sum[c, j] == MemberSum(points, cs, dim, c, j))
    }

    /** One iteration of the update phase, on the first pending record. */
    method UpdateNext(ghost points: seq<Point>, ghost cs: seq<Point>, i: nat, eps: real) returns (changed: nat)
      requires UpdatedBelow(points, cs, i) && PendingFrom(points, cs, i) && i < k && count[i] > 0
      modifies centroid, sum, count
      ensures UpdatedBelow(points, cs, i + 1) && PendingFrom(points, cs, i + 1)
      ensures changed == if Moved(cs[i], Mean(points, cs, dim, i), eps) then 1 else 0
    {
      changed := UpdateCentroid(i, eps);
      assert Row(centroid, i) == Mean(points, cs, dim, i);
    }

    /** Once every record is updated, the records hold the next round's
        centroids and are cleared. */
    lemma AllUpdated(points: seq<Point>, cs: seq<Point>, eps: real)
      requires UpdatedBelow(points, cs, k)
      ensures Step(points, cs, dim, eps).Updated?
      ensures Centroids() == Step(points, cs, dim, eps).centroids
      ensures Step(points, cs, dim, eps).moved == MovedCount(cs, Means(points, cs, dim, k), eps)
      ensures Cleared()
    {
      var next := Step(points, cs, dim, eps).centroids;
      forall c | 0 <= c < k
        ensures Centroids()[c] == next[c]
      {
      }
    }

    /** The update phase of `converge`: every record in turn takes the mean
        of its members as its centroid, and the moved centroids are counted.
        The phase stops at the first record without members, which the
        source would divide by zero. */
    method UpdateAll(ghost points: seq<Point>, ghost cs: seq<Point>, eps: real) returns (updated: nat, complete: bool)
      requires PendingFrom(points, cs, 0)
      modifies centroid, sum, count
      ensures complete <==> NoEmptyCluster(points, cs, dim, k)
      ensures complete ==>
        UpdatedBelow(points, cs, k) && updated == MovedCount(cs, Means(points, cs, dim, k), eps)
    {
      updated := 0;
      for i := 0 to k
        invariant UpdatedBelow(points, cs, i) && PendingFrom(points, cs, i)
        invariant updated == MovedCount(cs[..i], Means(points, cs, dim, i), eps)
      {
        if count[i] == 0 {
          return 0, false;
        }
        var changed := UpdateNext(points, cs, i, eps);
        MovedCountStep(points, cs, dim, eps, i);
        updated := updated + changed;
      }
      assert cs[..k] == cs;
      complete := true;
    }

    /** `converge`: at most `maxIter` rounds of assigning every point and
        then updating every record, stopping after the first round in which
        no centroid moved. The records are cleared between rounds. */
    method Converge(points: seq<Point>, maxIter: int, eps: real) returns (outcome: Outcome)
      requires Valid() && Shaped(points, dim) && Cleared()
      modifies centroid, sum, count
      ensures outcome == Run(points, old(Centroids()), dim, eps, 0, maxIter).1
      ensures outcome.Finished? ==>
        Centroids() == Run(points, old(Centroids()), dim, eps, 0, maxIter).0 && Cleared()
    {
      ghost var start := Centroids();
      var iter := 0;
      while iter < maxIter
        invariant 0 <= iter
        invariant Cleared()
        invariant Run(points, Centroids(), dim, eps, iter, maxIter) == Run(points, start, dim, eps, 0, maxIter)
        decreases maxIter - iter
      {
        AssignAll(points);
        ghost var cs := Centroids();
        assert PendingFrom(points, cs, 0);
        var updated, complete := UpdateAll(points, cs, eps);
        if !complete {
          return EmptyClusterIn(iter);
        }
        AllUpdated(points, cs, eps);
        if updated == 0 {
          return Finished(iter + 1, true);
        }
        iter := iter + 1;
      }
      outcome := Finished(iter, false);
    }
  }

  /** Why `fit` cannot produce centroids. */
  datatype FitError =
    | ErrorHasOccurred       // init_datapoint refuses a dimension below 1
    | NoPointsIn(round: nat)  // a round left a cluster without points

  /** `fit`: seed the records from `initialIndices`, run the engine and
      return the final centroids. */
  method Fit(k: nat, dim: int, eps: real, maxIter: int, datapoints: seq<Point>, initialIndices: seq<int>)
    returns (r: Result<seq<Point>, FitError>)
    requires 0 < k <= |initialIndices|
    requires dim > 0 ==> Shaped(datapoints, dim)
    requires forall i :: 0 <= i < k ==> 0 <= initialIndices[i] < |datapoints|
    ensures dim <= 0 ==> r == Failure(ErrorHasOccurred)
    ensures dim > 0 ==>
      var (cs, outcome) := Run(datapoints, SeedCentroids(datapoints, initialIndices, k), dim as nat, eps, 0, maxIter);
      r == if outcome.Finished? then Success(cs) else Failure(NoPointsIn(outcome.round))
  {
    if dim <= 0 {
      return Failure(ErrorHasOccurred);
    }
    var store := new ClusterStore.InitializeSets(k, dim as nat, datapoints, initialIndices);
    var outcome := store.Converge(datapoints, maxIter, eps);
    match outcome
    case EmptyClusterIn(round) =>
      r := Failure(NoPointsIn(round));
    case Finished(_, _) =>
      r := Success(store.Centroids());
  }

  /** The seed list `main` builds: `0, 1, ..., k - 1`. */
  method RangeSeeds(k: nat) returns (indices: seq<int>)
    ensures |indices| == k
    ensures forall i :: 0 <= i < k ==> indices[i] == i
  {
    var a := new int[k];
    for i := 0 to k
      invariant forall i' :: 0 <= i' < i ==> a[i'] == i'
    {
      a[i] := i;
    }
    indices := a[..];
  }

  /** With the seed list of `main`, cluster `i` starts at data point `i`. */
  lemma RangeSeedsStartAtFirstPoints(points: seq<Point>, indices: seq<int>, k: nat)
    requires k <= |points| && |indices| == k
    requires forall i :: 0 <= i < k ==> indices[i] == i
    ensures SeedCentroids(points, indices, k) == points[..k]
  {
  }
}
