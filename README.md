# k-means clustering (kmeans.c and kmeans_pp.py), modelled in Dafny

The repository implements Lloyd's k-means algorithm. The C extension
`kmeans.c` keeps `K` cluster records (`set_t`). Each record holds a current
centroid, a running sum and a member count. `converge` repeats rounds of
two phases:

- the assignment phase adds every data point to the record whose centroid
  is nearest by squared distance (`assign_to_closest`, `add_to_set`);
- the update phase replaces each centroid by the mean of its members, then
  clears that record's sum and count (`update_centroid`).

The loop stops after `max_iter` rounds, or after the first round in which
no centroid moved by at least `EPSILON`. Around the engine, `kmeans.c` also:

- seeds the records from a list of data-point indices (`initialize_sets`;
  `main` passes `0 .. K-1`);
- sizes a data file by counting characters (`get_num_and_dim`);
- validates its command line (`parse_args`).

The Python driver `kmeans_pp.py` contributes a vector distance
(`calc_distance`), a positive-integer test for command-line strings
(`check_positive_numstr`), and the argument checks of its `__main__` block.

The project has these parts:

- `vectors.dfy` (module `Vectors`): points as sequences of reals, and the
  squared distance with its properties.
- `lloyd.dfy` (module `Lloyd`): what a run computes, stated over values:
  - the nearest centroid, with ties going to the lower index;
  - member counts and sums, and the mean of a cluster;
  - one round (`Step`) and a whole run (`Run`);
  - the centroids each round of a run starts from (`Before`) and how that
    round ends (`RoundAt`), which state the early exit of a run.
- `kmeans.dfy` (module `KMeans`): the C engine itself. A class
  `ClusterStore` holds the records in arrays that its methods update in
  place, one method per C function. Each method is proved to compute what
  `Lloyd` specifies. `Converge` returns exactly the outcome of `Lloyd.Run`.
  When the run finishes, `Converge` leaves exactly the centroids of `Run`.
- `input.dfy` (module `KMeansInput`): `get_num_and_dim` over the text of
  the file, and `parse_args` over the argument strings. The C library's
  `atoi` is a parameter.
- `kmeans_pp.dfy` (module `KMeansPP`): the pure helpers of the Python
  driver.
- `scenario.dfy` (module `LloydExample`): a worked run. Four points in the
  plane, seeded with points 0 and 2 and with tolerance 0.001, converge in
  two rounds on `(0, 0.5)` and `(10, 0.5)`.
- `results.dfy` (module `Results`): the `Result` type used for error paths.

Arithmetic is over mathematical reals. The engine compares `sqrt(d) >= eps`;
the model compares `d >= eps * eps` instead, and `Vectors.RootThreshold`
proves that the two comparisons agree for non-negative roots.

The model follows the code on three points:

- A centroid counts as changed when it moved by *at least* `eps`
  (kmeans.c:190), not by more than `eps`.
- `fit` does not validate its arguments before computing. The model states
  what the code needs as preconditions: `K > 0`, seed indices inside the
  data set, and, for a dimension of at least 1, points of that dimension.
  The one check the code makes is a dimension of at least 1
  (`init_datapoint`, kmeans.c:333). It is modelled as an error result for
  every dimension below 1, whatever the points.
- An empty cluster is not guarded in the code. See "Left out" for the
  policy the model chooses.

## Model

| member | source | states |
|---|---|---|
| Vectors.SquaredDistance | kmeans.c:195-205 | the squared distance is the sum over the coordinates of the squared differences, first to last, and is never negative |
| Vectors.SquaredDistanceSymmetric | kmeans.c:195-205 | the squared distance does not depend on the order of the two points |
| Vectors.SquaredDistanceZeroIff | kmeans.c:195-205 | the squared distance is zero exactly when the two points are equal |
| Vectors.RootThreshold | kmeans.c:181-191 | for a non-negative root `s` of `d`, `s >= eps` holds exactly when `eps <= 0` or `d >= eps*eps` |
| KMeans.SqDist | kmeans.c:195-205 | the running total of `temp * temp` over the coordinates equals the squared distance |
| Lloyd.Nearest | kmeans.c:155-166 | the chosen cluster has a minimal squared distance to the point, and every lower-indexed cluster is strictly farther |
| Lloyd.NearestUnique | kmeans.c:159-166 | any index that is minimal and strictly beats all lower indices is the chosen cluster |
| Lloyd.TieGoesToLowerIndex | kmeans.c:162-165 | of two equally distant centroids, the higher index is never chosen |
| Lloyd.MemberCount | kmeans.c:135-137 | a cluster never has more members than there are points |
| Lloyd.CountsCoverPoints | kmeans.c:135-137 | after assignment the member counts of all clusters add up to the number of points |
| Lloyd.SumsCoverPoints | kmeans.c:135-137 | after assignment the sums of coordinate `j` over all clusters add up to the total of coordinate `j` over all points |
| Lloyd.DivideBy | kmeans.c:177-179 | each quotient coordinate times the divisor gives back the dividend coordinate |
| Lloyd.Mean | kmeans.c:177-179 | the new centroid times the member count is the members' coordinate sum |
| Lloyd.MovedCount | kmeans.c:139-142 | the count of moved centroids is at most the number of clusters |
| Lloyd.NoneMovedIff | kmeans.c:139-146 | the moved count is zero exactly when no centroid moved by at least `eps` |
| Lloyd.MovedCountStep | kmeans.c:140-141 | updating one more cluster adds 1 to the count exactly when that centroid moved |
| Lloyd.StepKeepsTotals | kmeans.c:139-142 | after a round, the new centroids weighted by their member counts add up, coordinate by coordinate, to the totals over all points |
| Lloyd.EmptyClusterStopsRound | kmeans.c:177-179 | a cluster without members ends the round without new centroids |
| Lloyd.Run | kmeans.c:132-148 | a run makes at most `maxIter` rounds; it ends unconverged only when the cap is reached; an empty cluster stops it within the cap |
| Lloyd.RoundAtStartsFromBefore | kmeans.c:132-148 | round `r` of a run is reached exactly when its starting centroids exist, and it is the round step from them |
| Lloyd.ConvergedRun | kmeans.c:139-146 | a run that ends converged after `n` rounds moved some centroid in every round before round `n`, and moved none in round `n`: it stops at the first round without movement |
| Lloyd.ConvergedRunEnds | kmeans.c:139-146 | a run that ends converged after `n` rounds returns the centroids its round `n` produced |
| Lloyd.CappedRun | kmeans.c:132-146 | a run that ends unconverged after `n` rounds moved some centroid in each of its rounds 1 to `n` |
| Lloyd.CappedRunEnds | kmeans.c:132-146 | a run that ends unconverged after `n` rounds returns the centroids its round `n` produced |
| Lloyd.EmptiedRun | kmeans.c:132-146 | a run stopped by an empty cluster in round `k` is within the cap and moved some centroid in every round before `k` |
| Lloyd.EmptiedRunStops | kmeans.c:139-142 | a run stopped by an empty cluster in round `k` stops because round `k` met a cluster without points |
| Lloyd.EmptiedRunEnds | kmeans.c:139-142 | a run stopped by an empty cluster in round `k` returns the centroids round `k` started from |
| Lloyd.NothingMovesInPlace | kmeans.c:190-191 | with a positive tolerance, a centroid that stays put does not count as changed |
| Lloyd.FixedPointConverges | kmeans.c:144-146 | from centroids that are already their clusters' means, a run stops after one round, converged and unchanged |
| Lloyd.OneRoundCap | kmeans.c:134 | with a cap of one round, a run returns that round's centroids, converged exactly when none moved |
| KMeans.ClusterStore.InitializeSets | kmeans.c:225-242 | record `i` starts at `datapoints[indices[i]]`, with zero count and zero sum |
| KMeans.ClusterStore.AddToSet | kmeans.c:209-216 | only the chosen record's count grows, by 1, and the point is added into its sum; every other record is unchanged |
| KMeans.ClusterStore.Closest | kmeans.c:155-166 | the search with the -1 sentinel returns exactly the nearest centroid, ties going to the lowest index |
| KMeans.ClusterStore.AssignToClosest | kmeans.c:155-169 | the point joins the nearest record; no centroid and no other record changes |
| KMeans.ClusterStore.AssignAll | kmeans.c:135-137 | after the assignment phase every record holds the count and the coordinate sums of exactly the points nearest to it |
| KMeans.ClusterStore.UpdateCentroid | kmeans.c:173-192 | the centroid becomes sum / count; the result is 1 exactly when it moved by at least `eps`; the record's sum and count are zero; other records are untouched |
| KMeans.ClusterStore.UpdateNext | kmeans.c:141 | updating the next record keeps the records below it at their means and cleared, and reports whether its centroid moved |
| KMeans.ClusterStore.AllUpdated | kmeans.c:139-142 | once every record is updated, the store holds the round's new centroids and is cleared |
| KMeans.ClusterStore.UpdateAll | kmeans.c:139-142 | the update phase completes exactly when no cluster is empty, and then `updated_centroids` is the number of centroids that moved |
| KMeans.ClusterStore.Converge | kmeans.c:132-148 | the engine's outcome is exactly that of `Run`; when the run finishes, the final centroids are those of `Run` and the records are cleared |
| KMeans.Fit | kmeans.c:99-124 | fit gives the final centroids of a run from the seed points; it fails for a dimension below 1 and for a round that leaves a cluster empty |
| KMeans.RangeSeeds | kmeans.c:79-84 | the seed list of `main` is `0, 1, ..., K-1` |
| KMeans.RangeSeedsStartAtFirstPoints | kmeans.c:79-86 | with that seed list, cluster `i` starts at data point `i` |
| KMeansInput.Occurrences | kmeans.c:293-299 | a character count is at most the length, and zero exactly when the character is absent |
| KMeansInput.FirstLine | kmeans.c:296 | the first line is a prefix without line breaks, followed by a line break or by the end of the text |
| KMeansInput.GetNumAndDim | kmeans.c:285-301 | `num_data` is the number of line breaks, and `dim` is one more than the number of commas on the first line |
| KMeansInput.SizesOfDataFile | kmeans.c:285-301 | on a well-formed file, `num_data` is the number of rows and `dim` the number of fields in the first row |
| KMeansInput.ParseArgs | kmeans.c:305-328 | accepts exactly 4 or 5 arguments with `K > 0` and, with 5, `max_iter > 0`; `max_iter` defaults to 200; the files are the last two arguments |
| KMeansInput.ExplicitDefaultMaxIter | kmeans.c:315-321 | giving `max_iter` as 200 has the same effect as leaving it out |
| KMeansPP.SumOfSquaredDifferences | kmeans_pp.py:39 | the summed list of squared differences is the squared distance the engine uses |
| KMeansPP.CalcDistance | kmeans_pp.py:37-39 | fails with an assertion exactly when the lengths differ, and otherwise returns the squared distance |
| KMeansPP.CalcDistanceIsMetric | kmeans_pp.py:37-39 | the distance is non-negative and symmetric, and zero exactly for identical vectors |
| KMeansPP.DecimalValuePositive | kmeans_pp.py:99-100 | a digit string has a positive value exactly when one of its digits is not zero |
| KMeansPP.CheckPositiveNumstr | kmeans_pp.py:91-100 | a non-decimal string gives `(0, False)`; a decimal string gives its value, flagged valid exactly when it is positive |
| KMeansPP.DigitsRoundTrip | kmeans_pp.py:99 | reading back the digits of a number gives the number |
| KMeansPP.CheckPositiveNumstrOfDigits | kmeans_pp.py:91-100 | a number written in digits passes the check exactly when it is positive, and keeps its value |
| KMeansPP.Operands | kmeans_pp.py:121-126 | reading past the end of `argv` is an IndexError; otherwise both files must end in `.txt` or `.csv` |
| KMeansPP.MainArguments | kmeans_pp.py:106-126 | any accepted command line has the allowed length and a positive `K` and `max_iter` |
| KMeansPP.MainArgsAsWritten | kmeans_pp.py:108-123 | with the count check as written, no command line is accepted; the IndexError cases are exactly those that pass the checks on count, `K` and `max_iter` |
| KMeansPP.UsageRejectedAsWritten | kmeans_pp.py:108-123 | both forms of the usage that lines 114-123 read (with and without `max_iter`) are refused as written, and accepted once `eps` is counted |
| KMeansPP.ShortCommandLineIndexError | kmeans_pp.py:121-123 | four entries pass the count check and then read past the end of `argv` |
| KMeansPP.MainArgs | kmeans_pp.py:106-126 | with `eps` counted: accepts exactly 5 or 6 entries with valid `K`, valid `max_iter` (default 300) and data-file suffixes; every failure is "Invalid Input!" |
| LloydExample.SeedsFromIndices | kmeans.c:225-242 | seeding the records from the indices 0 and 2 gives the two seed centroids of the worked run |
| LloydExample.NearestOfTwo | kmeans.c:159-166 | with two centroids, the second wins only when strictly closer |
| LloydExample.MeansAreCentres | kmeans.c:177-179 | centroids that split the four points in halves have the centres as cluster means |
| LloydExample.FirstRoundMovesBoth | kmeans.c:134-142 | the first round from the seeds moves both centroids to the centres |
| LloydExample.TwoClustersConverge | kmeans.c:132-148 | the four-point run with tolerance 0.001 and cap 200 converges after two rounds on `(0, 0.5)` and `(10, 0.5)` |

## Left out

- File input and output (`collect_data`, `parse_datapoint`, `write_output`, `parse_datapoints`) are not modelled. `get_num_and_dim` reads the file's text as a character sequence.
- Memory management is not modelled (`init_datapoint`'s allocation, `free_datapoint`, `free_program`, `calloc` failures), and neither are the exit paths of `assert_input` and `assert_other`. Allocation always succeeds, and the checks become error results.
- `fit`'s conversion to and from Python objects is not modelled, and neither is the aliasing of its returned rows with the records (kmeans.c:116-123). `KMeans.Fit` returns the centroids as values.
- Floating-point rounding, NaN and `sqrt` are not modelled. Arithmetic is over mathematical reals.
- `atoi` is a parameter of `KMeansInput.ParseArgs`. `int()` and `str.isdecimal` are modelled for the ASCII digits 0 to 9 only; Unicode decimal characters are left out.
- C `int` overflow in counters and `atoi` results is not modelled. Integers are unbounded.
- `initialize_centroids` and `main` in kmeans_pp.py are not part of this model. They depend on numpy randomness and on the C extension.
- bonus.py and setup.py are not part of this model. They are plotting and build configuration.
- KMeans.Fit: takes `K` explicitly, because the C `fit` never assigns the global `K` from `K_arg` (kmeans.c:99-114). It also takes the tolerance as an explicit parameter. The `#define EPSILON eps` at kmeans.c:100-101 does expand at kmeans.c:190, but there it names `eps`, which is not in scope in `update_centroid`; the value of `fit`'s parameter never reaches the comparison.
- KMeans.ClusterStore.UpdateCentroid: requires a non-empty record. The source divides by a zero count (kmeans.c:178). The engine stops instead, at the first empty record of a round: `UpdateAll` reports it, `Converge` returns `EmptyClusterIn(round)` and `Fit` returns `NoPointsIn(round)`.
- KMeans.ClusterStore.Converge: when a round meets an empty cluster, the contract does not state what the records then hold. `Fit` discards them and returns `NoPointsIn(round)`.
- KMeans.RangeSeedsStartAtFirstPoints: requires `K` to be at most the number of data points. `main` never compares `K` with `num_data` (kmeans.c:79-86), so with more clusters than points `initialize_sets` reads past the end of `datapoints` (kmeans.c:239); that out-of-bounds read is not modelled.
- KMeansInput.GetNumAndDim: counts line breaks exactly as the source does, so a last line without a final line break is not counted as a data point.
- The source as written does not compile or parse in a few places: a missing `;` at kmeans.c:120, `eps` out of scope at kmeans.c:190, and unbalanced parentheses at kmeans_pp.py:38 and kmeans_pp.py:126. The model gives these lines their evident meaning.
- That the sum of squared errors never increases from one round to the next is not proved. It needs an optimality argument about means over reals that this model does not attempt.

## Findings

| source | as written | input that shows it | evidently intended | confidence | as-written member | corrected member |
|---|---|---|---|---|---|---|
| kmeans_pp.py:108 | accepts only 3+1 or 4+1 entries, leaving out `eps`, although lines 121-123 read `eps` and two files from `argv[i]` to `argv[i+2]` | `kmeans_pp.py 3 0.01 in_1.txt in_2.txt` fails with "Invalid Input!" because `0.01` is taken for `max_iter`; the six-entry form is refused by the count | accept 4+1 or 5+1 entries | not executed | KMeansPP.UsageRejectedAsWritten | KMeansPP.MainArgs |
