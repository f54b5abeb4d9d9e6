# Movie clustering: a verified model

This project models the computational core of a small movie-clustering
program written in Python 2. The program has two layers.

- **The distance layer** (`datacomparison.py`):
  - `compare_singles` is an exact-match distance.
  - `compare_arrays` is a set-overlap distance. It counts distinct elements
    and a duplicate-aware intersection, then applies a hyperbolic remapping
    built on a square root.
  - `get_centroid` and `get_array_centroid` are frequency utilities built
    on `Counter.most_common`.
- **The clustering engine** (`hierarchy.py`, class `HierarchyClustering`):
  - a movie record becomes a vector of eight features;
  - `movie_dist` averages per-field distances;
  - `clusters_dist` is average linkage over all cross pairs;
  - `join_nearest` merges the first closest pair of clusters;
  - `fit` starts from one singleton per movie, merges until `n_clusters`
    clusters remain, and writes `labels_`.

The Dafny modules follow that split:

- `errors.dfy` (module `Errors`): every exception the Python code can
  raise becomes one `Error` value. Results are `Result`, `Option` (for the
  sentinel `-1`) or `Outcome` (for `fit`).
- `datacomparison.dfy` (module `DataComparison`): the distance layer.
  - Pure code becomes functions.
  - The loops of `get_array_centroid` become methods: `JoinRows`,
    `TakeLeading`, `KeepFrequent`, `SelectFrequent` and
    `GetArrayCentroid`. Each is proved against a specification.
- `clusters.dfy` (module `Clusters`): the list of index sets that the
  engine works on. It covers partitions of `0..n-1`, the singletons, and
  the merge that `clusters[i].update(clusters[j]); clusters.pop(j)`
  performs.
- `hierarchy.dfy` (module `Hierarchy`): feature vectors, `movie_dist`,
  `clusters_dist`, and the class `HierarchyClustering`.
  - The class holds the fields `nClusters`, `nFeatures`, `nSamples`,
    `nMovies` and `labels`.
  - Its methods are `NearestPair` (the double loop of `join_nearest`),
    `JoinNearest`, `Agglomerate` (the merging loop of `fit`),
    `AssignLabels` (the labelling loop of `fit`) and `Fit`.

Modelling choices:

- **Movie records.** The dictionary that `read_data` builds for a movie
  (`hierarchy.py:34-45`) is the datatype `Hierarchy.Movie`: the five
  single-valued columns are strings and the five list columns are
  sequences of strings.
- **The square root.** `x ** 0.5` is a function parameter
  `sqrt: real -> real`. Lemmas that need it assume `IsSqrt(sqrt)`: the
  result is a non-negative root of every non-negative argument. All
  arithmetic is on exact reals.
- **Set iteration order.** Python iterates a set in an order the model
  cannot see. `clusters_dist` sums the pairs in ascending index order
  (`Ascending`). The sum itself does not depend on the order: for any
  listing of the two clusters without repetitions, the result is the sum
  over those listings divided by the number of pairs
  (`ClustersDistAverage`). The order only decides which exception is
  raised first when several pairs fail.
- **Movie distance is not always symmetric.** It is symmetric for vectors
  of one schema (`MovieDistSymmetric`). The list-or-scalar test looks only
  at the first vector, so a list against a string raises, while a string
  against a list counts as a mismatch (`MovieDistAsymmetric`).
- **Self-distance.** A non-empty list compared with itself is at
  distance 0 exactly when it repeats no element. With repetitions the
  duplicate-aware intersection exceeds `m` and the distance is negative
  (`CompareArraysSelf`). An empty list compared with itself raises
  ZeroDivisionError (`CompareArraysEmpty`). So a movie vector is at
  distance 0 from itself if and only if it is non-empty and its list
  features are non-empty and repeat nothing (`MovieDistSelfExact`).
- **Failures in fit.** `fit` is modelled on all inputs, not only on
  `1 <= n_clusters <= n`:
  - an empty input raises;
  - a failing merge ends `fit` before `labels_` is touched;
  - `n_clusters > n` raises an IndexError from the labelling loop, after
    every singleton has been labelled with its own position;
  - `n_clusters <= 0` merges down to one cluster and labels every movie 0.

  On well-formed data no merge can fail (`WellFormedNeverFails`).
  Well-formed data means one schema, non-empty vectors, and list entries
  that are non-empty and repeat nothing.

## Model

| member | source | states |
|---|---|---|
| DataComparison.CompareSingles | datacomparison.py:11-15 | result is 0 exactly when the values are equal, 1 exactly when they differ |
| DataComparison.Intersects | datacomparison.py:26-33 | `len(a1 + a2) - len(set(a1) | set(a2))` equals the repetitions inside each list plus the size of the true intersection |
| DataComparison.IntersectsCounts | datacomparison.py:26-33 | the duplicate-aware intersection is never negative and is at least the true intersection; it equals the true intersection when neither list repeats; it is 0 exactly for disjoint repetition-free lists |
| DataComparison.SelfIntersects | datacomparison.py:26-34 | a list against itself has `intersects == 2*len - distinct` and `m == distinct`; `intersects == m` exactly without repetitions, and `intersects >= m` always |
| DataComparison.DistinctCard | datacomparison.py:26-29 | a list has at most as many distinct elements as entries, and exactly as many iff it has no repetitions |
| DataComparison.SmallerDistinct | datacomparison.py:26-34 | `m` is the distinct count of one of the two lists, is at most both distinct counts, and is at most both lengths |
| DataComparison.RootArgument | datacomparison.py:37 | the argument of the square root is never negative for a non-negative `m` and `coeff` |
| DataComparison.Remap | datacomparison.py:38-40 | the remapping can only raise ZeroDivisionError |
| DataComparison.CompareArrays | datacomparison.py:18-40 | compare_arrays raises only ValueError (a negative root argument) or ZeroDivisionError, and with a non-negative `coeff` only ZeroDivisionError |
| DataComparison.UnitSpan | datacomparison.py:37-39 | with `m > 0` and `coeff > 0`, both `-a` and `m - a` are positive, and `coeff/(-a) - coeff/(m - a)` is exactly 1 |
| DataComparison.RootExceeds | datacomparison.py:37 | with `m > 0` and `coeff > 0`, the root `sq_d` is strictly greater than `m`, so `a < 0` |
| DataComparison.RemapAnchors | datacomparison.py:37-40 | for `m > 0` and `coeff > 0` the remap never divides by zero; it is at most 1, exactly 1 iff `intersects == 0`, exactly 0 iff `intersects == m`, and non-negative iff `intersects <= m` |
| DataComparison.RootedAnchors | datacomparison.py:37-40 | the same anchors at the root supplied by `sqrt` |
| DataComparison.CompareArraysErrors | datacomparison.py:34-40 | with `coeff > 0`, compare_arrays fails iff a list is empty, and then only with ZeroDivisionError |
| DataComparison.CompareArraysEmpty | datacomparison.py:34-39 | an empty list gives `m == 0`, so `coeff/(m - a)` divides by zero |
| DataComparison.CompareArraysAnchors | datacomparison.py:18-40 | for non-empty lists the distance is defined and at most 1; it is exactly 1 iff the lists are disjoint and repeat nothing, exactly 0 iff `intersects == m`, and non-negative for repetition-free lists |
| DataComparison.SmallerDistinctBounds | datacomparison.py:26-34 | `m` is positive for non-empty lists and at least the number of shared elements |
| DataComparison.CompareArraysSelf | datacomparison.py:18-40 | a non-empty list is at distance exactly 0 from itself iff it has no repetitions; with repetitions the distance is negative |
| DataComparison.CompareArraysSymmetric | datacomparison.py:26-40 | compare_arrays gives the same result with its arguments swapped |
| DataComparison.DocExamples | datacomparison.py:19-22 | ABCDE against FGH gives exactly 1, and ABCDE against ABC gives exactly 0 |
| DataComparison.MostCommonIndex | datacomparison.py:50 | picks the first position whose element has maximal count among the positions scanned |
| DataComparison.GetCentroid | datacomparison.py:44-50 | None (the sentinel -1) iff the list is empty; otherwise an element of the list whose count is at least that of every element |
| DataComparison.CentroidExample | datacomparison.py:85 | `get_centroid([1,9,5,4,1,3,9,7,5,4,9,7])` is 9 |
| DataComparison.Dedup | datacomparison.py:66-67 | the distinct elements of a list, each once |
| DataComparison.InsertByCountSorted | datacomparison.py:72 | inserting by count keeps the list sorted by non-increasing count and adds exactly one occurrence |
| DataComparison.RankByCountSorted | datacomparison.py:72 | ranking sorts by non-increasing count and keeps the same multiset |
| DataComparison.MostCommon | datacomparison.py:66-67 | the keys of `most_common()`: every distinct element exactly once, by non-increasing count |
| DataComparison.OmittedNotMoreFrequent | datacomparison.py:71-73 | a prefix of the ranked keys stays sorted and repetition-free, and no key left out has a higher count than a key kept |
| DataComparison.MostCommonMembers | datacomparison.py:66-67 | the ranked keys are exactly the elements of the list |
| DataComparison.LeadingSelection | datacomparison.py:69-73 | the first `p` ranked keys are a ranked selection from the list, and nothing left out is more frequent than anything kept |
| DataComparison.ThresholdSelection | datacomparison.py:74-78 | the ranked keys that reach the threshold are exactly the elements of the list occurring at least that often |
| DataComparison.KeptByCount | datacomparison.py:76-78 | the keys of the ranking, in ranked order, whose count reaches `p`: exactly the ranked keys whose count reaches `p` |
| DataComparison.KeptByCountSorted | datacomparison.py:76-78 | keeping the keys of a repetition-free ranking sorted by count leaves a repetition-free list sorted by count |
| DataComparison.KeepFrequent | datacomparison.py:76-78 | the loop's result is the ranked keys whose count reaches `p`, in ranked order (KeptByCount); it is repetition-free, sorted by non-increasing count, and holds exactly the keys whose count reaches `p` |
| DataComparison.TakeLeading | datacomparison.py:72-73 | the appending loop yields exactly the first `p` ranked keys |
| DataComparison.Flatten | datacomparison.py:63-65 | the joined rows hold exactly the elements of the rows |
| DataComparison.Truncate | datacomparison.py:71 | `int(part * n)` for `part >= 0` is the greatest integer not above `part * n`, and is non-negative |
| DataComparison.JoinRows | datacomparison.py:63-65 | the `+=` loop yields the rows joined end to end |
| DataComparison.SelectFrequent | datacomparison.py:66-79 | the result is a ranked selection; with `ofAll` it holds `min(int(part*distinct), distinct)` elements and nothing omitted is more frequent than anything kept; and it is that prefix of the ranking; without `ofAll` it holds exactly the elements occurring at least `int(part*rows)` times, in ranked order |
| DataComparison.GetArrayCentroid | datacomparison.py:53-79 | None iff there are no rows; otherwise the guarantees of SelectFrequent for the joined rows, including the ranked order of the result |
| Clusters.Singletons | hierarchy.py:132 | `n` clusters, the `i`-th being `{i}` |
| Clusters.SingletonsPartition | hierarchy.py:132 | the singletons partition `0..n-1` |
| Clusters.Merge | hierarchy.py:124-125 | cluster `i` becomes the union of clusters `i` and `j`; cluster `j` is removed; the others keep their order; the length drops by one |
| Clusters.MergeUnion | hierarchy.py:124-125 | merging keeps the union of all clusters |
| Clusters.MergePartition | hierarchy.py:124-125 | merging two clusters of a partition leaves a partition, so disjointness and non-emptiness are kept |
| Clusters.PartitionOwner | hierarchy.py:138-139 | in a partition every position lies in exactly one cluster |
| Clusters.PartitionMembers | hierarchy.py:139 | a partition holds only positions below `n`, so `labels_[m]` is in range |
| Hierarchy.GetFeatures | hierarchy.py:52-57 | eight features, of which exactly entries 1, 4, 5 and 6 (synopsis, critics' consensus, cast, directors) are lists |
| Hierarchy.GetFeaturesExact | hierarchy.py:52-57 | two movies have equal features iff they agree on every column except id and genres |
| Hierarchy.GetFeaturesArray | hierarchy.py:60-66 | one vector per movie, in order, all sharing one schema |
| Hierarchy.SumResults | hierarchy.py:78-83 | the running sum succeeds iff every term does, and then equals the total; otherwise it raises the first failing term's exception |
| Hierarchy.FieldDist | hierarchy.py:79-82 | raises TypeError iff the first entry is a list and the second a string; otherwise raises at most ZeroDivisionError; a string first entry gives 0 exactly for equal entries and 1 exactly for different ones |
| Hierarchy.FieldDists | hierarchy.py:78-82 | one term per field, in field order, each the field distance of that position |
| Hierarchy.MovieDist | hierarchy.py:69-84 | raises the length error iff the lengths differ; any other exception is TypeError or ZeroDivisionError |
| Hierarchy.FieldDistsErrors | hierarchy.py:78-82 | a failing sum of field distances raises only TypeError or ZeroDivisionError |
| Hierarchy.MovieDistSymmetric | hierarchy.py:78-84 | for vectors of one schema movie_dist is symmetric |
| Hierarchy.MovieDistAsymmetric | hierarchy.py:79-82 | a list against a string raises TypeError, while a string against a list gives 1 |
| Hierarchy.FieldDistBounds | hierarchy.py:79-82 | two proper entries of one kind are at a distance between 0 and 1 |
| Hierarchy.MovieDistBounds | hierarchy.py:73-84 | for non-empty vectors of one schema with proper entries, movie_dist is defined and between 0 and 1 |
| Hierarchy.FieldDistSelf | hierarchy.py:79-82 | an entry against itself: a string gives 0; an empty list raises ZeroDivisionError; a non-empty list gives at most 0, and 0 iff it repeats nothing |
| Hierarchy.MovieDistSelf | hierarchy.py:73-84 | a non-empty vector with proper entries is at distance exactly 0 from itself |
| Hierarchy.MovieDistSelfExact | hierarchy.py:69-84 | a vector is at distance exactly 0 from itself iff it is non-empty and every list feature is non-empty and repeats nothing |
| Hierarchy.Ascending | hierarchy.py:92-93 | lists every member of a cluster exactly once, in increasing order |
| Hierarchy.PairDist | hierarchy.py:94 | raises IndexError iff a position is past the end of the movie list |
| Hierarchy.Row | hierarchy.py:93-94 | one term per movie of the inner loop, in order, each the pair distance |
| Hierarchy.Rows | hierarchy.py:92-94 | one inner-loop sum per movie of the outer loop, in order |
| Hierarchy.PairCount | hierarchy.py:96 | `len(c1)*len(c2)` is 0 exactly when a cluster is empty |
| Hierarchy.ClustersDist | hierarchy.py:87-96 | raises the empty-cluster error iff a cluster is empty; succeeds iff every cross pair has a distance; otherwise raises the exception of some cross pair |
| Hierarchy.CrossSumOk | hierarchy.py:91-94 | the row sums all succeed iff every cross pair does |
| Hierarchy.CrossSumError | hierarchy.py:91-94 | an exception of the row sums is the exception of some cross pair |
| Hierarchy.SeqSumReorder | hierarchy.py:92-93 | two repetition-free listings of the same elements give the same sum |
| Hierarchy.ClustersDistAverage | hierarchy.py:87-96 | when every cross pair has a distance, average linkage is defined and equals the sum of the distances over all cross pairs, for any repetition-free listing of each cluster, divided by `len(c1)*len(c2)` |
| Hierarchy.ClustersDistSingleton | hierarchy.py:87-96 | two one-movie clusters are as far apart as their movies |
| Hierarchy.ClustersDistBounds | hierarchy.py:87-96 | if every cross pair is at a distance between `lo` and `hi`, average linkage is defined and lies between them |
| Hierarchy.CrossTotalBounds | hierarchy.py:91-94 | the total of all cross-pair distances lies between `|c1|*|c2|` copies of the bounds |
| Hierarchy.RowsBounds | hierarchy.py:92-94 | each inner-loop sum lies between `|c2|` copies of the bounds |
| Hierarchy.ClustersDistSymmetric | hierarchy.py:87-96 | for one-schema data, when average linkage of two clusters is defined, it is defined with the clusters swapped and has the same value |
| Hierarchy.GridByColumns | hierarchy.py:91-94 | summing the cross pairs row by row equals summing them column by column |
| Hierarchy.PairDistSymmetric | hierarchy.py:94 | for one-schema data, the distance of two movies does not depend on their order |
| Hierarchy.Distances | hierarchy.py:114-118 | the distance of clusters `p` and `q` as join_nearest computes it: the empty-cluster error iff one of them is empty, and IndexError for a position past the end |
| Hierarchy.NearestUnique | hierarchy.py:114-121 | at most one pair is the first pair of least distance |
| Hierarchy.FirstFailingUnique | hierarchy.py:114-118 | at most one pair is the first whose distance raises |
| Hierarchy.JoinStepOk | hierarchy.py:112-125 | a merge step succeeds iff there are fewer than two clusters or every pair has a distance |
| Hierarchy.JoinStepUnique | hierarchy.py:108-125 | the outcome of a merge step is determined by the clusters and the movies |
| Hierarchy.JoinStepPartition | hierarchy.py:108-125 | a successful merge step keeps a partition and shrinks it by one cluster when there were at least two |
| Hierarchy.JoinStepErrors | hierarchy.py:114-118 | on a partition of the movie positions, a failing merge step raises only what movie_dist raises |
| Hierarchy.ClustersDistErrors | hierarchy.py:87-96 | for non-empty clusters of positions in range, average linkage raises only what movie_dist raises |
| Hierarchy.HierarchyClustering.NearestPair | hierarchy.py:112-123 | on success, returns the lexicographically first pair `i < j` of least distance; on failure, raises the exception of the first pair, in scan order, whose distance raises |
| Hierarchy.HierarchyClustering.JoinNearest | hierarchy.py:108-125 | with fewer than two clusters nothing changes; otherwise the nearest pair is merged, or the first failing distance's exception is raised |
| Hierarchy.Steps | hierarchy.py:133 | `xrange(n - k)` makes no call iff `k >= n`, and otherwise `n - k` calls |
| Hierarchy.RunShape | hierarchy.py:132-134 | after `t` steps from the singletons, the clusters partition the positions into `max(n - t, 1)` parts |
| Hierarchy.AgglomeratesShape | hierarchy.py:132-134 | the clusters after `s` merge calls partition the positions into `max(n - s, 1)` parts |
| Hierarchy.AgglomeratesUnique | hierarchy.py:132-134 | the clusters after `s` merge calls are determined by the movies |
| Hierarchy.HierarchyClustering.Agglomerate | hierarchy.py:132-134 | on success, the clusters are what `steps` merges of the singletons make: a partition into `max(n - steps, 1)` parts, the singletons themselves when `steps == 0`; on failure, the exception of the first failing call, which is one movie_dist can raise |
| Hierarchy.WellFormedClusters | hierarchy.py:87-96 | on well-formed data, average linkage of non-empty clusters in range is defined and between 0 and 1 |
| Hierarchy.WellFormedLink | hierarchy.py:118 | on well-formed data, any two clusters of a partition have a distance between 0 and 1 |
| Hierarchy.WellFormedLinks | hierarchy.py:114-121 | on well-formed data, every pair of clusters of a partition has a distance |
| Hierarchy.WellFormedNeverFails | hierarchy.py:133-134 | on well-formed data, no merge call of fit raises |
| Hierarchy.LabelCount | hierarchy.py:137 | `xrange(k)` visits `k` clusters for non-negative `k`, and none otherwise |
| Hierarchy.Labels | hierarchy.py:136-139 | after labelling `k` clusters there are `n` labels, each in `0..k-1` (all 0 when `k == 0`) |
| Hierarchy.LabelsOwner | hierarchy.py:137-139 | a movie of cluster `a < k` gets label `a` |
| Hierarchy.LabelsUnowned | hierarchy.py:136-139 | a movie in none of the labelled clusters keeps label 0 |
| Hierarchy.LabelsPartition | hierarchy.py:136-139 | with all clusters of a partition labelled, every label is the index of the cluster that holds the movie |
| Hierarchy.LabelsSameCluster | hierarchy.py:136-139 | two movies share a label iff they share a cluster |
| Hierarchy.LabelsSingletons | hierarchy.py:136-139 | labelling the singletons gives `labels_[i] == i` |
| Hierarchy.FittedClusters | hierarchy.py:132-139 | for `1 <= n_clusters <= n`, fit ends with exactly `n_clusters` clusters partitioning the positions, and each label is the index of its cluster and lies in `0..n_clusters-1` |
| Hierarchy.FittedIdentity | hierarchy.py:132-139 | with `n_clusters == n`, the labels are the positions |
| Hierarchy.FittedOneCluster | hierarchy.py:132-139 | with `n_clusters == 1`, one cluster remains and every label is 0 |
| Hierarchy.HierarchyClustering.AssignLabels | hierarchy.py:136-139 | succeeds iff `k` is at most the number of clusters, and then yields the labels of the first `max(k, 0)` clusters; otherwise raises IndexError with every cluster labelled |
| Hierarchy.HierarchyClustering.constructor | hierarchy.py:10-14 | stores `n_clusters`; the sizes are 0 and there are no labels |
| Hierarchy.HierarchyClustering.Fit | hierarchy.py:128-144 | `n_clusters` and `n_samples` never change; raises the empty-input error iff the input is empty, and then changes nothing else; otherwise records `n_features` and `n_movies`; on success `n_clusters <= n`, and the labels are those of the first `max(n_clusters, 0)` clusters that the merges leave; raises IndexError iff `n_clusters > n`, with every singleton labelled by its position; any other exception comes from a merge call and leaves the labels unchanged |

## Left out

- `read_data`, both `main` functions, `example_reader.py` and `tomatoes.py` are file, network and console I/O. Movies enter the model as values.
- `clusters_quality` is a stub that returns 0. It holds no logic.
- The sklearn `ClusterMixin` base and `fit_predict` are library code and are not part of this model.
- Floating-point rounding is not modelled: the arithmetic is on exact reals. The square root is a parameter, so the documented approximate values 0.29 and 0.665 are not claimed.
- `DataComparison.Truncate` is the exact floor of `part * n`. In floating point, `int(part * n)` can be one lower (`0.29 * 100` evaluates to `28.999999999999996`, so `int` gives 28), which changes the selections of `get_array_centroid`.
- `Hierarchy.IsNearest` compares exact distances. In floating point, two distances that are equal as reals can differ after rounding, so the strict `d < min_dist` can pick a different pair of clusters.
- The tie order of `Counter.most_common` is not modelled. Python 2 breaks ties by dictionary iteration order; the model breaks them by first occurrence. Only count order is stated.
- Set iteration order in `clusters_dist` is ascending in the model. This affects only which exception is raised first when several pairs fail; the value does not depend on it (`Hierarchy.ClustersDistAverage`).
- The labelling loop of `fit` visits the members of each cluster in an arbitrary order (`Hierarchy.HierarchyClustering.AssignLabels` picks any remaining member). Every member of a cluster gets the same label, so the order does not change the result.
- `Hierarchy.HierarchyClustering.JoinNearest` returns the new list rather than mutating the caller's list, so aliasing of the `clusters` list is not modelled.
- `Hierarchy.HierarchyClustering.Fit` builds the labels in a local sequence and assigns the field once. The observable field values are the same, including on an IndexError.
- `DataComparison.GetArrayCentroid` requires `part >= 0`, as the docstring's range 0-1 implies. For negative `part`, `int()` truncation toward zero differs from the floor, and this is not modelled.
- The constructor sets `n_movies` to 0. The Python `__init__` leaves that attribute undefined until `fit`. `n_samples` is never updated by `fit`.
- `movie_dist` and `clusters_dist` are modelled as pure functions (`MovieDist`, `ClustersDist`) over the ordered terms of their accumulation loops. There is no separate loop method for them.
- `Hierarchy.MovieDist` identifies list entries by the `Multi` constructor of `Field`. Any other non-list value is a `Scalar` string.
