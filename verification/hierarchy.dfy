/** The agglomerative clustering engine of hierarchy.py: movies become
    feature vectors, vectors are compared field by field, clusters are
    compared by average linkage, and the closest pair of clusters is merged
    until the requested number of clusters remains. */
module Hierarchy {
  import opened Errors
  import opened DataComparison
  import opened Clusters

  // ---------------------------------------------------------------------
  // Movies and their features
  // ---------------------------------------------------------------------

  /** One entry of a feature vector: a plain string, or a list of strings
      (a CSV row), told apart in the source by `isinstance(x, list)`. */
  datatype Field = Scalar(text: string) | Multi(items: seq<string>)

  /** A movie record as `read_data` builds it: the five single-valued
      columns are strings, the other five are rows of strings. */
  datatype Movie = Movie(
    id: string,
    genres: seq<string>,
    title: string,
    synopsis: seq<string>,
    mpaaRating: string,
    runtime: string,
    criticsConsensus: seq<string>,
    castNames: seq<string>,
    directorNames: seq<string>,
    studio: string)

  /** Which entries of a feature vector are lists. */
  function Kinds(fs: seq<Field>): (r: seq<bool>)
    ensures |r| == |fs|
    ensures forall k :: 0 <= k < |fs| ==> (r[k] <==> fs[k].Multi?)
  {
    seq(|fs|, k requires 0 <= k < |fs| => fs[k].Multi?)
  }

  /** The kinds of the eight features: title, synopsis, MPAA rating,
      runtime, critics' consensus, cast, directors, studio. */
  const FeatureKinds: seq<bool> := [false, true, false, false, true, true, true, false]

  /** get_features: the vector of eight features of a movie; `id` and
      `genres` are not among them. */
  function GetFeatures(m: Movie): (r: seq<Field>)
    ensures Kinds(r) == FeatureKinds
  {
    [Scalar(m.title), Multi(m.synopsis), Scalar(m.mpaaRating), Scalar(m.runtime),
     Multi(m.criticsConsensus), Multi(m.castNames), Multi(m.directorNames),
     Scalar(m.studio)]
  }

  /** Two movies have the same features exactly when they agree on every
      column except `id` and `genres`. */
  lemma GetFeaturesExact(m1: Movie, m2: Movie)
    ensures GetFeatures(m1) == GetFeatures(m2) <==>
              m1.(id := m2.id, genres := m2.genres) == m2
  {
    if GetFeatures(m1) == GetFeatures(m2) {
      var f1, f2 := GetFeatures(m1), GetFeatures(m2);
      assert f1[0] == f2[0] && f1[1] == f2[1] && f1[2] == f2[2] && f1[3] == f2[3];
      assert f1[4] == f2[4] && f1[5] == f2[5] && f1[6] == f2[6] && f1[7] == f2[7];
    }
  }

  /** Two feature vectors of equal length whose entries have the same kind
      at every position. */
  predicate SameSchema(f1: seq<Field>, f2: seq<Field>) {
    |f1| == |f2| && forall k :: 0 <= k < |f1| ==> (f1[k].Multi? <==> f2[k].Multi?)
  }

  /** All vectors of a data set share one schema. */
  predicate Uniform(movies: seq<seq<Field>>) {
    forall a, b :: 0 <= a < |movies| && 0 <= b < |movies| ==> SameSchema(movies[a], movies[b])
  }

  /** get_features_array: the movies in the order given, as feature vectors
      that all share the schema of `GetFeatures`. */
  function GetFeaturesArray(movies: seq<Movie>): (r: seq<seq<Field>>)
    ensures |r| == |movies|
    ensures forall a :: 0 <= a < |r| ==> r[a] == GetFeatures(movies[a])
    ensures Uniform(r)
  {
    var r := seq(|movies|, a requires 0 <= a < |movies| => GetFeatures(movies[a]));
    assert forall a, b :: 0 <= a < |r| && 0 <= b < |r| ==> Kinds(r[a]) == Kinds(r[b]);
    r
  }

  // ---------------------------------------------------------------------
  // Sums that stop at the first exception
  // ---------------------------------------------------------------------

  /** The number a term contributes to a sum (an exception contributes
      nothing, since it ends the sum). */
  function ValueOf(r: Result<real>): real {
    if r.Ok? then r.value else 0.0
  }

  /** The sum of the values of a list of terms. */
  function Total(rs: seq<Result<real>>): real {
    if rs == [] then 0.0 else Total(rs[..|rs| - 1]) + ValueOf(rs[|rs| - 1])
  }

  /** `d = 0; for t in terms: d += t` where evaluating a term may raise: the
      first exception in list order ends the loop, otherwise the sum. */
  function SumResults(rs: seq<Result<real>>): (r: Result<real>)
    ensures r.Ok? <==> forall k :: 0 <= k < |rs| ==> rs[k].Ok?
    ensures r.Ok? ==> r.value == Total(rs)
    ensures r.Err? ==> exists k :: 0 <= k < |rs| && rs[k] == Err(r.error) &&
                                   forall l :: 0 <= l < k ==> rs[l].Ok?
  {
    if rs == [] then Ok(0.0)
    else
      var init, last := rs[..|rs| - 1], rs[|rs| - 1];
      assert forall k :: 0 <= k < |init| ==> init[k] == rs[k];
      match SumResults(init)
      case Err(e) => Err(e)
      case Ok(s) => if last.Err? then Err(last.error) else Ok(s + last.value)
  }

  /** `n` copies of `x` added up; keeps the bounds of sums free of
      products of unknowns. */
  function Times(n: nat, x: real): real {
    if n == 0 then 0.0 else Times(n - 1, x) + x
  }

  /** Repeated addition is multiplication. */
  lemma {:induction false} TimesProduct(n: nat, x: real)
    ensures Times(n, x) == n as real * x
  {
    if n > 0 {
      TimesProduct(n - 1, x);
    }
  }

  /** `a + b` copies of `x` are `a` copies and `b` copies of it. */
  lemma {:induction false} TimesPlus(a: nat, b: nat, x: real)
    ensures Times(a + b, x) == Times(a, x) + Times(b, x)
  {
    if b > 0 {
      TimesPlus(a, b - 1, x);
    }
  }

  /** `k` copies of `w` copies of `x` are `k * w` copies of `x`. */
  lemma {:induction false} TimesTimes(k: nat, w: nat, x: real)
    ensures Times(k, Times(w, x)) == Times(k * w, x)
  {
    if k > 0 {
      TimesTimes(k - 1, w, x);
      assert k * w == (k - 1) * w + w;
      TimesPlus((k - 1) * w, w, x);
    }
  }

  /** A sum of `|rs|` terms that each lie between `lo` and `hi` lies between
      `|rs|` copies of `lo` and `|rs|` copies of `hi`. */
  lemma {:induction false} TotalBounds(rs: seq<Result<real>>, lo: real, hi: real)
    requires forall k :: 0 <= k < |rs| ==> rs[k].Ok? && lo <= rs[k].value <= hi
    ensures Times(|rs|, lo) <= Total(rs) <= Times(|rs|, hi)
  {
    if rs != [] {
      var init := rs[..|rs| - 1];
      assert forall k :: 0 <= k < |init| ==> init[k] == rs[k];
      TotalBounds(init, lo, hi);
    }
  }

  /** An average of values between `lo` and `hi` is between them too. */
  lemma MeanBounds(t: real, n: real, lo: real, hi: real)
    requires n > 0.0 && n * lo <= t <= n * hi
    ensures lo <= t / n <= hi
  {
    var q := t / n;
    assert t == q * n;
    assert (q - lo) * n >= 0.0 && (hi - q) * n >= 0.0;
  }

  /** A sum lying between `n` copies of `lo` and `n` copies of `hi`,
      divided by `n`, lies between `lo` and `hi`. */
  lemma AverageBounds(t: real, n: nat, lo: real, hi: real)
    requires n > 0 && Times(n, lo) <= t <= Times(n, hi)
    ensures lo <= t / n as real <= hi
  {
    TimesProduct(n, lo);
    TimesProduct(n, hi);
    MeanBounds(t, n as real, lo, hi);
  }

  // ---------------------------------------------------------------------
  // movie_dist
  // ---------------------------------------------------------------------

  /** One term of movie_dist: the type of the first vector's entry picks
      the comparison. A list is compared with `compare_arrays` (coefficient
      1), which fails on `a1 + a2` when the other entry is a string; any
      other entry is compared with `compare_singles`. With coefficient 1 the
      root argument is never negative, so the only exceptions are that
      TypeError and a division by zero. */
  function FieldDist(f1: Field, f2: Field, sqrt: real -> real): (r: Result<real>)
    ensures r == Err(TypeMismatch) <==> f1.Multi? && f2.Scalar?
    ensures r.Err? ==> r.error in {TypeMismatch, ZeroDivision}
    ensures f1.Scalar? ==> r.Ok? && (r.value == 0.0 <==> f1 == f2) && (r.value == 1.0 <==> f1 != f2)
  {
    match f1
    case Multi(xs) =>
      if f2.Scalar? then Err(TypeMismatch) else CompareArrays(xs, f2.items, 1.0, sqrt)
    case Scalar(_) => Ok(CompareSingles(f1, f2) as real)
  }

  /** The terms of movie_dist, field by field. */
  function FieldDists(m1: seq<Field>, m2: seq<Field>, sqrt: real -> real): (r: seq<Result<real>>)
    requires |m1| == |m2|
    ensures |r| == |m1|
    ensures forall k :: 0 <= k < |m1| ==> r[k] == FieldDist(m1[k], m2[k], sqrt)
  {
    seq(|m1|, k requires 0 <= k < |m1| => FieldDist(m1[k], m2[k], sqrt))
  }

  /** movie_dist: vectors of different lengths raise at once; otherwise the
      field distances are summed in order (the first failing field raises)
      and the sum is divided by the number of fields, which raises for
      empty vectors. */
  function MovieDist(m1: seq<Field>, m2: seq<Field>, sqrt: real -> real): (r: Result<real>)
    ensures r == Err(ShapeMismatch) <==> |m1| != |m2|
    ensures r.Err? ==> r.error in {ShapeMismatch, TypeMismatch, ZeroDivision}
  {
    if |m1| != |m2| then Err(ShapeMismatch)
    else
      var terms := FieldDists(m1, m2, sqrt);
      match SumResults(terms)
      case Err(e) =>
        FieldDistsErrors(m1, m2, sqrt);
        Err(e)
      case Ok(d) => if |m1| == 0 then Err(ZeroDivision) else Ok(d / |m1| as real)
  }

  /** The sum of the field distances raises only what a field distance
      raises: TypeError or ZeroDivisionError. */
  lemma FieldDistsErrors(m1: seq<Field>, m2: seq<Field>, sqrt: real -> real)
    requires |m1| == |m2|
    ensures SumResults(FieldDists(m1, m2, sqrt)).Err? ==>
              SumResults(FieldDists(m1, m2, sqrt)).error in {TypeMismatch, ZeroDivision}
  {
    var terms := FieldDists(m1, m2, sqrt);
    if SumResults(terms).Err? {
      var k: nat :| k < |terms| && terms[k] == Err(SumResults(terms).error);
      assert terms[k] == FieldDist(m1[k], m2[k], sqrt);
    }
  }

  /** For entries of the same kind the field distance does not depend on
      the order of the arguments. */
  lemma FieldDistSymmetric(f1: Field, f2: Field, sqrt: real -> real)
    requires f1.Multi? <==> f2.Multi?
    ensures FieldDist(f1, f2, sqrt) == FieldDist(f2, f1, sqrt)
  {
    if f1.Multi? {
      CompareArraysSymmetric(f1.items, f2.items, 1.0, sqrt);
    }
  }

  /** For vectors of one schema movie_dist is symmetric. */
  lemma MovieDistSymmetric(m1: seq<Field>, m2: seq<Field>, sqrt: real -> real)
    requires SameSchema(m1, m2)
    ensures MovieDist(m1, m2, sqrt) == MovieDist(m2, m1, sqrt)
  {
    forall k | 0 <= k < |m1| ensures FieldDist(m1[k], m2[k], sqrt) == FieldDist(m2[k], m1[k], sqrt) {
      FieldDistSymmetric(m1[k], m2[k], sqrt);
    }
    assert FieldDists(m1, m2, sqrt) == FieldDists(m2, m1, sqrt);
  }

  /** Without a shared schema it is not: the type test looks at the first
      vector only, so a list against a string raises while a string against
      a list counts as a mismatch. */
  lemma MovieDistAsymmetric(sqrt: real -> real)
    ensures MovieDist([Multi(["a"])], [Scalar("a")], sqrt) == Err(TypeMismatch)
    ensures MovieDist([Scalar("a")], [Multi(["a"])], sqrt) == Ok(1.0)
  {
    assert FieldDists([Multi(["a"])], [Scalar("a")], sqrt) == [Err(TypeMismatch)];
    assert FieldDists([Scalar("a")], [Multi(["a"])], sqrt) == [Ok(1.0)];
  }

  /** A feature entry that compare_arrays can handle without a division by
      zero and without a negative distance: a non-empty list without
      repetitions, or any string. */
  predicate Proper(f: Field) {
    f.Multi? ==> f.items != [] && NoDups(f.items)
  }

  /** Every entry of the vector is proper. */
  predicate ProperVector(m: seq<Field>) {
    forall k :: 0 <= k < |m| ==> Proper(m[k])
  }

  /** The field distance of two proper entries of one kind is a number
      between 0 and 1. */
  lemma FieldDistBounds(f1: Field, f2: Field, sqrt: real -> real)
    requires IsSqrt(sqrt) && Proper(f1) && Proper(f2) && (f1.Multi? <==> f2.Multi?)
    ensures FieldDist(f1, f2, sqrt).Ok?
    ensures 0.0 <= FieldDist(f1, f2, sqrt).value <= 1.0
  {
    if f1.Multi? {
      CompareArraysAnchors(f1.items, f2.items, 1.0, sqrt);
    }
  }

  /** For non-empty vectors of one schema with proper entries movie_dist is
      defined and lies between 0 and 1. */
  lemma MovieDistBounds(m1: seq<Field>, m2: seq<Field>, sqrt: real -> real)
    requires IsSqrt(sqrt) && SameSchema(m1, m2) && |m1| > 0
    requires ProperVector(m1) && ProperVector(m2)
    ensures MovieDist(m1, m2, sqrt).Ok?
    ensures 0.0 <= MovieDist(m1, m2, sqrt).value <= 1.0
  {
    var terms := FieldDists(m1, m2, sqrt);
    forall k | 0 <= k < |terms| ensures terms[k].Ok? && 0.0 <= terms[k].value <= 1.0 {
      FieldDistBounds(m1[k], m2[k], sqrt);
    }
    TotalBounds(terms, 0.0, 1.0);
    AverageBounds(Total(terms), |m1|, 0.0, 1.0);
  }

  /** A non-empty vector with proper entries is at distance exactly 0 from
      itself. */
  lemma MovieDistSelf(m: seq<Field>, sqrt: real -> real)
    requires IsSqrt(sqrt) && |m| > 0 && ProperVector(m)
    ensures MovieDist(m, m, sqrt) == Ok(0.0)
  {
    var terms := FieldDists(m, m, sqrt);
    forall k | 0 <= k < |terms| ensures terms[k] == Ok(0.0) {
      if m[k].Multi? {
        CompareArraysSelf(m[k].items, 1.0, sqrt);
      }
    }
    TotalBounds(terms, 0.0, 0.0);
    TimesProduct(|terms|, 0.0);
    assert SumResults(terms) == Ok(0.0);
    assert 0.0 / |m| as real == 0.0;
  }

  /** An entry compared with itself: a string gives 0, an empty list
      divides by zero, and a non-empty list gives at most 0, with 0 exactly
      when it repeats nothing. */
  lemma FieldDistSelf(f: Field, sqrt: real -> real)
    requires IsSqrt(sqrt)
    ensures FieldDist(f, f, sqrt).Err? <==> f.Multi? && f.items == []
    ensures FieldDist(f, f, sqrt).Ok? ==> FieldDist(f, f, sqrt).value <= 0.0
    ensures FieldDist(f, f, sqrt).Ok? ==> (FieldDist(f, f, sqrt).value == 0.0 <==> Proper(f))
  {
    if f.Multi? {
      if f.items == [] {
        CompareArraysEmpty(f.items, f.items, 1.0, sqrt);
      } else {
        CompareArraysSelf(f.items, 1.0, sqrt);
      }
    }
  }

  /** A sum of terms that are all at most 0 is at most 0, and is 0 only
      when every term is 0. */
  lemma {:induction false} TotalNonPositive(rs: seq<Result<real>>)
    requires forall k :: 0 <= k < |rs| ==> rs[k].Ok? && rs[k].value <= 0.0
    ensures Total(rs) <= 0.0
    ensures Total(rs) == 0.0 ==> forall k :: 0 <= k < |rs| ==> rs[k].value == 0.0
  {
    if rs != [] {
      var init := rs[..|rs| - 1];
      assert forall k :: 0 <= k < |init| ==> init[k] == rs[k];
      TotalNonPositive(init);
    }
  }

  /** Only 0 divided by a positive number is 0. */
  lemma QuotientZero(d: real, n: real)
    requires n > 0.0 && d / n == 0.0
    ensures d == 0.0
  {
    assert d == (d / n) * n;
  }

  /** If the field distances of a vector against itself are all defined
      and add up to 0, every entry is proper. */
  lemma SelfTermsZero(m: seq<Field>, sqrt: real -> real)
    requires IsSqrt(sqrt)
    requires SumResults(FieldDists(m, m, sqrt)).Ok?
    requires Total(FieldDists(m, m, sqrt)) == 0.0
    ensures ProperVector(m)
  {
    var terms := FieldDists(m, m, sqrt);
    forall k | 0 <= k < |terms| ensures terms[k].Ok? && terms[k].value <= 0.0 {
      FieldDistSelf(m[k], sqrt);
    }
    TotalNonPositive(terms);
    forall k | 0 <= k < |m| ensures Proper(m[k]) {
      FieldDistSelf(m[k], sqrt);
    }
  }

  /** A vector is at distance exactly 0 from itself if and only if it is
      non-empty and its list entries are non-empty and repeat nothing:
      any other vector raises or is at a negative distance from itself. */
  lemma MovieDistSelfExact(m: seq<Field>, sqrt: real -> real)
    requires IsSqrt(sqrt)
    ensures MovieDist(m, m, sqrt) == Ok(0.0) <==> |m| > 0 && ProperVector(m)
  {
    if |m| > 0 && ProperVector(m) {
      MovieDistSelf(m, sqrt);
    } else if MovieDist(m, m, sqrt) == Ok(0.0) {
      var terms := FieldDists(m, m, sqrt);
      assert SumResults(terms).Ok? && |m| > 0;
      QuotientZero(Total(terms), |m| as real);
      SelfTermsZero(m, sqrt);
      assert false;
    }
  }

  // ---------------------------------------------------------------------
  // clusters_dist
  // ---------------------------------------------------------------------

  /** `m` is the least element of `s`. */
  predicate IsLeast(s: set<nat>, m: nat) {
    m in s && forall y :: y in s ==> m <= y
  }

  /** A non-empty set of positions has a least element. */
  lemma {:induction false} HasLeast(s: set<nat>)
    requires s != {}
    ensures exists m :: IsLeast(s, m)
  {
    var x :| x in s;
    if s == {x} {
      assert IsLeast(s, x);
    } else {
      var rest := s - {x};
      HasLeast(rest);
      var m :| IsLeast(rest, m);
      var least := if x < m then x else m;
      forall y | y in s ensures least <= y {
        if y != x {
          assert y in rest;
        }
      }
      assert IsLeast(s, least);
    }
  }

  /** The least element of a non-empty set of positions. */
  function Least(s: set<nat>): (m: nat)
    requires s != {}
    ensures IsLeast(s, m)
  {
    HasLeast(s);
    var m :| IsLeast(s, m); m
  }

  /** Each element is smaller than the next. */
  predicate Increasing(r: seq<nat>) {
    forall a, b :: 0 <= a < b < |r| ==> r[a] < r[b]
  }

  /** Putting the least element in front of the others, in increasing
      order, lists the whole set in increasing order. */
  lemma LeastInFront(s: set<nat>, m: nat, rest: seq<nat>)
    requires IsLeast(s, m) && Increasing(rest)
    requires forall x :: x in rest <==> x in s - {m}
    ensures Increasing([m] + rest)
    ensures forall x :: x in [m] + rest <==> x in s
  {
    var r := [m] + rest;
    forall a, b | 0 <= a < b < |r| ensures r[a] < r[b] {
      assert r[b] == rest[b - 1];
      if a > 0 {
        assert r[a] == rest[a - 1];
      } else {
        assert rest[b - 1] in rest;
      }
    }
  }

  /** The members of a cluster in the order `for i in c` visits them, taken
      to be ascending (the order of a small-integer set in CPython is not
      promised). */
  function Ascending(s: set<nat>): (r: seq<nat>)
    ensures |r| == |s|
    ensures forall x :: x in r <==> x in s
    ensures Increasing(r)
    decreases |s|
  {
    if s == {} then []
    else
      var m := Least(s);
      var rest := Ascending(s - {m});
      LeastInFront(s, m, rest);
      [m] + rest
  }

  /** `self.movie_dist(movies[i], movies[j])`: a position past the end of
      the list raises before anything is compared. */
  function PairDist(i: nat, j: nat, movies: seq<seq<Field>>, sqrt: real -> real): (r: Result<real>)
    ensures r.Err? ==> r.error != EmptyCluster
    ensures r == Err(IndexOutOfRange) <==> i >= |movies| || j >= |movies|
  {
    if i >= |movies| || j >= |movies| then Err(IndexOutOfRange)
    else MovieDist(movies[i], movies[j], sqrt)
  }

  /** Distances from movie `i` to the movies `right`, in order. */
  function Row(i: nat, right: seq<nat>, movies: seq<seq<Field>>, sqrt: real -> real): (r: seq<Result<real>>)
    ensures |r| == |right|
    ensures forall b :: 0 <= b < |right| ==> r[b] == PairDist(i, right[b], movies, sqrt)
  {
    seq(|right|, b requires 0 <= b < |right| => PairDist(i, right[b], movies, sqrt))
  }

  /** The inner-loop sums of clusters_dist, one per movie of `left`. */
  function Rows(left: seq<nat>, right: seq<nat>, movies: seq<seq<Field>>, sqrt: real -> real): (r: seq<Result<real>>)
    ensures |r| == |left|
    ensures forall a :: 0 <= a < |left| ==> r[a] == SumResults(Row(left[a], right, movies, sqrt))
  {
    seq(|left|, a requires 0 <= a < |left| => SumResults(Row(left[a], right, movies, sqrt)))
  }

  /** clusters_dist (average linkage): an empty cluster raises; otherwise
      the distances of all `|c1| * |c2|` cross pairs are summed row by row
      (the first failing pair raises) and the sum is divided by the number
      of pairs. */
  function ClustersDist(c1: set<nat>, c2: set<nat>, movies: seq<seq<Field>>, sqrt: real -> real): (r: Result<real>)
    ensures r == Err(EmptyCluster) <==> c1 == {} || c2 == {}
    ensures r.Ok? <==> c1 != {} && c2 != {} &&
                       forall i, j :: i in c1 && j in c2 ==> PairDist(i, j, movies, sqrt).Ok?
    ensures r.Err? && c1 != {} && c2 != {} ==>
              exists i, j :: i in c1 && j in c2 && PairDist(i, j, movies, sqrt) == Err(r.error)
  {
    if c1 == {} || c2 == {} then Err(EmptyCluster)
    else
      var left, right := Ascending(c1), Ascending(c2);
      var rows := Rows(left, right, movies, sqrt);
      CrossSumOk(left, right, movies, sqrt);
      match SumResults(rows)
      case Err(e) =>
        CrossSumError(left, right, movies, sqrt);
        Err(e)
      case Ok(d) =>
        var pairs := PairCount(c1, c2);
        Ok(d / pairs as real)
  }

  /** `len(c1) * len(c2)`, positive for non-empty clusters. */
  function PairCount(c1: set<nat>, c2: set<nat>): (r: nat)
    ensures r == 0 <==> c1 == {} || c2 == {}
  {
    assert c1 != {} ==> |c1| > 0;
    assert c2 != {} ==> |c2| > 0;
    |c1| * |c2|
  }

  /** The row sums all succeed exactly when every cross pair does. */
  lemma CrossSumOk(left: seq<nat>, right: seq<nat>, movies: seq<seq<Field>>, sqrt: real -> real)
    ensures SumResults(Rows(left, right, movies, sqrt)).Ok? <==>
              forall i, j :: i in left && j in right ==> PairDist(i, j, movies, sqrt).Ok?
  {
    var rows := Rows(left, right, movies, sqrt);
    if forall i, j :: i in left && j in right ==> PairDist(i, j, movies, sqrt).Ok? {
      forall a | 0 <= a < |left| ensures rows[a].Ok? {
        var row := Row(left[a], right, movies, sqrt);
        forall b | 0 <= b < |right| ensures row[b].Ok? {
          assert left[a] in left && right[b] in right;
        }
      }
    }
    if SumResults(rows).Ok? {
      forall i, j | i in left && j in right ensures PairDist(i, j, movies, sqrt).Ok? {
        var a :| 0 <= a < |left| && left[a] == i;
        var b :| 0 <= b < |right| && right[b] == j;
        assert rows[a].Ok?;
        assert Row(i, right, movies, sqrt)[b].Ok?;
      }
    }
  }

  /** An exception of the row sums is the exception of some cross pair. */
  lemma CrossSumError(left: seq<nat>, right: seq<nat>, movies: seq<seq<Field>>, sqrt: real -> real)
    requires SumResults(Rows(left, right, movies, sqrt)).Err?
    ensures exists i, j :: i in left && j in right &&
              PairDist(i, j, movies, sqrt) == Err(SumResults(Rows(left, right, movies, sqrt)).error)
    ensures SumResults(Rows(left, right, movies, sqrt)).error != EmptyCluster
  {
    var rows := Rows(left, right, movies, sqrt);
    var e := SumResults(rows).error;
    var a: nat :| a < |rows| && rows[a] == Err(e);
    var row := Row(left[a], right, movies, sqrt);
    assert rows[a] == SumResults(row);
    var b: nat :| b < |row| && row[b] == Err(e);
    assert row[b] == PairDist(left[a], right[b], movies, sqrt);
    assert left[a] in left && right[b] in right;
  }

  /** Two clusters of one movie each are as far apart as the two movies. */
  lemma ClustersDistSingleton(i: nat, j: nat, movies: seq<seq<Field>>, sqrt: real -> real)
    ensures ClustersDist({i}, {j}, movies, sqrt) == PairDist(i, j, movies, sqrt)
  {
    var left, right := Ascending({i}), Ascending({j});
    assert left == [i] && right == [j] by {
      assert left[0] in {i} && right[0] in {j};
    }
    var row := Row(i, right, movies, sqrt);
    assert row == [PairDist(i, j, movies, sqrt)];
    assert Total(row) == ValueOf(PairDist(i, j, movies, sqrt)) by {
      assert row[..0] == [];
    }
    var rows := Rows(left, right, movies, sqrt);
    assert rows == [SumResults(row)];
    assert rows[..0] == [];
  }

  /** Average linkage lies between the least and the greatest distance of
      a cross pair: if every cross pair is at a distance between `lo` and
      `hi`, so is the average. */
  lemma ClustersDistBounds(c1: set<nat>, c2: set<nat>, movies: seq<seq<Field>>,
                           sqrt: real -> real, lo: real, hi: real)
    requires c1 != {} && c2 != {}
    requires forall i, j :: i in c1 && j in c2 ==>
               PairDist(i, j, movies, sqrt).Ok? && lo <= PairDist(i, j, movies, sqrt).value <= hi
    ensures ClustersDist(c1, c2, movies, sqrt).Ok?
    ensures lo <= ClustersDist(c1, c2, movies, sqrt).value <= hi
  {
    var rows := Rows(Ascending(c1), Ascending(c2), movies, sqrt);
    CrossTotalBounds(c1, c2, movies, sqrt, lo, hi);
    GridAverage(Total(rows), |c1|, |c2|, lo, hi);
    assert PairCount(c1, c2) == |c1| * |c2|;
    ClustersDistValue(c1, c2, movies, sqrt);
  }

  /** If every cross pair is at a distance between `lo` and `hi`, the row
      sums all succeed and their total lies between `|c1| * |c2|` copies of
      each. */
  lemma CrossTotalBounds(c1: set<nat>, c2: set<nat>, movies: seq<seq<Field>>,
                         sqrt: real -> real, lo: real, hi: real)
    requires forall i, j :: i in c1 && j in c2 ==>
               PairDist(i, j, movies, sqrt).Ok? && lo <= PairDist(i, j, movies, sqrt).value <= hi
    ensures SumResults(Rows(Ascending(c1), Ascending(c2), movies, sqrt)).Ok?
    ensures Times(|c1|, Times(|c2|, lo)) <= Total(Rows(Ascending(c1), Ascending(c2), movies, sqrt))
    ensures Total(Rows(Ascending(c1), Ascending(c2), movies, sqrt)) <= Times(|c1|, Times(|c2|, hi))
  {
    var left, right := Ascending(c1), Ascending(c2);
    CrossPairsBounds(c1, c2, movies, sqrt, lo, hi);
    RowsBounds(left, right, movies, sqrt, lo, hi);
    assert |left| == |c1| && |right| == |c2|;
  }

  /** A total of `k` row sums of `w` terms each, every term between `lo`
      and `hi`, averages to a value between them. */
  lemma GridAverage(t: real, k: nat, w: nat, lo: real, hi: real)
    requires k > 0 && w > 0
    requires Times(k, Times(w, lo)) <= t <= Times(k, Times(w, hi))
    ensures k * w > 0
    ensures lo <= t / (k * w) as real <= hi
  {
    TimesTimes(k, w, lo);
    TimesTimes(k, w, hi);
    assert k * w == (k - 1) * w + w;
    AverageBounds(t, k * w, lo, hi);
  }

  /** Bounds on the cross pairs of two clusters carry over to the pairs of
      their ascending listings. */
  lemma CrossPairsBounds(c1: set<nat>, c2: set<nat>, movies: seq<seq<Field>>,
                         sqrt: real -> real, lo: real, hi: real)
    requires forall i, j :: i in c1 && j in c2 ==>
               PairDist(i, j, movies, sqrt).Ok? && lo <= PairDist(i, j, movies, sqrt).value <= hi
    ensures forall a, b :: 0 <= a < |Ascending(c1)| && 0 <= b < |Ascending(c2)| ==>
              PairDist(Ascending(c1)[a], Ascending(c2)[b], movies, sqrt).Ok? &&
              lo <= PairDist(Ascending(c1)[a], Ascending(c2)[b], movies, sqrt).value <= hi
  {
    var left, right := Ascending(c1), Ascending(c2);
    forall a, b | 0 <= a < |left| && 0 <= b < |right|
      ensures PairDist(left[a], right[b], movies, sqrt).Ok?
      ensures lo <= PairDist(left[a], right[b], movies, sqrt).value <= hi
    {
      assert left[a] in c1 && right[b] in c2;
    }
  }

  /** When every row sum succeeds, average linkage is their total divided
      by the number of cross pairs. */
  lemma ClustersDistValue(c1: set<nat>, c2: set<nat>, movies: seq<seq<Field>>, sqrt: real -> real)
    requires c1 != {} && c2 != {}
    requires SumResults(Rows(Ascending(c1), Ascending(c2), movies, sqrt)).Ok?
    ensures ClustersDist(c1, c2, movies, sqrt) ==
              Ok(Total(Rows(Ascending(c1), Ascending(c2), movies, sqrt)) / PairCount(c1, c2) as real)
  {
  }

  /** Each row sum of the cross pairs lies between `|right|` copies of `lo`
      and `|right|` copies of `hi`, so their total lies between
      `|left| * |right|` copies of each. */
  lemma RowsBounds(left: seq<nat>, right: seq<nat>, movies: seq<seq<Field>>,
                   sqrt: real -> real, lo: real, hi: real)
    requires forall a, b :: 0 <= a < |left| && 0 <= b < |right| ==>
               PairDist(left[a], right[b], movies, sqrt).Ok? &&
               lo <= PairDist(left[a], right[b], movies, sqrt).value <= hi
    ensures forall a :: 0 <= a < |left| ==>
              Rows(left, right, movies, sqrt)[a].Ok? &&
              Times(|right|, lo) <= Rows(left, right, movies, sqrt)[a].value <= Times(|right|, hi)
    ensures Times(|left|, Times(|right|, lo)) <= Total(Rows(left, right, movies, sqrt))
    ensures Total(Rows(left, right, movies, sqrt)) <= Times(|left|, Times(|right|, hi))
  {
    var rows := Rows(left, right, movies, sqrt);
    forall a | 0 <= a < |left|
      ensures rows[a].Ok? && Times(|right|, lo) <= rows[a].value <= Times(|right|, hi)
    {
      var row := Row(left[a], right, movies, sqrt);
      forall b | 0 <= b < |row| ensures row[b].Ok? && lo <= row[b].value <= hi {
        assert row[b] == PairDist(left[a], right[b], movies, sqrt);
      }
      SumBounds(row, lo, hi);
    }
    TotalBounds(rows, Times(|right|, lo), Times(|right|, hi));
  }

  /** A sum of terms between `lo` and `hi` succeeds and lies between
      `|rs|` copies of each. */
  lemma SumBounds(rs: seq<Result<real>>, lo: real, hi: real)
    requires forall k :: 0 <= k < |rs| ==> rs[k].Ok? && lo <= rs[k].value <= hi
    ensures SumResults(rs).Ok?
    ensures Times(|rs|, lo) <= SumResults(rs).value <= Times(|rs|, hi)
  {
    TotalBounds(rs, lo, hi);
  }

  /** For data with one schema the distance of two movies does not depend on
      the order in which they are given. */
  lemma PairDistSymmetric(i: nat, j: nat, movies: seq<seq<Field>>, sqrt: real -> real)
    requires Uniform(movies)
    ensures PairDist(i, j, movies, sqrt) == PairDist(j, i, movies, sqrt)
  {
    if i < |movies| && j < |movies| {
      MovieDistSymmetric(movies[i], movies[j], sqrt);
    }
  }

  /** For data with one schema average linkage is symmetric. */
  lemma ClustersDistSymmetric(c1: set<nat>, c2: set<nat>, movies: seq<seq<Field>>, sqrt: real -> real)
    requires Uniform(movies)
    requires ClustersDist(c1, c2, movies, sqrt).Ok?
    ensures ClustersDist(c2, c1, movies, sqrt) == ClustersDist(c1, c2, movies, sqrt)
  {
    var left, right := Ascending(c1), Ascending(c2);
    forall i, j ensures PairValue(i, j, movies, sqrt) == PairValue(j, i, movies, sqrt) {
      PairDistSymmetric(i, j, movies, sqrt);
    }
    forall i, j | i in c2 && j in c1 ensures PairDist(i, j, movies, sqrt).Ok? {
      PairDistSymmetric(i, j, movies, sqrt);
    }
    IncreasingNoDups(left);
    IncreasingNoDups(right);
    ClustersDistAverage(c1, c2, movies, sqrt, left, right);
    ClustersDistAverage(c2, c1, movies, sqrt, right, left);
    GridByColumns(left, right, movies, sqrt);
    ColumnsTransposed(left, right, movies, sqrt);
    assert |c1| * |c2| == |c2| * |c1|;
  }

  // Value-level double sums over the cross pairs, used to reorder them.

  /** The distance of a pair as a number (0 for an exception). */
  function PairValue(i: nat, j: nat, movies: seq<seq<Field>>, sqrt: real -> real): real {
    ValueOf(PairDist(i, j, movies, sqrt))
  }

  /** Sum over `j` in `right` of the distance from `i` to `j`. */
  function RowSum(i: nat, right: seq<nat>, movies: seq<seq<Field>>, sqrt: real -> real): real {
    if right == [] then 0.0
    else RowSum(i, right[..|right| - 1], movies, sqrt) + PairValue(i, right[|right| - 1], movies, sqrt)
  }

  /** Sum over `i` in `left` of the distance from `i` to `j`. */
  function ColSum(left: seq<nat>, j: nat, movies: seq<seq<Field>>, sqrt: real -> real): real {
    if left == [] then 0.0
    else ColSum(left[..|left| - 1], j, movies, sqrt) + PairValue(left[|left| - 1], j, movies, sqrt)
  }

  /** The cross-pair sum taken row by row. */
  function GridSum(left: seq<nat>, right: seq<nat>, movies: seq<seq<Field>>, sqrt: real -> real): real {
    if left == [] then 0.0
    else GridSum(left[..|left| - 1], right, movies, sqrt) + RowSum(left[|left| - 1], right, movies, sqrt)
  }

  /** The cross-pair sum taken column by column. */
  function ColsSum(left: seq<nat>, right: seq<nat>, movies: seq<seq<Field>>, sqrt: real -> real): real {
    if right == [] then 0.0
    else ColsSum(left, right[..|right| - 1], movies, sqrt) + ColSum(left, right[|right| - 1], movies, sqrt)
  }

  /** The sum of one row of terms is the row sum of the distances. */
  lemma {:induction false} RowTotal(i: nat, right: seq<nat>, movies: seq<seq<Field>>, sqrt: real -> real)
    ensures Total(Row(i, right, movies, sqrt)) == RowSum(i, right, movies, sqrt)
  {
    if right != [] {
      var init := right[..|right| - 1];
      RowTotal(i, init, movies, sqrt);
      assert Row(i, right, movies, sqrt)[..|init|] == Row(i, init, movies, sqrt);
    }
  }

  /** When every row sum succeeds, their sum is the row-by-row double sum. */
  lemma {:induction false} RowsTotal(left: seq<nat>, right: seq<nat>, movies: seq<seq<Field>>, sqrt: real -> real)
    requires SumResults(Rows(left, right, movies, sqrt)).Ok?
    ensures SumResults(Rows(left, right, movies, sqrt)).value == GridSum(left, right, movies, sqrt)
  {
    var rows := Rows(left, right, movies, sqrt);
    if left != [] {
      var init := left[..|left| - 1];
      assert rows[..|init|] == Rows(init, right, movies, sqrt);
      assert forall a :: 0 <= a < |init| ==> rows[a].Ok?;
      RowsTotal(init, right, movies, sqrt);
      RowTotal(left[|left| - 1], right, movies, sqrt);
    }
  }

  /** A column sum over an empty list of rows is 0, so is their sum. */
  lemma {:induction false} ColsSumEmpty(right: seq<nat>, movies: seq<seq<Field>>, sqrt: real -> real)
    ensures ColsSum([], right, movies, sqrt) == 0.0
  {
    if right != [] {
      ColsSumEmpty(right[..|right| - 1], movies, sqrt);
    }
  }

  /** Adding a row `x` adds its row sum to the column-by-column sum. */
  lemma {:induction false} ColsSumExtend(init: seq<nat>, x: nat, right: seq<nat>,
                                         movies: seq<seq<Field>>, sqrt: real -> real)
    ensures ColsSum(init + [x], right, movies, sqrt) ==
              ColsSum(init, right, movies, sqrt) + RowSum(x, right, movies, sqrt)
  {
    if right != [] {
      var r0, y := right[..|right| - 1], right[|right| - 1];
      ColsSumExtend(init, x, r0, movies, sqrt);
      assert (init + [x])[..|init|] == init;
    }
  }

  /** Row by row and column by column give the same double sum. */
  lemma {:induction false} GridByColumns(left: seq<nat>, right: seq<nat>, movies: seq<seq<Field>>, sqrt: real -> real)
    ensures GridSum(left, right, movies, sqrt) == ColsSum(left, right, movies, sqrt)
  {
    if left == [] {
      ColsSumEmpty(right, movies, sqrt);
    } else {
      var init, x := left[..|left| - 1], left[|left| - 1];
      GridByColumns(init, right, movies, sqrt);
      ColsSumExtend(init, x, right, movies, sqrt);
      assert init + [x] == left;
    }
  }

  /** With symmetric distances a column sum is the row sum of the column's
      movie, so summing by columns is summing the transposed grid by rows. */
  lemma {:induction false} ColumnsTransposed(left: seq<nat>, right: seq<nat>, movies: seq<seq<Field>>, sqrt: real -> real)
    requires forall i, j :: PairValue(i, j, movies, sqrt) == PairValue(j, i, movies, sqrt)
    ensures ColsSum(left, right, movies, sqrt) == GridSum(right, left, movies, sqrt)
  {
    if right != [] {
      var init, y := right[..|right| - 1], right[|right| - 1];
      ColumnsTransposed(left, init, movies, sqrt);
      ColumnIsRow(left, y, movies, sqrt);
    }
  }

  lemma {:induction false} ColumnIsRow(left: seq<nat>, j: nat, movies: seq<seq<Field>>, sqrt: real -> real)
    requires forall i, j :: PairValue(i, j, movies, sqrt) == PairValue(j, i, movies, sqrt)
    ensures ColSum(left, j, movies, sqrt) == RowSum(j, left, movies, sqrt)
  {
    if left != [] {
      ColumnIsRow(left[..|left| - 1], j, movies, sqrt);
    }
  }

  // Sums in any order: average linkage does not depend on the order in
  // which the two loops visit the members of the clusters.

  /** `f` summed over the list `l`. */
  function SeqSum(l: seq<nat>, f: nat -> real): real {
    if l == [] then 0.0 else SeqSum(l[..|l| - 1], f) + f(l[|l| - 1])
  }

  /** The distances from movie `i`, as a function of the other movie. */
  function RowTerm(i: nat, movies: seq<seq<Field>>, sqrt: real -> real): nat -> real {
    (j: nat) => PairValue(i, j, movies, sqrt)
  }

  /** The row sums towards the movies `right`, as a function of the movie. */
  function GridTerm(right: seq<nat>, movies: seq<seq<Field>>, sqrt: real -> real): nat -> real {
    (i: nat) => RowSum(i, right, movies, sqrt)
  }

  /** A sum over two lists joined is the sum of the two sums. */
  lemma {:induction false} SeqSumAppend(a: seq<nat>, b: seq<nat>, f: nat -> real)
    ensures SeqSum(a + b, f) == SeqSum(a, f) + SeqSum(b, f)
  {
    if b != [] {
      var init := b[..|b| - 1];
      SeqSumAppend(a, init, f);
      assert (a + b)[..|a + b| - 1] == a + init;
      assert (a + b)[|a + b| - 1] == b[|b| - 1];
    } else {
      assert a + b == a;
    }
  }

  /** Removing position `k` from a repetition-free list leaves a
      repetition-free list of the other elements. */
  lemma RemoveAt(l: seq<nat>, k: nat)
    requires NoDups(l) && k < |l|
    ensures NoDups(l[..k] + l[k + 1..])
    ensures forall y :: y in l[..k] + l[k + 1..] <==> y in l && y != l[k]
  {
    var r := l[..k] + l[k + 1..];
    assert forall i :: 0 <= i < |r| ==> r[i] == l[if i < k then i else i + 1];
    forall y | y in l && y != l[k] ensures y in r {
      var i: nat :| i < |l| && l[i] == y;
      assert r[if i < k then i else i - 1] == y;
    }
  }

  /** The elements of `init` are those of `init + [x]` other than `x`. */
  lemma LastOut(init: seq<nat>, x: nat)
    requires NoDups(init + [x])
    ensures forall y :: y in init <==> y in init + [x] && y != x
  {
    var l := init + [x];
    assert l[|init|] == x;
    assert forall m :: 0 <= m < |init| ==> l[m] == init[m] && l[m] != x;
  }

  /** Taking `x` out of a repetition-free listing of the elements of
      `init + [x]` leaves a repetition-free listing of the elements of
      `init`. */
  lemma TakeOut(init: seq<nat>, x: nat, l2: seq<nat>) returns (k: nat)
    requires NoDups(init + [x]) && NoDups(l2)
    requires forall y :: y in init + [x] <==> y in l2
    ensures k < |l2| && l2[k] == x
    ensures NoDups(l2[..k] + l2[k + 1..])
    ensures forall y :: y in init <==> y in l2[..k] + l2[k + 1..]
  {
    assert x in init + [x];
    k :| k < |l2| && l2[k] == x;
    RemoveAt(l2, k);
    LastOut(init, x);
  }

  /** A sum does not depend on the order of its terms: two repetition-free
      listings of the same elements give the same sum. */
  lemma {:induction false} SeqSumReorder(l1: seq<nat>, l2: seq<nat>, f: nat -> real)
    requires NoDups(l1) && NoDups(l2)
    requires forall y :: y in l1 <==> y in l2
    ensures SeqSum(l1, f) == SeqSum(l2, f)
    decreases |l1|
  {
    assert l2 != [] ==> l2[0] in l2;
    if l1 != [] {
      var init, x := l1[..|l1| - 1], l1[|l1| - 1];
      assert l1 == init + [x];
      var k := TakeOut(init, x, l2);
      var a, b := l2[..k], l2[k + 1..];
      assert l2 == (a + [x]) + b;
      assert NoDups(init) by {
        forall i, j | 0 <= i < j < |init| ensures init[i] != init[j] {
          assert init[i] == l1[i] && init[j] == l1[j];
        }
      }
      SeqSumReorder(init, a + b, f);
      SeqSumAppend(a, b, f);
      SeqSumAppend(a + [x], b, f);
      assert (a + [x])[..|a|] == a;
    }
  }

  /** A row sum is the sum of the row's terms. */
  lemma {:induction false} RowSumAsSeqSum(i: nat, right: seq<nat>, movies: seq<seq<Field>>, sqrt: real -> real)
    ensures RowSum(i, right, movies, sqrt) == SeqSum(right, RowTerm(i, movies, sqrt))
  {
    if right != [] {
      RowSumAsSeqSum(i, right[..|right| - 1], movies, sqrt);
    }
  }

  /** The row-by-row double sum is the sum of the row sums. */
  lemma {:induction false} GridSumAsSeqSum(left: seq<nat>, right: seq<nat>, movies: seq<seq<Field>>, sqrt: real -> real)
    ensures GridSum(left, right, movies, sqrt) == SeqSum(left, GridTerm(right, movies, sqrt))
  {
    if left != [] {
      GridSumAsSeqSum(left[..|left| - 1], right, movies, sqrt);
    }
  }

  /** An increasing list repeats nothing. */
  lemma IncreasingNoDups(r: seq<nat>)
    requires Increasing(r)
    ensures NoDups(r)
  {
  }

  /** Row sums towards two listings of the same cluster are equal, so are
      the double sums. */
  lemma {:induction false} GridSumRight(left: seq<nat>, r1: seq<nat>, r2: seq<nat>,
                                        movies: seq<seq<Field>>, sqrt: real -> real)
    requires NoDups(r1) && NoDups(r2)
    requires forall y :: y in r1 <==> y in r2
    ensures GridSum(left, r1, movies, sqrt) == GridSum(left, r2, movies, sqrt)
  {
    if left != [] {
      var i := left[|left| - 1];
      GridSumRight(left[..|left| - 1], r1, r2, movies, sqrt);
      RowSumAsSeqSum(i, r1, movies, sqrt);
      RowSumAsSeqSum(i, r2, movies, sqrt);
      SeqSumReorder(r1, r2, RowTerm(i, movies, sqrt));
    }
  }

  /** Average linkage is the sum of movie_dist over all cross pairs, in
      whatever order each cluster is listed, divided by `len(c1) * len(c2)`. */
  lemma ClustersDistAverage(c1: set<nat>, c2: set<nat>, movies: seq<seq<Field>>, sqrt: real -> real,
                            l1: seq<nat>, l2: seq<nat>)
    requires c1 != {} && c2 != {}
    requires forall i, j :: i in c1 && j in c2 ==> PairDist(i, j, movies, sqrt).Ok?
    requires NoDups(l1) && NoDups(l2)
    requires forall x :: x in l1 <==> x in c1
    requires forall x :: x in l2 <==> x in c2
    ensures ClustersDist(c1, c2, movies, sqrt) == Ok(GridSum(l1, l2, movies, sqrt) / PairCount(c1, c2) as real)
  {
    var left, right := Ascending(c1), Ascending(c2);
    CrossSumOk(left, right, movies, sqrt);
    ClustersDistValue(c1, c2, movies, sqrt);
    RowsTotal(left, right, movies, sqrt);
    IncreasingNoDups(left);
    IncreasingNoDups(right);
    GridSumAsSeqSum(left, right, movies, sqrt);
    GridSumAsSeqSum(l1, right, movies, sqrt);
    SeqSumReorder(left, l1, GridTerm(right, movies, sqrt));
    GridSumRight(l1, right, l2, movies, sqrt);
  }

  // ---------------------------------------------------------------------
  // join_nearest: what one merge step must produce
  // ---------------------------------------------------------------------

  /** The distance function join_nearest uses on a list of clusters:
      average linkage of clusters `p` and `q`. */
  function Distances(cs: seq<set<nat>>, movies: seq<seq<Field>>, sqrt: real -> real): (link: (nat, nat) -> Result<real>)
    ensures forall p: nat, q: nat :: p < |cs| && q < |cs| ==>
              (link(p, q) == Err(EmptyCluster) <==> cs[p] == {} || cs[q] == {})
    ensures forall p: nat, q: nat :: p >= |cs| || q >= |cs| ==> link(p, q) == Err(IndexOutOfRange)
  {
    (p: nat, q: nat) => if p < |cs| && q < |cs| then ClustersDist(cs[p], cs[q], movies, sqrt) else Err(IndexOutOfRange)
  }

  /** Every pair `p < q < n` has a distance. */
  predicate PairsOk(link: (nat, nat) -> Result<real>, n: nat) {
    forall p: nat, q: nat :: p < q < n ==> link(p, q).Ok?
  }

  /** Pair `(p, q)` comes before pair `(i, j)` in the order the double loop
      of join_nearest visits pairs. */
  predicate LexBefore(p: nat, q: nat, i: nat, j: nat) {
    p < i || (p == i && q < j)
  }

  /** `(i, j)` is the pair join_nearest picks among `n` clusters: no pair is
      closer, and every pair visited before it is strictly farther (the
      test is `d < min_dist`, so the first of several equally close pairs
      wins). */
  predicate IsNearest(link: (nat, nat) -> Result<real>, n: nat, i: nat, j: nat) {
    i < j < n && PairsOk(link, n) &&
    forall p: nat, q: nat :: p < q < n ==>
      link(i, j).value <= link(p, q).value &&
      (LexBefore(p, q, i, j) ==> link(i, j).value < link(p, q).value)
  }

  /** `(i, j)` is the first pair, in visiting order, whose distance raises,
      and `e` is what it raises. */
  predicate FirstFailing(link: (nat, nat) -> Result<real>, n: nat, i: nat, j: nat, e: Error) {
    i < j < n && link(i, j) == Err(e) &&
    forall p: nat, q: nat :: p < q < n && LexBefore(p, q, i, j) ==> link(p, q).Ok?
  }

  /** Pair `(p, q)`, already visited by the double loop, has a distance no
      smaller than `best`, the distance of the pair `(mi, mj)` kept so far,
      and a larger one if it came before that pair. */
  predicate Beaten(link: (nat, nat) -> Result<real>, p: nat, q: nat, mi: nat, mj: nat, best: real) {
    link(p, q).Ok? && best <= link(p, q).value &&
    (LexBefore(p, q, mi, mj) ==> best < link(p, q).value)
  }

  /** One call of join_nearest on `cs` ends as `next`: fewer than two
      clusters are left alone; otherwise the nearest pair is merged, or the
      first failing distance raises. */
  ghost predicate JoinStep(cs: seq<set<nat>>, next: Result<seq<set<nat>>>, movies: seq<seq<Field>>, sqrt: real -> real) {
    if |cs| < 2 then next == Ok(cs)
    else match next
      case Ok(merged) => exists i: nat, j: nat :: IsNearest(Distances(cs, movies, sqrt), |cs|, i, j) && merged == Merge(cs, i, j)
      case Err(e) => exists i: nat, j: nat :: FirstFailing(Distances(cs, movies, sqrt), |cs|, i, j, e)
  }

  /** The nearest pair is unique. */
  lemma NearestUnique(link: (nat, nat) -> Result<real>, n: nat, i: nat, j: nat, p: nat, q: nat)
    requires IsNearest(link, n, i, j) && IsNearest(link, n, p, q)
    ensures i == p && j == q
  {
    assert link(i, j).value <= link(p, q).value;
    assert link(p, q).value <= link(i, j).value;
  }

  /** The first failing pair, and so the exception raised, is unique. */
  lemma FirstFailingUnique(link: (nat, nat) -> Result<real>, n: nat, i: nat, j: nat, e: Error,
                           p: nat, q: nat, e': Error)
    requires FirstFailing(link, n, i, j, e) && FirstFailing(link, n, p, q, e')
    ensures i == p && j == q && e == e'
  {
    assert link(i, j).Err? && link(p, q).Err?;
  }

  /** A merge step succeeds exactly when there is nothing to merge or every
      pair of clusters has a distance. */
  lemma JoinStepOk(cs: seq<set<nat>>, next: Result<seq<set<nat>>>, movies: seq<seq<Field>>, sqrt: real -> real)
    ensures JoinStep(cs, next, movies, sqrt) ==>
              (next.Ok? <==> |cs| < 2 || PairsOk(Distances(cs, movies, sqrt), |cs|))
  {
    var link := Distances(cs, movies, sqrt);
    if JoinStep(cs, next, movies, sqrt) && |cs| >= 2 && next.Err? {
      var i: nat, j: nat :| FirstFailing(link, |cs|, i, j, next.error);
      assert link(i, j).Err?;
    }
  }

  /** join_nearest is deterministic: a list of clusters has one outcome. */
  lemma JoinStepUnique(cs: seq<set<nat>>, r1: Result<seq<set<nat>>>, r2: Result<seq<set<nat>>>,
                       movies: seq<seq<Field>>, sqrt: real -> real)
    requires JoinStep(cs, r1, movies, sqrt) && JoinStep(cs, r2, movies, sqrt)
    ensures r1 == r2
  {
    var link := Distances(cs, movies, sqrt);
    JoinStepOk(cs, r1, movies, sqrt);
    JoinStepOk(cs, r2, movies, sqrt);
    if |cs| >= 2 {
      if r1.Ok? && r2.Ok? {
        var i: nat, j: nat :| IsNearest(link, |cs|, i, j) && r1.value == Merge(cs, i, j);
        var p: nat, q: nat :| IsNearest(link, |cs|, p, q) && r2.value == Merge(cs, p, q);
        NearestUnique(link, |cs|, i, j, p, q);
      } else if r1.Err? && r2.Err? {
        var i: nat, j: nat :| FirstFailing(link, |cs|, i, j, r1.error);
        var p: nat, q: nat :| FirstFailing(link, |cs|, p, q, r2.error);
        FirstFailingUnique(link, |cs|, i, j, r1.error, p, q, r2.error);
      }
    }
  }

  /** A merge step keeps a partition a partition and, when it merges,
      removes one cluster. */
  lemma JoinStepPartition(cs: seq<set<nat>>, merged: seq<set<nat>>, n: nat,
                          movies: seq<seq<Field>>, sqrt: real -> real)
    requires IsPartition(cs, n) && JoinStep(cs, Ok(merged), movies, sqrt)
    ensures IsPartition(merged, n)
    ensures |merged| == if |cs| < 2 then |cs| else |cs| - 1
  {
    if |cs| >= 2 {
      var i: nat, j: nat :| IsNearest(Distances(cs, movies, sqrt), |cs|, i, j) && merged == Merge(cs, i, j);
      MergePartition(cs, n, i, j);
    }
  }

  /** Average linkage of two clusters of positions within the list
      raises only what movie_dist raises. */
  lemma ClustersDistErrors(c1: set<nat>, c2: set<nat>, movies: seq<seq<Field>>, sqrt: real -> real)
    requires c1 != {} && c2 != {}
    requires forall x :: x in c1 || x in c2 ==> x < |movies|
    requires ClustersDist(c1, c2, movies, sqrt).Err?
    ensures ClustersDist(c1, c2, movies, sqrt).error in {ShapeMismatch, TypeMismatch, ZeroDivision}
  {
    var e := ClustersDist(c1, c2, movies, sqrt).error;
    var a: nat, b: nat :| a in c1 && b in c2 && PairDist(a, b, movies, sqrt) == Err(e);
    PairDistErrors(a, b, movies, sqrt);
  }

  /** Two movies in range are compared by movie_dist, whose only
      exceptions are those of the field distances and the length check. */
  lemma PairDistErrors(i: nat, j: nat, movies: seq<seq<Field>>, sqrt: real -> real)
    requires i < |movies| && j < |movies|
    ensures PairDist(i, j, movies, sqrt).Err? ==>
              PairDist(i, j, movies, sqrt).error in {ShapeMismatch, TypeMismatch, ZeroDivision}
  {
  }

  /** On a partition of the movie positions a failing merge step raises
      only what movie_dist raises: positions are in range and no cluster is
      empty. */
  lemma JoinStepErrors(cs: seq<set<nat>>, e: Error, movies: seq<seq<Field>>, sqrt: real -> real)
    requires IsPartition(cs, |movies|) && JoinStep(cs, Err(e), movies, sqrt)
    ensures e in {ShapeMismatch, TypeMismatch, ZeroDivision}
  {
    var i: nat, j: nat :| FirstFailing(Distances(cs, movies, sqrt), |cs|, i, j, e);
    forall x | x in cs[i] || x in cs[j] ensures x < |movies| {
      if x in cs[i] {
        PartitionMembers(cs, |movies|, i, x);
      } else {
        PartitionMembers(cs, |movies|, j, x);
      }
    }
    ClustersDistErrors(cs[i], cs[j], movies, sqrt);
  }

  // ---------------------------------------------------------------------
  // fit: what a run of merge steps must produce
  // ---------------------------------------------------------------------

  /** A sequence of cluster lists, each obtained from the one before by a
      successful merge step. */
  ghost predicate IsRun(run: seq<seq<set<nat>>>, movies: seq<seq<Field>>, sqrt: real -> real) {
    forall t :: 0 <= t < |run| - 1 ==> JoinStep(run[t], Ok(run[t + 1]), movies, sqrt)
  }

  /** `cs` is what `steps` successful calls of join_nearest make of the
      singletons of the movie positions. */
  ghost predicate Agglomerates(steps: nat, cs: seq<set<nat>>, movies: seq<seq<Field>>, sqrt: real -> real) {
    exists run :: IsRun(run, movies, sqrt) && |run| == steps + 1 &&
                  run[0] == Singletons(|movies|) && run[steps] == cs
  }

  /** The `t`-th call of join_nearest, made after `t` successful ones,
      raises `e`, for some `t` below `steps`. */
  ghost predicate JoinFailsAt(steps: nat, e: Error, movies: seq<seq<Field>>, sqrt: real -> real) {
    exists t: nat, cs :: t < steps && Agglomerates(t, cs, movies, sqrt) && JoinStep(cs, Err(e), movies, sqrt)
  }

  /** `xrange(n_movies - n_clusters)`: the number of calls of join_nearest. */
  function Steps(n: nat, k: int): (r: nat)
    ensures r == 0 <==> k >= n
    ensures k <= n ==> n - r == k
  {
    if n - k > 0 then n - k else 0
  }

  /** How many clusters `t` merge steps leave of `n` singletons: one fewer
      per step, down to one. */
  function ClusterCount(n: nat, t: nat): (r: nat)
    ensures r >= 1
    ensures n - t >= 1 ==> r == n - t
  {
    if n - t > 1 then n - t else 1
  }

  /** After `t` steps of a run from the singletons of `n >= 1` movies the
      clusters are a partition of the positions into `ClusterCount(n, t)`
      parts. */
  lemma {:induction false} RunShape(run: seq<seq<set<nat>>>, t: nat, movies: seq<seq<Field>>, sqrt: real -> real)
    requires |movies| > 0 && IsRun(run, movies, sqrt) && t < |run| && run[0] == Singletons(|movies|)
    ensures IsPartition(run[t], |movies|) && |run[t]| == ClusterCount(|movies|, t)
  {
    if t == 0 {
      SingletonsPartition(|movies|);
    } else {
      RunShape(run, t - 1, movies, sqrt);
      JoinStepPartition(run[t - 1], run[t], |movies|, movies, sqrt);
    }
  }

  /** The clusters after `s` steps partition the `n >= 1` positions into
      `max(n - s, 1)` parts. */
  lemma AgglomeratesShape(s: nat, cs: seq<set<nat>>, movies: seq<seq<Field>>, sqrt: real -> real)
    requires |movies| > 0 && Agglomerates(s, cs, movies, sqrt)
    ensures IsPartition(cs, |movies|) && |cs| == ClusterCount(|movies|, s)
  {
    var run :| IsRun(run, movies, sqrt) && |run| == s + 1 && run[0] == Singletons(|movies|) && run[s] == cs;
    RunShape(run, s, movies, sqrt);
  }

  /** Two runs from the same start agree step by step. */
  lemma {:induction false} RunsAgree(run1: seq<seq<set<nat>>>, run2: seq<seq<set<nat>>>, t: nat,
                                     movies: seq<seq<Field>>, sqrt: real -> real)
    requires IsRun(run1, movies, sqrt) && IsRun(run2, movies, sqrt)
    requires t < |run1| && t < |run2| && run1[0] == run2[0]
    ensures run1[t] == run2[t]
  {
    if t > 0 {
      RunsAgree(run1, run2, t - 1, movies, sqrt);
      JoinStepUnique(run1[t - 1], Ok(run1[t]), Ok(run2[t]), movies, sqrt);
    }
  }

  /** The clusters after `s` steps are determined by the movies. */
  lemma AgglomeratesUnique(s: nat, cs1: seq<set<nat>>, cs2: seq<set<nat>>, movies: seq<seq<Field>>, sqrt: real -> real)
    requires Agglomerates(s, cs1, movies, sqrt) && Agglomerates(s, cs2, movies, sqrt)
    ensures cs1 == cs2
  {
    var run1 :| IsRun(run1, movies, sqrt) && |run1| == s + 1 && run1[0] == Singletons(|movies|) && run1[s] == cs1;
    var run2 :| IsRun(run2, movies, sqrt) && |run2| == s + 1 && run2[0] == Singletons(|movies|) && run2[s] == cs2;
    RunsAgree(run1, run2, s, movies, sqrt);
  }

  /** No step means no merge: the clusters are the singletons. */
  lemma AgglomeratesNone(cs: seq<set<nat>>, movies: seq<seq<Field>>, sqrt: real -> real)
    requires Agglomerates(0, cs, movies, sqrt)
    ensures cs == Singletons(|movies|)
  {
  }

  /** Movie vectors that movie_dist can always compare: one schema, no empty
      vector, no empty or repeating list entry. */
  predicate WellFormed(movies: seq<seq<Field>>) {
    Uniform(movies) && forall a :: 0 <= a < |movies| ==> |movies[a]| > 0 && ProperVector(movies[a])
  }

  /** On well-formed movies average linkage of two non-empty clusters of
      positions within the list is defined and between 0 and 1. */
  lemma WellFormedClusters(c1: set<nat>, c2: set<nat>, movies: seq<seq<Field>>, sqrt: real -> real)
    requires IsSqrt(sqrt) && WellFormed(movies) && c1 != {} && c2 != {}
    requires forall x :: x in c1 || x in c2 ==> x < |movies|
    ensures ClustersDist(c1, c2, movies, sqrt).Ok?
    ensures 0.0 <= ClustersDist(c1, c2, movies, sqrt).value <= 1.0
  {
    forall i, j | i in c1 && j in c2
      ensures PairDist(i, j, movies, sqrt).Ok? && 0.0 <= PairDist(i, j, movies, sqrt).value <= 1.0
    {
      MovieDistBounds(movies[i], movies[j], sqrt);
    }
    ClustersDistBounds(c1, c2, movies, sqrt, 0.0, 1.0);
  }

  /** On well-formed movies two clusters of a partition have a distance
      between 0 and 1. */
  lemma WellFormedLink(cs: seq<set<nat>>, p: nat, q: nat, movies: seq<seq<Field>>, sqrt: real -> real)
    requires IsSqrt(sqrt) && WellFormed(movies) && IsPartition(cs, |movies|) && p < |cs| && q < |cs|
    ensures ClustersDist(cs[p], cs[q], movies, sqrt).Ok?
    ensures 0.0 <= ClustersDist(cs[p], cs[q], movies, sqrt).value <= 1.0
  {
    forall x | x in cs[p] || x in cs[q] ensures x < |movies| {
      if x in cs[p] {
        PartitionMembers(cs, |movies|, p, x);
      } else {
        PartitionMembers(cs, |movies|, q, x);
      }
    }
    WellFormedClusters(cs[p], cs[q], movies, sqrt);
  }

  /** On well-formed movies every two clusters of a partition have a
      distance, so a merge step cannot raise. */
  lemma WellFormedLinks(cs: seq<set<nat>>, movies: seq<seq<Field>>, sqrt: real -> real)
    requires IsSqrt(sqrt) && WellFormed(movies) && IsPartition(cs, |movies|)
    ensures PairsOk(Distances(cs, movies, sqrt), |cs|)
  {
    forall p: nat, q: nat | p < q < |cs| ensures Distances(cs, movies, sqrt)(p, q).Ok? {
      WellFormedLink(cs, p, q, movies, sqrt);
    }
  }

  /** On well-formed movies no merge step of fit raises. */
  lemma WellFormedNeverFails(steps: nat, e: Error, movies: seq<seq<Field>>, sqrt: real -> real)
    requires IsSqrt(sqrt) && WellFormed(movies) && |movies| > 0
    ensures !JoinFailsAt(steps, e, movies, sqrt)
  {
    forall t: nat, cs | t < steps && Agglomerates(t, cs, movies, sqrt)
      ensures !JoinStep(cs, Err(e), movies, sqrt)
    {
      AgglomeratesShape(t, cs, movies, sqrt);
      WellFormedLinks(cs, movies, sqrt);
      JoinStepOk(cs, Err(e), movies, sqrt);
    }
  }

  // ---------------------------------------------------------------------
  // labels_
  // ---------------------------------------------------------------------

  /** `max(k, 0)`: how many clusters the labelling loop of fit visits. */
  function LabelCount(k: int): (r: nat)
    ensures k >= 0 ==> r == k
    ensures k <= 0 ==> r == 0
  {
    if k > 0 then k else 0
  }

  /** The labels after the labelling loop of fit has handled clusters
      `0..k-1`: every movie starts at 0 and each member of cluster `a` is
      then labelled `a`. */
  function Labels(cs: seq<set<nat>>, n: nat, k: nat): (r: seq<int>)
    requires k <= |cs|
    ensures |r| == n
    ensures forall m :: 0 <= m < n ==> 0 <= r[m] && (k > 0 ==> r[m] < k)
    ensures k == 0 ==> forall m :: 0 <= m < n ==> r[m] == 0
  {
    if k == 0 then seq(n, _ => 0)
    else
      var prev := Labels(cs, n, k - 1);
      seq(n, m requires 0 <= m < n => if m as nat in cs[k - 1] then k - 1 else prev[m])
  }

  /** A movie of cluster `a < k` of a disjoint list gets label `a`. */
  lemma {:induction false} LabelsOwner(cs: seq<set<nat>>, n: nat, k: nat, a: nat, m: nat)
    requires Disjoint(cs) && a < k <= |cs| && m < n && m in cs[a]
    ensures Labels(cs, n, k)[m] == a
  {
    if a < k - 1 {
      LabelsOwner(cs, n, k - 1, a, m);
    }
  }

  /** A movie in none of the clusters `0..k-1` keeps label 0. */
  lemma {:induction false} LabelsUnowned(cs: seq<set<nat>>, n: nat, k: nat, m: nat)
    requires k <= |cs| && m < n
    requires forall a :: 0 <= a < k ==> m !in cs[a]
    ensures Labels(cs, n, k)[m] == 0
  {
    if k > 0 {
      LabelsUnowned(cs, n, k - 1, m);
    }
  }

  /** Labelling all clusters of a partition gives every movie the index of
      the one cluster holding it. */
  lemma LabelsPartition(cs: seq<set<nat>>, n: nat)
    requires IsPartition(cs, n)
    ensures forall m :: 0 <= m < n ==> Labels(cs, n, |cs|)[m] < |cs| && m in cs[Labels(cs, n, |cs|)[m]]
  {
    forall m | 0 <= m < n ensures Labels(cs, n, |cs|)[m] < |cs| && m in cs[Labels(cs, n, |cs|)[m]] {
      PartitionOwner(cs, n, m);
      var a :| 0 <= a < |cs| && m in cs[a];
      LabelsOwner(cs, n, |cs|, a, m);
    }
  }

  /** With all clusters of a partition labelled, two movies share a label
      exactly when they share a cluster. */
  lemma LabelsSameCluster(cs: seq<set<nat>>, n: nat, m1: nat, m2: nat)
    requires IsPartition(cs, n) && m1 < n && m2 < n
    ensures Labels(cs, n, |cs|)[m1] == Labels(cs, n, |cs|)[m2] <==>
              exists a :: 0 <= a < |cs| && m1 in cs[a] && m2 in cs[a]
  {
    LabelsPartition(cs, n);
    forall a | 0 <= a < |cs| && m1 in cs[a] && m2 in cs[a]
      ensures Labels(cs, n, |cs|)[m1] == Labels(cs, n, |cs|)[m2]
    {
      LabelsOwner(cs, n, |cs|, a, m1);
      LabelsOwner(cs, n, |cs|, a, m2);
    }
  }

  /** Labelling the singletons numbers every movie by its position. */
  lemma LabelsSingletons(n: nat)
    ensures Labels(Singletons(n), n, n) == seq(n, m requires 0 <= m < n => m)
  {
    SingletonsPartition(n);
    forall m | 0 <= m < n ensures Labels(Singletons(n), n, n)[m] == m {
      LabelsOwner(Singletons(n), n, n, m, m);
    }
  }

  /** For `1 <= k <= n` the merges of fit leave exactly `k` clusters that
      partition the movie positions, and labelling them gives every movie
      the index of its cluster, a label in `0..k-1`. */
  lemma FittedClusters(movies: seq<seq<Field>>, sqrt: real -> real, k: int, cs: seq<set<nat>>)
    requires 1 <= k <= |movies| && Agglomerates(Steps(|movies|, k), cs, movies, sqrt)
    ensures IsPartition(cs, |movies|) && |cs| == k
    ensures forall m :: 0 <= m < |movies| ==>
              0 <= Labels(cs, |movies|, k)[m] < k && m in cs[Labels(cs, |movies|, k)[m]]
  {
    AgglomeratesShape(Steps(|movies|, k), cs, movies, sqrt);
    LabelsPartition(cs, |movies|);
  }

  /** With as many clusters as movies nothing is merged and every movie is
      labelled with its own position. */
  lemma FittedIdentity(movies: seq<seq<Field>>, sqrt: real -> real, cs: seq<set<nat>>)
    requires Agglomerates(Steps(|movies|, |movies|), cs, movies, sqrt)
    ensures Labels(cs, |movies|, |movies|) == seq(|movies|, m requires 0 <= m < |movies| => m)
  {
    AgglomeratesNone(cs, movies, sqrt);
    LabelsSingletons(|movies|);
  }

  /** With one cluster every movie is labelled 0. */
  lemma FittedOneCluster(movies: seq<seq<Field>>, sqrt: real -> real, cs: seq<set<nat>>)
    requires |movies| > 0 && Agglomerates(Steps(|movies|, 1), cs, movies, sqrt)
    ensures |cs| == 1
    ensures Labels(cs, |movies|, 1) == seq(|movies|, _ => 0)
  {
    AgglomeratesShape(Steps(|movies|, 1), cs, movies, sqrt);
    LabelsFirst(cs, |movies|);
  }

  /** Labelling only the first cluster leaves every label at 0. */
  lemma LabelsFirst(cs: seq<set<nat>>, n: nat)
    requires 1 <= |cs|
    ensures Labels(cs, n, 1) == seq(n, _ => 0)
  {
    var labs := Labels(cs, n, 1);
    assert forall m :: 0 <= m < n ==> labs[m] == 0;
  }

  // ---------------------------------------------------------------------
  // The estimator
  // ---------------------------------------------------------------------

  /** The clustering estimator: the requested number of clusters, the sizes
      recorded by fit, and the label of each movie after fit. */
  class HierarchyClustering {
    var nClusters: int
    var nFeatures: nat
    var nSamples: nat
    var nMovies: nat
    var labels: seq<int>

    /** `__init__`: nothing fitted yet. */
    constructor(nClusters: int := 2)
      ensures this.nClusters == nClusters
      ensures nFeatures == 0 && nSamples == 0 && nMovies == 0 && labels == []
    {
      this.nClusters := nClusters;
      nFeatures := 0;
      nSamples := 0;
      nMovies := 0;
      labels := [];
    }

    /** The double loop of join_nearest over `n >= 2` clusters: start from
        pair `(0, 1)`, visit every pair `i < j` in order and keep the first
        pair of least distance; the first distance that raises ends the
        search. */
    method NearestPair(link: (nat, nat) -> Result<real>, n: nat) returns (r: Result<(nat, nat)>)
      requires n >= 2
      ensures r.Ok? ==> IsNearest(link, n, r.value.0, r.value.1)
      ensures r.Err? ==> exists i: nat, j: nat :: FirstFailing(link, n, i, j, r.error)
    {
      var first := link(0, 1);
      if first.Err? {
        assert FirstFailing(link, n, 0, 1, first.error);
        return Err(first.error);
      }
      var minDist := first.value;
      var mi: nat, mj: nat := 0, 1;
      for i := 0 to n - 1
        invariant mi < mj < n && link(mi, mj) == Ok(minDist)
        invariant mi < i || (mi == i && mj == i + 1)
        invariant forall p: nat, q: nat :: p < i && p < q < n ==> Beaten(link, p, q, mi, mj, minDist)
      {
        for j := i + 1 to n
          invariant mi < mj < n && link(mi, mj) == Ok(minDist)
          invariant LexBefore(mi, mj, i, j) || (mi == i && mj == j)
          invariant forall p: nat, q: nat :: p < i && p < q < n ==> Beaten(link, p, q, mi, mj, minDist)
          invariant forall q: nat :: i < q < j ==> Beaten(link, i, q, mi, mj, minDist)
        {
          var d := link(i, j);
          if d.Err? {
            forall p: nat, q: nat | p < q < n && LexBefore(p, q, i, j) ensures link(p, q).Ok? {
              assert Beaten(link, p, q, mi, mj, minDist);
            }
            assert FirstFailing(link, n, i, j, d.error);
            return Err(d.error);
          }
          if d.value < minDist {
            forall p: nat, q: nat | p < q < n && LexBefore(p, q, i, j) && Beaten(link, p, q, mi, mj, minDist)
              ensures Beaten(link, p, q, i, j, d.value)
            {
            }
            minDist := d.value;
            mi, mj := i, j;
          }
        }
      }
      forall p: nat, q: nat | p < q < n
        ensures link(p, q).Ok? && minDist <= link(p, q).value
        ensures LexBefore(p, q, mi, mj) ==> minDist < link(p, q).value
      {
        assert p < n - 1;
        assert Beaten(link, p, q, mi, mj, minDist);
      }
      return Ok((mi, mj));
    }

    /** join_nearest: with two or more clusters, find the nearest pair and
        merge it; the list is returned rather than changed in place. */
    method JoinNearest(movies: seq<seq<Field>>, clusters: seq<set<nat>>, sqrt: real -> real)
      returns (r: Result<seq<set<nat>>>)
      ensures JoinStep(clusters, r, movies, sqrt)
    {
      if |clusters| < 2 {
        return Ok(clusters);
      }
      var pair := NearestPair(Distances(clusters, movies, sqrt), |clusters|);
      match pair
      case Err(e) =>
        r := Err(e);
      case Ok((i, j)) =>
        r := Ok(Merge(clusters, i, j));
    }

    /** The merging loop of fit: start from the singletons of the movie
        positions and call join_nearest `steps` times; the first exception
        ends the loop. */
    method Agglomerate(movies: seq<seq<Field>>, sqrt: real -> real, steps: nat)
      returns (r: Result<seq<set<nat>>>)
      requires |movies| > 0
      ensures r.Ok? ==> Agglomerates(steps, r.value, movies, sqrt)
      ensures r.Ok? ==> IsPartition(r.value, |movies|) && |r.value| == ClusterCount(|movies|, steps)
      ensures steps == 0 ==> r == Ok(Singletons(|movies|))
      ensures r.Err? ==> JoinFailsAt(steps, r.error, movies, sqrt)
      ensures r.Err? ==> r.error in {ShapeMismatch, TypeMismatch, ZeroDivision}
    {
      var n := |movies|;
      var clusters := Singletons(n);
      ghost var run := [clusters];
      SingletonsPartition(n);
      for t := 0 to steps
        invariant |run| == t + 1 && IsRun(run, movies, sqrt)
        invariant run[0] == Singletons(n) && run[t] == clusters
        invariant IsPartition(clusters, n) && |clusters| == ClusterCount(n, t)
      {
        var next := JoinNearest(movies, clusters, sqrt);
        if next.Err? {
          assert Agglomerates(t, clusters, movies, sqrt);
          JoinStepErrors(clusters, next.error, movies, sqrt);
          return Err(next.error);
        }
        JoinStepPartition(clusters, next.value, n, movies, sqrt);
        assert JoinStep(run[t], Ok(next.value), movies, sqrt);
        run := run + [next.value];
        clusters := next.value;
      }
      assert Agglomerates(steps, clusters, movies, sqrt);
      return Ok(clusters);
    }

    /** The labelling loop of fit: every movie starts at label 0, then each
        member of cluster `i` gets label `i` for `i` in `0..k-1`; asking for
        a cluster past the end of the list raises an IndexError, with the
        clusters before it already labelled. */
    method AssignLabels(clusters: seq<set<nat>>, n: nat, k: int) returns (labs: seq<int>, r: Outcome)
      requires IsPartition(clusters, n)
      ensures r == Pass <==> k <= |clusters|
      ensures r == Pass ==> labs == Labels(clusters, n, LabelCount(k))
      ensures r.Fail? ==> r == Fail(IndexOutOfRange) && labs == Labels(clusters, n, |clusters|)
    {
      labs := seq(n, _ => 0);
      var i: nat := 0;
      while i < k
        invariant i <= |clusters| && i <= LabelCount(k)
        invariant labs == Labels(clusters, n, i)
      {
        if i >= |clusters| {
          return labs, Fail(IndexOutOfRange);
        }
        var members := clusters[i];
        while members != {}
          invariant members <= clusters[i] && |labs| == n
          invariant forall m :: 0 <= m < n ==>
                      labs[m] == if m in clusters[i] - members then i else Labels(clusters, n, i)[m]
        {
          var m :| m in members;
          PartitionMembers(clusters, n, i, m);
          labs := labs[m := i];
          members := members - {m};
        }
        i := i + 1;
      }
      return labs, Pass;
    }

    /** fit: an empty input raises; otherwise the sizes are recorded, the
        singletons are merged `n_movies - n_clusters` times (an exception of
        a merge ends fit before the labels are touched), and then the
        labels are rebuilt, which raises an IndexError when more clusters
        are asked for than there are movies. */
    method Fit(movies: seq<seq<Field>>, sqrt: real -> real) returns (r: Outcome)
      modifies this
      ensures nClusters == old(nClusters) && nSamples == old(nSamples)
      ensures r == Fail(EmptyInput) <==> movies == []
      ensures movies == [] ==> nFeatures == old(nFeatures) && nMovies == old(nMovies) && labels == old(labels)
      ensures movies != [] ==> nFeatures == |movies[0]| && nMovies == |movies|
      ensures r == Pass ==>
                nClusters <= |movies| &&
                exists cs :: Agglomerates(Steps(|movies|, nClusters), cs, movies, sqrt) &&
                             LabelCount(nClusters) <= |cs| &&
                             labels == Labels(cs, |movies|, LabelCount(nClusters))
      ensures r == Fail(IndexOutOfRange) <==> movies != [] && nClusters > |movies|
      ensures r == Fail(IndexOutOfRange) ==> labels == Labels(Singletons(|movies|), |movies|, |movies|)
      ensures r.Fail? && r.error != EmptyInput && r.error != IndexOutOfRange ==>
                labels == old(labels) && JoinFailsAt(Steps(|movies|, nClusters), r.error, movies, sqrt)
    {
      if movies == [] {
        return Fail(EmptyInput);
      }
      nFeatures := |movies[0]|;
      nMovies := |movies|;
      var steps := Steps(|movies|, nClusters);
      var merged := Agglomerate(movies, sqrt, steps);
      if merged.Err? {
        return Fail(merged.error);
      }
      var clusters := merged.value;
      var labs, outcome := AssignLabels(clusters, |movies|, nClusters);
      labels := labs;
      return outcome;
    }
  }
}
