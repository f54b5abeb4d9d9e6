/** The distance layer of datacomparison.py: exact-match distance, the
    hyperbolic set-overlap distance, and the two frequency utilities. */
module DataComparison {
  import opened Errors

  // ---------------------------------------------------------------------
  // Sequences seen as sets and bags
  // ---------------------------------------------------------------------

  function Min(x: int, y: int): int { if x <= y then x else y }

  /** `set(a)`: the distinct elements of a list. */
  function Distinct<T(==)>(a: seq<T>): set<T> {
    set x | x in a
  }

  /** No element occurs twice. */
  predicate NoDups<T(==)>(a: seq<T>) {
    forall i, j :: 0 <= i < j < |a| ==> a[i] != a[j]
  }

  /** Number of occurrences of `x`, as `Counter(a)[x]`. */
  function Count<T(==)>(a: seq<T>, x: T): nat {
    multiset(a)[x]
  }

  /** A list has at most as many distinct elements as entries, and exactly
      as many when it has no duplicates. */
  lemma {:induction false} DistinctCard<T>(a: seq<T>)
    ensures |Distinct(a)| <= |a|
    ensures |Distinct(a)| == |a| <==> NoDups(a)
  {
    if a != [] {
      var p, x := a[..|a| - 1], a[|a| - 1];
      assert a == p + [x];
      assert Distinct(a) == Distinct(p) + {x};
      DistinctCard(p);
      if x in p {
        assert Distinct(a) == Distinct(p);
        var k :| 0 <= k < |p| && p[k] == x;
        assert a[k] == a[|a| - 1];
      } else {
        assert |Distinct(a)| == |Distinct(p)| + 1;
        if NoDups(p) {
          forall i, j | 0 <= i < j < |a| ensures a[i] != a[j] {
            if j == |a| - 1 {
              assert a[i] in p;
            } else {
              assert a[i] == p[i] && a[j] == p[j];
            }
          }
        } else {
          var i, j :| 0 <= i < j < |p| && p[i] == p[j];
          assert a[i] == a[j];
        }
      }
    }
  }

  // ---------------------------------------------------------------------
  // compare_singles
  // ---------------------------------------------------------------------

  /** Exact-match distance: 0 for equal values, 1 otherwise. */
  function CompareSingles<T(==)>(e1: T, e2: T): (r: int)
    ensures r == 0 <==> e1 == e2
    ensures r == 1 <==> e1 != e2
  {
    if e1 == e2 then 0 else 1
  }

  // ---------------------------------------------------------------------
  // compare_arrays: the integer counts
  // ---------------------------------------------------------------------

  /** `m = min(len(set(a1)), len(set(a2)))`. */
  function SmallerDistinct<T(==)>(a1: seq<T>, a2: seq<T>): (r: nat)
    ensures r == |Distinct(a1)| || r == |Distinct(a2)|
    ensures r <= |Distinct(a1)| && r <= |Distinct(a2)|
    ensures r <= |a1| && r <= |a2|
  {
    DistinctCard(a1);
    DistinctCard(a2);
    Min(|Distinct(a1)|, |Distinct(a2)|)
  }

  /** `intersects = len(a1 + a2) - len(set(a1) | set(a2))`: the common
      distinct elements plus every repeated occurrence inside either list. */
  function Intersects<T(==)>(a1: seq<T>, a2: seq<T>): (r: int)
    ensures r == (|a1| - |Distinct(a1)|) + (|a2| - |Distinct(a2)|)
                 + |Distinct(a1) * Distinct(a2)|
  {
    |a1 + a2| - |Distinct(a1) + Distinct(a2)|
  }

  /** The duplicate-aware intersection is never negative, is at least the
      true intersection, equals it when neither list repeats an element, and
      is zero exactly for two repetition-free disjoint lists. */
  lemma IntersectsCounts<T>(a1: seq<T>, a2: seq<T>)
    ensures Intersects(a1, a2) >= |Distinct(a1) * Distinct(a2)| >= 0
    ensures NoDups(a1) && NoDups(a2) ==>
              Intersects(a1, a2) == |Distinct(a1) * Distinct(a2)|
    ensures Intersects(a1, a2) == 0 <==>
              NoDups(a1) && NoDups(a2) && Distinct(a1) * Distinct(a2) == {}
  {
    DistinctCard(a1);
    DistinctCard(a2);
  }

  /** Repetitions make the count exceed the smaller distinct count: a list
      compared with itself has `intersects == m` exactly when it has no
      repeated element. */
  lemma SelfIntersects<T>(a: seq<T>)
    ensures Intersects(a, a) == 2 * |a| - |Distinct(a)|
    ensures SmallerDistinct(a, a) == |Distinct(a)|
    ensures Intersects(a, a) == SmallerDistinct(a, a) <==> NoDups(a)
    ensures Intersects(a, a) >= SmallerDistinct(a, a)
  {
    DistinctCard(a);
    assert Distinct(a) * Distinct(a) == Distinct(a);
  }

  // ---------------------------------------------------------------------
  // compare_arrays: the hyperbolic remapping over exact reals
  // ---------------------------------------------------------------------

  /** Holds of a function that returns the non-negative square root of every
      non-negative real: the model of `x ** 0.5`. */
  ghost predicate IsSqrt(sqrt: real -> real) {
    forall x: real :: 0.0 <= x ==> 0.0 <= sqrt(x) && sqrt(x) * sqrt(x) == x
  }

  /** Lines 38-40 once `sq_d` is known: `a = (m - sq_d)/2`,
      `b = coeff/(m - a)`, result `coeff/(intersects - a) - b`; each
      division by zero raises. */
  function Remap(intersects: int, m: int, coeff: real, sqD: real): (r: Result<real>)
    ensures r.Err? ==> r.error == ZeroDivision
  {
    var a := (m as real - sqD) / 2.0;
    if m as real - a == 0.0 then Err(ZeroDivision)
    else
      var b := coeff / (m as real - a);
      if intersects as real - a == 0.0 then Err(ZeroDivision)
      else Ok(coeff / (intersects as real - a) - b)
  }

  /** `m*m + 4*coeff*m`, the argument of the square root on line 37. */
  function RootArgument(m: int, coeff: real): (r: real)
    ensures 0 <= m && 0.0 <= coeff ==> 0.0 <= r
  {
    assert 0 <= m && 0.0 <= coeff ==> 0 <= m * m && 0.0 <= coeff * m as real;
    (m * m) as real + 4.0 * coeff * m as real
  }

  /** compare_arrays(a1, a2, coeff), with `**0.5` supplied as `sqrt`.
      A negative root argument raises ValueError in Python 2, which a
      non-negative coefficient rules out; the only other exception is a
      division by zero. */
  function CompareArrays<T(==)>(a1: seq<T>, a2: seq<T>, coeff: real, sqrt: real -> real): (r: Result<real>)
    ensures r.Err? ==> r.error in {MathDomain, ZeroDivision}
    ensures 0.0 <= coeff && r.Err? ==> r.error == ZeroDivision
  {
    var m := SmallerDistinct(a1, a2);
    var arg := RootArgument(m, coeff);
    if arg < 0.0 then Err(MathDomain)
    else Remap(Intersects(a1, a2), m, coeff, sqrt(arg))
  }

  /** Squaring is monotone on the non-negative reals. */
  lemma SquareMonotone(x: real, y: real)
    ensures 0.0 <= x <= y ==> x * x <= y * y
  {
    if 0.0 <= x <= y {
      assert x * x <= x * y;
      assert x * y <= y * y;
    }
  }

  /** A product of two non-negative reals vanishes only with a factor. */
  lemma ProductZero(x: real, y: real)
    requires 0.0 <= x && 0.0 <= y && x * y <= 0.0
    ensures x == 0.0 || y == 0.0
  {
  }

  /** With a positive coefficient the root strictly exceeds `m`. */
  lemma RootExceeds(m: real, coeff: real, s: real)
    requires m > 0.0 && coeff > 0.0
    requires s >= 0.0 && s * s == m * m + 4.0 * coeff * m
    ensures s > m
  {
    SquareMonotone(s, m);
    assert coeff * m > 0.0;
  }

  /** A positive numerator over a larger positive denominator gives less. */
  lemma QuotientDecreasing(c: real, p: real, q: real)
    requires c > 0.0 && 0.0 < p < q
    ensures c / q < c / p
  {
    var x, y := c / p, c / q;
    assert x * p == c && y * q == c;
    assert y * p < y * q;
  }

  /** With `a = (m - s)/2` the two denominators `-a` and `m - a` are
      positive and `coeff/(-a) - coeff/(m - a)` is exactly 1. */
  lemma UnitSpan(m: real, coeff: real, s: real)
    requires m > 0.0 && coeff > 0.0
    requires s >= 0.0 && s * s == m * m + 4.0 * coeff * m
    ensures 0.0 < -(m - s) / 2.0 < m - (m - s) / 2.0
    ensures coeff / (-(m - s) / 2.0) - coeff / (m - (m - s) / 2.0) == 1.0
  {
    RootExceeds(m, coeff, s);
    var u, w := (s - m) / 2.0, (s + m) / 2.0;
    assert -(m - s) / 2.0 == u && m - (m - s) / 2.0 == w;
    assert u * w == coeff * m by {
      assert (s - m) * (s + m) == s * s - m * m;
    }
    var x, y := coeff / u, coeff / w;
    assert x * u == coeff && y * w == coeff;
    assert (x - y) * (u * w) == coeff * m by {
      calc {
        (x - y) * (u * w);
        (x * u) * w - (y * w) * u;
        coeff * w - coeff * u;
        coeff * (w - u);
      }
    }
  }

  /** The remapping is defined for every overlap once `m > 0`, is strictly
      decreasing in `intersects`, maps 0 to exactly 1 (disjoint lists) and
      `m` to exactly 0 (identical repetition-free lists). */
  lemma RemapAnchors(intersects: nat, m: nat, coeff: real, s: real)
    requires m > 0 && coeff > 0.0
    requires s >= 0.0 && s * s == RootArgument(m, coeff)
    ensures Remap(intersects, m, coeff, s).Ok?
    ensures Remap(intersects, m, coeff, s).value <= 1.0
    ensures Remap(intersects, m, coeff, s).value == 1.0 <==> intersects == 0
    ensures Remap(intersects, m, coeff, s).value == 0.0 <==> intersects == m
    ensures Remap(intersects, m, coeff, s).value >= 0.0 <==> intersects <= m
  {
    var M, I := m as real, intersects as real;
    UnitSpan(M, coeff, s);
    var a := (M - s) / 2.0;
    var v := coeff / (I - a) - coeff / (M - a);
    assert Remap(intersects, m, coeff, s) == Ok(v);
    if intersects > 0 {
      QuotientDecreasing(coeff, -a, I - a);
    }
    if intersects < m {
      QuotientDecreasing(coeff, I - a, M - a);
    } else if intersects > m {
      QuotientDecreasing(coeff, M - a, I - a);
    }
  }

  /** `RemapAnchors` at the root that `sqrt` supplies. */
  lemma RootedAnchors(intersects: nat, m: nat, coeff: real, sqrt: real -> real)
    requires IsSqrt(sqrt) && m > 0 && coeff > 0.0
    ensures Remap(intersects, m, coeff, sqrt(RootArgument(m, coeff))).Ok?
    ensures Remap(intersects, m, coeff, sqrt(RootArgument(m, coeff))).value <= 1.0
    ensures Remap(intersects, m, coeff, sqrt(RootArgument(m, coeff))).value == 1.0 <==> intersects == 0
    ensures Remap(intersects, m, coeff, sqrt(RootArgument(m, coeff))).value == 0.0 <==> intersects == m
    ensures Remap(intersects, m, coeff, sqrt(RootArgument(m, coeff))).value >= 0.0 <==> intersects <= m
  {
    var arg := RootArgument(m, coeff);
    assert arg >= 0.0 by {
      assert (m * m) as real >= 0.0 && coeff * m as real > 0.0;
    }
    RemapAnchors(intersects, m, coeff, sqrt(arg));
  }

  /** With a positive coefficient the only failure is the division by zero
      that an empty list causes (`m == 0`). */
  lemma CompareArraysErrors<T>(a1: seq<T>, a2: seq<T>, coeff: real, sqrt: real -> real)
    requires IsSqrt(sqrt) && coeff > 0.0
    ensures CompareArrays(a1, a2, coeff, sqrt).Err? <==> a1 == [] || a2 == []
    ensures CompareArrays(a1, a2, coeff, sqrt).Err? ==>
              CompareArrays(a1, a2, coeff, sqrt).error == ZeroDivision
  {
    if a1 == [] || a2 == [] {
      CompareArraysEmpty(a1, a2, coeff, sqrt);
    } else {
      CompareArraysAnchors(a1, a2, coeff, sqrt);
    }
  }

  /** An empty list gives `m == 0`, so `a == 0` and `coeff/(m - a)` divides
      by zero. */
  lemma CompareArraysEmpty<T>(a1: seq<T>, a2: seq<T>, coeff: real, sqrt: real -> real)
    requires IsSqrt(sqrt) && (a1 == [] || a2 == [])
    ensures CompareArrays(a1, a2, coeff, sqrt) == Err(ZeroDivision)
  {
    assert Distinct<T>([]) == {};
    assert SmallerDistinct(a1, a2) == 0;
    assert RootArgument(0, coeff) == 0.0;
    var s := sqrt(0.0);
    ProductZero(s, s);
    assert Remap(Intersects(a1, a2), 0, coeff, s) == Err(ZeroDivision);
  }

  /** The distance of two non-empty lists is at most 1, is exactly 1 when
      they share nothing and repeat nothing (`intersects == 0`), and is
      exactly 0 when `intersects == m`. */
  lemma CompareArraysAnchors<T>(a1: seq<T>, a2: seq<T>, coeff: real, sqrt: real -> real)
    requires IsSqrt(sqrt) && coeff > 0.0 && a1 != [] && a2 != []
    ensures CompareArrays(a1, a2, coeff, sqrt).Ok?
    ensures CompareArrays(a1, a2, coeff, sqrt).value <= 1.0
    ensures CompareArrays(a1, a2, coeff, sqrt).value == 1.0 <==>
              NoDups(a1) && NoDups(a2) && Distinct(a1) * Distinct(a2) == {}
    ensures CompareArrays(a1, a2, coeff, sqrt).value == 0.0 <==>
              Intersects(a1, a2) == SmallerDistinct(a1, a2)
    ensures NoDups(a1) && NoDups(a2) ==>
              0.0 <= CompareArrays(a1, a2, coeff, sqrt).value
  {
    SmallerDistinctBounds(a1, a2);
    IntersectsCounts(a1, a2);
    RootedAnchors(Intersects(a1, a2), SmallerDistinct(a1, a2), coeff, sqrt);
  }

  /** Two non-empty lists have a positive smaller distinct count, and it is
      at least the number of elements they share. */
  lemma SmallerDistinctBounds<T>(a1: seq<T>, a2: seq<T>)
    ensures a1 != [] && a2 != [] ==> SmallerDistinct(a1, a2) > 0
    ensures |Distinct(a1) * Distinct(a2)| <= SmallerDistinct(a1, a2)
  {
    if a1 != [] && a2 != [] {
      assert a1[0] in Distinct(a1) && a2[0] in Distinct(a2);
    }
    var s1, s2 := Distinct(a1), Distinct(a2);
    assert |s1 - s2| + |s1 * s2| == |s1| && |s2 - s1| + |s1 * s2| == |s2|;
  }

  /** A non-empty list is at distance exactly 0 from itself if and only if
      it repeats no element; with repetitions the distance is negative. */
  lemma CompareArraysSelf<T>(a: seq<T>, coeff: real, sqrt: real -> real)
    requires IsSqrt(sqrt) && coeff > 0.0 && a != []
    ensures CompareArrays(a, a, coeff, sqrt).Ok?
    ensures CompareArrays(a, a, coeff, sqrt).value == 0.0 <==> NoDups(a)
    ensures !NoDups(a) ==> CompareArrays(a, a, coeff, sqrt).value < 0.0
  {
    SelfIntersects(a);
    var m := SmallerDistinct(a, a);
    assert a[0] in Distinct(a);
    var s := sqrt(RootArgument(m, coeff));
    RemapAnchors(Intersects(a, a), m, coeff, s);
    assert CompareArrays(a, a, coeff, sqrt) == Remap(Intersects(a, a), m, coeff, s);
  }

  /** Union size, total length and `min` do not depend on the order of the
      arguments, so neither does the distance. */
  lemma CompareArraysSymmetric<T>(a1: seq<T>, a2: seq<T>, coeff: real, sqrt: real -> real)
    ensures CompareArrays(a1, a2, coeff, sqrt) == CompareArrays(a2, a1, coeff, sqrt)
  {
    assert Distinct(a1) + Distinct(a2) == Distinct(a2) + Distinct(a1);
    assert |a1 + a2| == |a2 + a1|;
  }

  /** The docstring's first two examples: ABCDE against FGH gives exactly 1,
      ABCDE against ABC gives exactly 0 (coefficient 1). */
  lemma DocExamples(sqrt: real -> real)
    requires IsSqrt(sqrt)
    ensures CompareArrays("ABCDE", "FGH", 1.0, sqrt) == Ok(1.0)
    ensures CompareArrays("ABCDE", "ABC", 1.0, sqrt) == Ok(0.0)
  {
    var abcde, fgh, abc := "ABCDE", "FGH", "ABC";
    assert NoDups(abcde) && NoDups(fgh) && NoDups(abc);
    assert Distinct(abcde) * Distinct(fgh) == {} by {
      forall x | x in Distinct(abcde) ensures x !in Distinct(fgh) {}
    }
    CompareArraysAnchors(abcde, fgh, 1.0, sqrt);
    CompareArraysAnchors(abcde, abc, 1.0, sqrt);
    DistinctCard(abcde);
    DistinctCard(abc);
    assert Distinct(abcde) * Distinct(abc) == Distinct(abc) by {
      forall x | x in Distinct(abc) ensures x in Distinct(abcde) {}
    }
    IntersectsCounts(abcde, abc);
  }

  // ---------------------------------------------------------------------
  // get_centroid
  // ---------------------------------------------------------------------

  /** Position of the first element of `arr[..n]` whose count in `arr` is
      maximal among `arr[..n]`. */
  function MostCommonIndex<T(==)>(arr: seq<T>, n: nat): (k: nat)
    requires 0 < n <= |arr|
    ensures k < n
    ensures forall j :: 0 <= j < n ==> Count(arr, arr[j]) <= Count(arr, arr[k])
    ensures forall j :: 0 <= j < k ==> Count(arr, arr[j]) < Count(arr, arr[k])
  {
    if n == 1 then 0
    else
      var k := MostCommonIndex(arr, n - 1);
      if Count(arr, arr[k]) < Count(arr, arr[n - 1]) then n - 1 else k
  }

  /** get_centroid: `None` (the sentinel -1) for an empty list, otherwise an
      element of the list that occurs at least as often as any other. */
  function GetCentroid<T(==)>(arr: seq<T>): (r: Option<T>)
    ensures r.None? <==> arr == []
    ensures r.Some? ==> r.value in arr
    ensures r.Some? ==> forall x :: x in arr ==> Count(arr, x) <= Count(arr, r.value)
  {
    if arr == [] then None else Some(arr[MostCommonIndex(arr, |arr|)])
  }

  /** The list of the example in `main`. */
  const CentroidSample: seq<int> := [1, 9, 5, 4, 1, 3, 9, 7, 5, 4, 9, 7]

  /** The values of the sample. */
  lemma SampleValues(v: int)
    requires v in CentroidSample
    ensures v in {1, 3, 4, 5, 7, 9}
  {
  }

  // How often each value occurs in the sample, one value at a time.
  lemma SampleCount1() ensures Count(CentroidSample, 1) == 2 {}
  lemma SampleCount3() ensures Count(CentroidSample, 3) == 1 {}
  lemma SampleCount4() ensures Count(CentroidSample, 4) == 2 {}
  lemma SampleCount5() ensures Count(CentroidSample, 5) == 2 {}
  lemma SampleCount7() ensures Count(CentroidSample, 7) == 2 {}
  lemma SampleCount9() ensures Count(CentroidSample, 9) == 3 {}

  /** The example in `main`: 9 occurs three times, every other value at most
      twice, so 9 is the only possible answer. */
  lemma CentroidExample()
    ensures GetCentroid(CentroidSample) == Some(9)
  {
    var v := GetCentroid(CentroidSample).value;
    SampleValues(v);
    SampleCount9();
    if v == 1 {
      SampleCount1();
    } else if v == 3 {
      SampleCount3();
    } else if v == 4 {
      SampleCount4();
    } else if v == 5 {
      SampleCount5();
    } else if v == 7 {
      SampleCount7();
    }
  }

  // ---------------------------------------------------------------------
  // get_array_centroid
  // ---------------------------------------------------------------------

  /** The rows of `arr` joined end to end (`plain_array += a`). */
  function Flatten<T>(arr: seq<seq<T>>): (r: seq<T>)
    ensures forall k, x :: 0 <= k < |arr| && x in arr[k] ==> x in r
    ensures forall x :: x in r ==> exists k :: 0 <= k < |arr| && x in arr[k]
  {
    if arr == [] then []
    else
      var init := arr[..|arr| - 1];
      assert forall k :: 0 <= k < |init| ==> init[k] == arr[k];
      Flatten(init) + arr[|arr| - 1]
  }

  /** The distinct elements of `xs` in order of first occurrence. */
  function Dedup<T(==)>(xs: seq<T>): (r: seq<T>)
    ensures NoDups(r)
    ensures Distinct(r) == Distinct(xs)
  {
    if xs == [] then []
    else
      var p, x := xs[..|xs| - 1], xs[|xs| - 1];
      var r := Dedup(p);
      assert xs == p + [x];
      assert Distinct(xs) == Distinct(p) + {x};
      if x in r then r
      else
        assert x !in Distinct(r);
        assert Distinct(r + [x]) == Distinct(r) + {x};
        r + [x]
  }

  /** Counts, read from `bag`, never increase along `s`. */
  predicate SortedByCount<T(==)>(s: seq<T>, bag: multiset<T>) {
    forall i, j :: 0 <= i < j < |s| ==> bag[s[i]] >= bag[s[j]]
  }

  /** Places `x` after every element of `s` whose count is at least its own. */
  function InsertByCount<T(==)>(x: T, s: seq<T>, bag: multiset<T>): seq<T> {
    if s == [] then [x]
    else if bag[s[0]] >= bag[x] then [s[0]] + InsertByCount(x, s[1..], bag)
    else [x] + s
  }

  /** Stable insertion sort by decreasing count. */
  function RankByCount<T(==)>(ds: seq<T>, bag: multiset<T>): seq<T> {
    if ds == [] then []
    else InsertByCount(ds[|ds| - 1], RankByCount(ds[..|ds| - 1], bag), bag)
  }

  /** The head of a sorted list has the largest count. */
  lemma SortedHead<T>(s: seq<T>, bag: multiset<T>, y: T)
    requires SortedByCount(s, bag) && y in s
    ensures bag[s[0]] >= bag[y]
  {
    var t :| 0 <= t < |s| && s[t] == y;
    if t > 0 {
      assert bag[s[0]] >= bag[s[t]];
    }
  }

  /** A head whose count dominates a sorted tail gives a sorted list. */
  lemma SortedCons<T>(h: T, rest: seq<T>, bag: multiset<T>)
    requires SortedByCount(rest, bag)
    requires forall y :: y in rest ==> bag[h] >= bag[y]
    ensures SortedByCount([h] + rest, bag)
  {
    var s := [h] + rest;
    forall i, j | 0 <= i < j < |s| ensures bag[s[i]] >= bag[s[j]] {
      if i == 0 {
        assert s[j] == rest[j - 1];
      } else {
        assert s[i] == rest[i - 1] && s[j] == rest[j - 1];
      }
    }
  }

  /** Inserting keeps a list sorted and adds exactly one occurrence. */
  lemma {:induction false} InsertByCountSorted<T>(x: T, s: seq<T>, bag: multiset<T>)
    requires SortedByCount(s, bag)
    ensures SortedByCount(InsertByCount(x, s, bag), bag)
    ensures multiset(InsertByCount(x, s, bag)) == multiset(s) + multiset{x}
  {
    if s != [] {
      assert s == [s[0]] + s[1..];
      if bag[s[0]] >= bag[x] {
        var rest := InsertByCount(x, s[1..], bag);
        assert SortedByCount(s[1..], bag) by {
          forall i, j | 0 <= i < j < |s[1..]| ensures bag[s[1..][i]] >= bag[s[1..][j]] {
            assert s[1..][i] == s[i + 1] && s[1..][j] == s[j + 1];
          }
        }
        InsertByCountSorted(x, s[1..], bag);
        forall y | y in rest ensures bag[s[0]] >= bag[y] {
          assert y in multiset(rest);
          if y != x {
            assert y in s;
            SortedHead(s, bag, y);
          }
        }
        SortedCons(s[0], rest, bag);
      } else {
        forall y | y in s ensures bag[x] >= bag[y] {
          SortedHead(s, bag, y);
        }
        SortedCons(x, s, bag);
      }
    }
  }

  /** Ranking sorts by count and keeps exactly the same elements. */
  lemma {:induction false} RankByCountSorted<T>(ds: seq<T>, bag: multiset<T>)
    ensures SortedByCount(RankByCount(ds, bag), bag)
    ensures multiset(RankByCount(ds, bag)) == multiset(ds)
  {
    if ds != [] {
      var p := ds[..|ds| - 1];
      assert ds == p + [ds[|ds| - 1]];
      RankByCountSorted(p, bag);
      InsertByCountSorted(ds[|ds| - 1], RankByCount(p, bag), bag);
    }
  }

  /** A list repeats nothing exactly when its bag holds each element once. */
  lemma {:induction false} NoDupsBag<T>(s: seq<T>)
    ensures NoDups(s) <==> forall x :: multiset(s)[x] <= 1
  {
    if NoDups(s) {
      if s != [] {
        var p, x := s[..|s| - 1], s[|s| - 1];
        assert s == p + [x];
        assert NoDups(p) by {
          forall i, j | 0 <= i < j < |p| ensures p[i] != p[j] {
            assert p[i] == s[i] && p[j] == s[j];
          }
        }
        NoDupsBag(p);
        assert x !in p by {
          forall k | 0 <= k < |p| ensures p[k] != x {
            assert p[k] == s[k];
          }
        }
      }
    } else {
      var i, j :| 0 <= i < j < |s| && s[i] == s[j];
      assert s == s[..j] + [s[j]] + s[j + 1..];
      assert s[i] in s[..j];
      assert multiset(s)[s[i]] >= 2;
    }
  }

  /** `Counter(xs).most_common()` reduced to its keys: every distinct element
      once, by non-increasing count (ties in order of first occurrence). */
  function MostCommon<T(==)>(xs: seq<T>): (r: seq<T>)
    ensures NoDups(r) && SortedByCount(r, multiset(xs))
    ensures Distinct(r) == Distinct(xs)
    ensures |r| == |Distinct(xs)|
  {
    var ds := Dedup(xs);
    var r := RankByCount(ds, multiset(xs));
    RankByCountSorted(ds, multiset(xs));
    NoDupsBag(ds);
    NoDupsBag(r);
    DistinctCard(r);
    assert Distinct(r) == Distinct(xs) by {
      forall y ensures y in Distinct(r) <==> y in Distinct(xs) {
        assert y in r <==> y in multiset(r);
      }
    }
    r
  }

  /** `int(part * n)` for a non-negative `part`: truncation is the floor. */
  function Truncate(part: real, n: nat): (r: int)
    requires 0.0 <= part
    ensures 0 <= r
    ensures r as real <= part * n as real < r as real + 1.0
  {
    (part * n as real).Floor
  }

  /** An element before position `k` belongs to the prefix of length `k`. */
  lemma PrefixMember<T>(s: seq<T>, k: nat, j: nat)
    requires k <= |s| && j < |s|
    ensures j < k ==> s[j] in s[..k]
  {
    if j < k {
      assert s[..k][j] == s[j];
    }
  }

  /** A prefix of a repetition-free sorted list holds its most frequent
      elements: a prefix element is never less frequent than one left out. */
  lemma OmittedNotMoreFrequent<T>(ranked: seq<T>, take: nat, bag: multiset<T>)
    requires NoDups(ranked) && SortedByCount(ranked, bag) && take <= |ranked|
    ensures NoDups(ranked[..take]) && SortedByCount(ranked[..take], bag)
    ensures forall x, y :: x in ranked[..take] && y in ranked && y !in ranked[..take] ==>
                             bag[y] <= bag[x]
  {
    forall x, y | x in ranked[..take] && y in ranked && y !in ranked[..take]
      ensures bag[y] <= bag[x]
    {
      var i :| 0 <= i < take && ranked[i] == x;
      var j :| 0 <= j < |ranked| && ranked[j] == y;
      PrefixMember(ranked, take, j);
    }
  }

  /** The elements of `ranked` whose count reaches `p`, in the order of
      `ranked`. */
  function KeptByCount<T(==)>(ranked: seq<T>, bag: multiset<T>, p: int): (r: seq<T>)
    ensures forall x :: x in r ==> x in ranked && bag[x] >= p
    ensures forall x :: x in ranked && bag[x] >= p ==> x in r
  {
    if ranked == [] then []
    else
      var init, x := ranked[..|ranked| - 1], ranked[|ranked| - 1];
      assert ranked == init + [x];
      KeptByCount(init, bag, p) + (if bag[x] >= p then [x] else [])
  }

  /** The loop over `counter.most_common()` when `ofAll` is false: keeps, in
      order, the elements whose count reaches the threshold `p`. */
  method KeepFrequent<T(==)>(ranked: seq<T>, bag: multiset<T>, p: int) returns (out: seq<T>)
    requires NoDups(ranked) && SortedByCount(ranked, bag)
    ensures out == KeptByCount(ranked, bag, p)
    ensures NoDups(out) && SortedByCount(out, bag)
    ensures forall x :: x in out <==> x in ranked && bag[x] >= p
  {
    out := [];
    for k := 0 to |ranked|
      invariant out == KeptByCount(ranked[..k], bag, p)
    {
      assert ranked[..k + 1][..k] == ranked[..k];
      if bag[ranked[k]] >= p {
        out := out + [ranked[k]];
      }
    }
    assert ranked[..|ranked|] == ranked;
    KeptByCountSorted(ranked, bag, p);
  }

  /** Keeping the elements of a repetition-free list sorted by count leaves
      a list that is repetition-free and sorted by count too. */
  lemma {:induction false} KeptByCountSorted<T>(ranked: seq<T>, bag: multiset<T>, p: int)
    requires NoDups(ranked) && SortedByCount(ranked, bag)
    ensures NoDups(KeptByCount(ranked, bag, p)) && SortedByCount(KeptByCount(ranked, bag, p), bag)
  {
    if ranked != [] {
      var init, x := ranked[..|ranked| - 1], ranked[|ranked| - 1];
      assert NoDups(init) && SortedByCount(init, bag) by {
        forall i, j | 0 <= i < j < |init| ensures init[i] != init[j] && bag[init[i]] >= bag[init[j]] {
          assert init[i] == ranked[i] && init[j] == ranked[j];
        }
      }
      KeptByCountSorted(init, bag, p);
      var kept := KeptByCount(init, bag, p);
      if bag[x] >= p {
        forall y | y in kept ensures y != x && bag[y] >= bag[x] {
          var i :| 0 <= i < |init| && init[i] == y;
          assert ranked[i] == y;
        }
        var r := kept + [x];
        forall i, j | 0 <= i < j < |r| ensures r[i] != r[j] && bag[r[i]] >= bag[r[j]] {
          assert r[i] == kept[i] && r[i] in kept;
          if j < |kept| {
            assert r[j] == kept[j];
          }
        }
        assert KeptByCount(ranked, bag, p) == r;
      }
    }
  }

  /** What every selection from `plain` is: elements of `plain`, each once,
      by non-increasing count. */
  predicate RankedSelection<T(==)>(out: seq<T>, plain: seq<T>) {
    NoDups(out) && SortedByCount(out, multiset(plain)) &&
    forall x :: x in out ==> x in plain
  }

  /** No element of `plain` left out of `out` occurs more often than one kept. */
  predicate MostFrequentKept<T(==)>(out: seq<T>, plain: seq<T>) {
    forall x, y :: x in out && y in plain && y !in out ==> Count(plain, y) <= Count(plain, x)
  }

  /** `out` holds exactly the elements of `plain` occurring at least `p` times. */
  predicate ExactlyAtLeast<T(==)>(out: seq<T>, plain: seq<T>, p: int) {
    (forall x :: x in out ==> x in plain && Count(plain, x) >= p) &&
    (forall x :: x in plain && Count(plain, x) >= p ==> x in out)
  }

  /** The ranked keys are exactly the elements of the list. */
  lemma MostCommonMembers<T>(xs: seq<T>, r: seq<T>)
    requires r == MostCommon(xs)
    ensures forall x :: x in r <==> x in xs
  {
    forall x ensures x in r <==> x in xs {
      assert x in r <==> x in Distinct(r);
      assert x in xs <==> x in Distinct(xs);
    }
  }

  /** The first `take` ranked keys are elements of the list, and no element
      left out occurs more often than one taken. */
  lemma LeadingSelection<T>(plain: seq<T>, ranked: seq<T>, take: nat)
    requires ranked == MostCommon(plain) && take <= |ranked|
    ensures RankedSelection(ranked[..take], plain)
    ensures MostFrequentKept(ranked[..take], plain)
  {
    MostCommonMembers(plain, ranked);
    OmittedNotMoreFrequent(ranked, take, multiset(plain));
    forall x | x in ranked[..take] ensures x in plain {
      var i :| 0 <= i < take && ranked[..take][i] == x;
      assert ranked[i] == x;
    }
  }

  /** The ranked keys reaching a threshold are exactly the elements of the
      list occurring that often. */
  lemma ThresholdSelection<T>(plain: seq<T>, ranked: seq<T>, out: seq<T>, p: int)
    requires ranked == MostCommon(plain)
    requires NoDups(out) && SortedByCount(out, multiset(plain))
    requires forall x :: x in out <==> x in ranked && multiset(plain)[x] >= p
    ensures RankedSelection(out, plain)
    ensures ExactlyAtLeast(out, plain, p)
  {
    MostCommonMembers(plain, ranked);
  }

  /** The loop `for i in range(n): res.append(ranked[i])`. */
  method TakeLeading<T>(ranked: seq<T>, n: nat) returns (out: seq<T>)
    requires n <= |ranked|
    ensures out == ranked[..n]
  {
    out := [];
    for k := 0 to n
      invariant out == ranked[..k]
    {
      out := out + [ranked[k]];
    }
  }

  /** The loop `for a in arr: plain_array += a`. */
  method JoinRows<T>(arr: seq<seq<T>>) returns (plain: seq<T>)
    ensures plain == Flatten(arr)
  {
    plain := [];
    for k := 0 to |arr|
      invariant plain == Flatten(arr[..k])
    {
      assert arr[..k + 1][..k] == arr[..k];
      plain := plain + arr[k];
    }
    assert arr[..|arr|] == arr;
  }

  /** The body of get_array_centroid once the rows are joined into `plain`:
      the selection made from `Counter(plain).most_common()`. */
  method SelectFrequent<T(==)>(plain: seq<T>, part: real, rowsAmount: nat, ofAll: bool)
    returns (out: seq<T>)
    requires 0.0 <= part
    ensures RankedSelection(out, plain)
    ensures ofAll ==> |out| == Min(Truncate(part, |Distinct(plain)|), |Distinct(plain)|)
    ensures ofAll ==> MostFrequentKept(out, plain)
    ensures ofAll ==> out == MostCommon(plain)[..|out|]
    ensures !ofAll ==> ExactlyAtLeast(out, plain, Truncate(part, rowsAmount))
    ensures !ofAll ==> out == KeptByCount(MostCommon(plain), multiset(plain), Truncate(part, rowsAmount))
  {
    var ranked := MostCommon(plain);
    if ofAll {
      var elAmount := |ranked|;
      var p := Truncate(part, elAmount);
      out := TakeLeading(ranked, if p < elAmount then p else elAmount);
      LeadingSelection(plain, ranked, |out|);
    } else {
      out := KeepFrequent(ranked, multiset(plain), Truncate(part, rowsAmount));
      ThresholdSelection(plain, ranked, out, Truncate(part, rowsAmount));
    }
  }

  /** get_array_centroid: `None` (the sentinel -1) for no rows; otherwise
      distinct elements of the joined rows in non-increasing count order.
      With `ofAll` they are the `int(part * distinct)` most frequent ones (all
      of them if fewer), and nothing left out occurs more often than anything
      kept; without it they are exactly the elements occurring at least
      `int(part * rows)` times. */
  method GetArrayCentroid<T(==)>(arr: seq<seq<T>>, part: real, ofAll: bool) returns (res: Option<seq<T>>)
    requires 0.0 <= part
    ensures res.None? <==> arr == []
    ensures res.Some? ==> RankedSelection(res.value, Flatten(arr))
    ensures res.Some? && ofAll ==>
              |res.value| == Min(Truncate(part, |Distinct(Flatten(arr))|), |Distinct(Flatten(arr))|)
    ensures res.Some? && ofAll ==> MostFrequentKept(res.value, Flatten(arr))
    ensures res.Some? && ofAll ==> res.value == MostCommon(Flatten(arr))[..|res.value|]
    ensures res.Some? && !ofAll ==> ExactlyAtLeast(res.value, Flatten(arr), Truncate(part, |arr|))
    ensures res.Some? && !ofAll ==>
              res.value == KeptByCount(MostCommon(Flatten(arr)), multiset(Flatten(arr)), Truncate(part, |arr|))
  {
    var rowsAmount := |arr|;
    if rowsAmount == 0 {
      return None;
    }
    var plain := JoinRows(arr);
    var out := SelectFrequent(plain, part, rowsAmount, ofAll);
    res := Some(out);
  }
}
