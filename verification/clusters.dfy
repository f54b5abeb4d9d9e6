/** The list of index sets that the clustering engine works on: clusters of
    movie positions `0..n-1`, merged pairwise until few enough remain. */
module Clusters {

  /** The movie positions `0..n-1`. */
  function Range(n: nat): (r: set<nat>)
    ensures forall i: nat :: i in r <==> i < n
  {
    if n == 0 then {} else Range(n - 1) + {n - 1}
  }

  /** Every position held by some cluster of the list. */
  function Union(cs: seq<set<nat>>): set<nat> {
    if cs == [] then {} else Union(cs[..|cs| - 1]) + cs[|cs| - 1]
  }

  /** No position is held by two clusters. */
  predicate Disjoint(cs: seq<set<nat>>) {
    forall a, b, x :: 0 <= a < b < |cs| && x in cs[a] ==> x !in cs[b]
  }

  /** No cluster is empty. */
  predicate NonEmpty(cs: seq<set<nat>>) {
    forall a :: 0 <= a < |cs| ==> cs[a] != {}
  }

  /** The clusters split the positions `0..n-1` into non-empty, pairwise
      disjoint parts. */
  predicate IsPartition(cs: seq<set<nat>>, n: nat) {
    Disjoint(cs) && NonEmpty(cs) && Union(cs) == Range(n)
  }

  /** A position belongs to the union exactly when some cluster holds it. */
  lemma {:induction false} UnionMember(cs: seq<set<nat>>, x: nat)
    ensures x in Union(cs) <==> exists a :: 0 <= a < |cs| && x in cs[a]
  {
    if cs != [] {
      var init := cs[..|cs| - 1];
      UnionMember(init, x);
      if x in Union(init) {
        var a :| 0 <= a < |init| && x in init[a];
        assert x in cs[a];
      }
      if exists a :: 0 <= a < |cs| && x in cs[a] {
        var a :| 0 <= a < |cs| && x in cs[a];
        if a < |cs| - 1 {
          assert x in init[a];
        }
      }
    }
  }

  /** `[set([i]) for i in xrange(n)]`: every position alone. */
  function Singletons(n: nat): (r: seq<set<nat>>)
    ensures |r| == n
    ensures forall i :: 0 <= i < n ==> r[i] == {i}
  {
    seq(n, i requires 0 <= i => {i as nat})
  }

  /** The singletons are a partition of `0..n-1` into `n` clusters. */
  lemma SingletonsPartition(n: nat)
    ensures IsPartition(Singletons(n), n)
  {
    var cs := Singletons(n);
    forall x: nat ensures x in Union(cs) <==> x in Range(n) {
      UnionMember(cs, x);
      if x < n {
        assert x in cs[x];
      }
    }
  }

  /** `clusters[i].update(clusters[j]); clusters.pop(j)` for `i < j`: cluster
      `i` absorbs cluster `j`, which leaves the list; the clusters before `j`
      keep their places and those after it move down by one. */
  function Merge(cs: seq<set<nat>>, i: nat, j: nat): (r: seq<set<nat>>)
    requires i < j < |cs|
    ensures |r| == |cs| - 1
    ensures r[i] == cs[i] + cs[j]
    ensures forall k :: 0 <= k < j && k != i ==> r[k] == cs[k]
    ensures forall k :: j <= k < |r| ==> r[k] == cs[k + 1]
  {
    var merged := cs[i := cs[i] + cs[j]];
    merged[..j] + merged[j + 1..]
  }

  /** Merging keeps every position and adds none. */
  lemma MergeUnion(cs: seq<set<nat>>, i: nat, j: nat)
    requires i < j < |cs|
    ensures Union(Merge(cs, i, j)) == Union(cs)
  {
    var r := Merge(cs, i, j);
    forall x: nat ensures x in Union(r) <==> x in Union(cs) {
      UnionMember(r, x);
      UnionMember(cs, x);
      if x in Union(cs) {
        var a :| 0 <= a < |cs| && x in cs[a];
        if a == i || a == j {
          assert x in r[i];
        } else if a < j {
          assert x in r[a];
        } else {
          assert x in r[a - 1];
        }
      }
      if x in Union(r) {
        var k :| 0 <= k < |r| && x in r[k];
        if k == i {
          assert x in cs[i] || x in cs[j];
        } else if k < j {
          assert x in cs[k];
        } else {
          assert x in cs[k + 1];
        }
      }
    }
  }

  /** Merging two clusters of a partition leaves a partition with one
      cluster fewer. */
  lemma MergePartition(cs: seq<set<nat>>, n: nat, i: nat, j: nat)
    requires IsPartition(cs, n) && i < j < |cs|
    ensures IsPartition(Merge(cs, i, j), n)
  {
    var r := Merge(cs, i, j);
    MergeUnion(cs, i, j);
    forall a, b, x | 0 <= a < b < |r| && x in r[a] ensures x !in r[b] {
      // the clusters of the old list that r[a] and r[b] came from
      var oa := if a < j then a else a + 1;
      var ob := if b < j then b else b + 1;
      var pa := if a == i && x !in cs[i] then j else oa;
      assert x in cs[pa] && pa != ob;
      assert x !in cs[ob];
      assert b == i ==> x !in cs[j];
    }
    forall a | 0 <= a < |r| ensures r[a] != {} {
      if a == i {
        assert cs[i] <= r[a];
      } else if a < j {
        assert r[a] == cs[a];
      } else {
        assert r[a] == cs[a + 1];
      }
    }
  }

  /** Two different clusters of a disjoint list never share a position. */
  lemma SeparateClusters(cs: seq<set<nat>>, p: nat, q: nat, x: nat)
    requires Disjoint(cs) && p < |cs| && q < |cs| && x in cs[p] && x in cs[q]
    ensures p == q
  {
  }

  /** In a partition each position of `0..n-1` lies in exactly one cluster. */
  lemma PartitionOwner(cs: seq<set<nat>>, n: nat, m: nat)
    requires IsPartition(cs, n) && m < n
    ensures exists a :: 0 <= a < |cs| && m in cs[a]
    ensures forall a, b :: 0 <= a < |cs| && 0 <= b < |cs| && m in cs[a] && m in cs[b] ==> a == b
  {
    UnionMember(cs, m);
    assert m in Range(n);
    forall a, b | 0 <= a < |cs| && 0 <= b < |cs| && m in cs[a] && m in cs[b]
      ensures a == b
    {
      SeparateClusters(cs, a, b, m);
    }
  }

  /** A partition holds only positions below `n`. */
  lemma PartitionMembers(cs: seq<set<nat>>, n: nat, a: nat, m: nat)
    requires IsPartition(cs, n) && a < |cs| && m in cs[a]
    ensures m < n
  {
    UnionMember(cs, m);
    assert m in Range(n);
  }
}
