/** Greedy clustering of texts: each text not yet taken starts a cluster and
    takes every later untaken text whose similarity to it reaches the
    threshold; the clusters are then listed largest first. The similarity of
    texts i and j is a given function, the embeddings are not modelled. */
module TextClustering {
  import opened Wrappers
  import opened Strings
  import opened Sorting
  import SimilarityPairs

  type Score = SimilarityPairs.Score

  datatype Cluster = Cluster(clusterId: nat, texts: seq<string>, centerIndex: nat, size: nat)

  /** The value used when the request gives no threshold. */
  const DefaultThreshold: real := 0.7

  /** The first center below c that takes text j, if any: the state of
      used[j] once the centers below c have been processed. */
  function FirstOwner(sim: Score, th: real, j: nat, c: nat): Option<nat>
    decreases c, 0
  {
    if c == 0 then None
    else
      var p := FirstOwner(sim, th, j, c - 1);
      if p.Some? then p
      else if IsCenter(sim, th, c - 1) && sim(c - 1, j) >= th then Some(c - 1)
      else None
  }

  /** Text c starts a cluster: no earlier center has taken it. */
  predicate IsCenter(sim: Score, th: real, c: nat)
    decreases c, 1
  {
    FirstOwner(sim, th, c, c).None?
  }

  /** The owner found is a center below c that is similar enough, and no
      center before it is. */
  lemma {:induction false} OwnerBelow(sim: Score, th: real, j: nat, c: nat)
    ensures FirstOwner(sim, th, j, c).Some? ==>
              var x := FirstOwner(sim, th, j, c).value;
              x < c && IsCenter(sim, th, x) && sim(x, j) >= th && FirstOwner(sim, th, j, x).None?
  {
    if c > 0 {
      OwnerBelow(sim, th, j, c - 1);
    }
  }

  /** With no owner below c, no center below c is similar enough. */
  lemma {:induction false} OwnerNone(sim: Score, th: real, j: nat, c: nat)
    requires FirstOwner(sim, th, j, c).None?
    ensures forall x: nat :: x < c && IsCenter(sim, th, x) ==> sim(x, j) < th
  {
    if c > 0 {
      OwnerNone(sim, th, j, c - 1);
    }
  }

  /** Once taken, a text keeps its owner. */
  lemma {:induction false} OwnerStable(sim: Score, th: real, j: nat, c: nat, d: nat)
    requires c <= d && FirstOwner(sim, th, j, c).Some?
    ensures FirstOwner(sim, th, j, d) == FirstOwner(sim, th, j, c)
    decreases d - c
  {
    if c < d {
      OwnerStable(sim, th, j, c, d - 1);
    }
  }

  /** The owner is already the owner right after it is processed. */
  lemma OwnerFixedFrom(sim: Score, th: real, j: nat, c: nat)
    requires FirstOwner(sim, th, j, c).Some?
    ensures FirstOwner(sim, th, j, FirstOwner(sim, th, j, c).value + 1) == FirstOwner(sim, th, j, c)
  {
    OwnerBelow(sim, th, j, c);
  }

  /** The center of the cluster holding text j. */
  function Owner(sim: Score, th: real, j: nat): nat {
    if IsCenter(sim, th, j) then j else FirstOwner(sim, th, j, j).value
  }

  /** A text belongs to itself when it is a center, and otherwise to the
      first earlier center similar enough to it. */
  lemma OwnerIsFirstSimilarCenter(sim: Score, th: real, j: nat)
    ensures Owner(sim, th, j) <= j && IsCenter(sim, th, Owner(sim, th, j))
    ensures Owner(sim, th, j) < j ==> sim(Owner(sim, th, j), j) >= th
    ensures forall x: nat :: x < Owner(sim, th, j) && IsCenter(sim, th, x) ==> sim(x, j) < th
  {
    OwnerBelow(sim, th, j, j);
    if IsCenter(sim, th, j) {
      OwnerNone(sim, th, j, j);
    } else {
      OwnerNone(sim, th, j, Owner(sim, th, j));
    }
  }

  /** The texts in [lo, hi) that center c takes, in index order. */
  function Taken(sim: Score, th: real, c: nat, lo: nat, hi: nat): (r: seq<nat>)
    ensures forall k :: 0 <= k < |r| ==> lo <= r[k] < hi
    decreases hi
  {
    if hi <= lo then []
    else Taken(sim, th, c, lo, hi - 1) + (if FirstOwner(sim, th, hi - 1, c + 1) == Some(c) then [hi - 1] else [])
  }

  lemma {:induction false} TakenMembers(sim: Score, th: real, c: nat, lo: nat, hi: nat, m: nat)
    ensures m in Taken(sim, th, c, lo, hi) <==> lo <= m < hi && FirstOwner(sim, th, m, c + 1) == Some(c)
    decreases hi
  {
    if lo < hi {
      TakenMembers(sim, th, c, lo, hi - 1, m);
    }
  }

  /** The indices of the cluster centered at c, among n texts: c first. */
  function Members(sim: Score, th: real, n: nat, c: nat): (r: seq<nat>)
    ensures |r| >= 1 && r[0] == c
    ensures forall k :: 0 <= k < |r| ==> c <= r[k] && (c < n ==> r[k] < n)
  {
    [c] + Taken(sim, th, c, c + 1, n)
  }

  /** Text m is in the cluster of center c exactly when c is its owner: every
      text lies in exactly one cluster. */
  lemma MembersAreOwned(sim: Score, th: real, n: nat, c: nat, m: nat)
    requires c < n && IsCenter(sim, th, c)
    ensures m in Members(sim, th, n, c) <==> m < n && Owner(sim, th, m) == c
  {
    TakenMembers(sim, th, c, c + 1, n, m);
    if m != c && m in Members(sim, th, n, c) {
      OwnerStable(sim, th, m, c + 1, m);
    }
    if m != c && m < n && Owner(sim, th, m) == c {
      OwnerIsFirstSimilarCenter(sim, th, m);
      OwnerFixedFrom(sim, th, m, m);
    }
  }

  /** Every member after the center is a later text similar enough to the
      center itself. */
  lemma MembersSimilarToCenter(sim: Score, th: real, n: nat, c: nat)
    ensures forall k :: 1 <= k < |Members(sim, th, n, c)| ==>
              c < Members(sim, th, n, c)[k] && sim(c, Members(sim, th, n, c)[k]) >= th
  {
    var t := Taken(sim, th, c, c + 1, n);
    forall k | 0 <= k < |t| ensures sim(c, t[k]) >= th {
      TakenMembers(sim, th, c, c + 1, n, t[k]);
      OwnerBelow(sim, th, t[k], c + 1);
    }
  }

  /** cluster.map { texts[it] }. */
  function TextsAt(texts: seq<string>, idx: seq<nat>): (r: seq<string>)
    requires forall k :: 0 <= k < |idx| ==> idx[k] < |texts|
    ensures |r| == |idx| && forall k :: 0 <= k < |idx| ==> r[k] == texts[idx[k]]
  {
    seq(|idx|, k requires 0 <= k < |idx| => texts[idx[k]])
  }

  /** The record built for the cluster centered at c. */
  function MakeCluster(texts: seq<string>, sim: Score, th: real, id: nat, c: nat): Cluster
    requires c < |texts|
  {
    var members := Members(sim, th, |texts|, c);
    Cluster(id, TextsAt(texts, members), c, |members|)
  }

  /** The clusters of the centers below hi, in creation order; each id is the
      number of clusters made before it. */
  function RawClusters(texts: seq<string>, sim: Score, th: real, hi: nat): seq<Cluster>
    requires hi <= |texts|
  {
    if hi == 0 then []
    else
      var prev := RawClusters(texts, sim, th, hi - 1);
      if IsCenter(sim, th, hi - 1) then prev + [MakeCluster(texts, sim, th, |prev|, hi - 1)] else prev
  }

  function SizeKey(c: Cluster): real {
    c.size as real
  }

  function SizeOf(c: Cluster): int {
    c.size
  }

  /** clusterTexts: the clusters sorted by size, largest first. */
  function Clusters(texts: seq<string>, sim: Score, th: real): seq<Cluster> {
    SortDesc(RawClusters(texts, sim, th, |texts|), SizeKey)
  }

  function CentersOf(cs: seq<Cluster>): (r: seq<nat>)
    ensures |r| == |cs| && forall k :: 0 <= k < |cs| ==> r[k] == cs[k].centerIndex
  {
    seq(|cs|, k requires 0 <= k < |cs| => cs[k].centerIndex)
  }

  /** In creation order the k-th cluster has id k and is the record of a
      center below hi. */
  lemma {:induction false} RawClustersShape(texts: seq<string>, sim: Score, th: real, hi: nat)
    requires hi <= |texts|
    ensures forall k :: 0 <= k < |RawClusters(texts, sim, th, hi)| ==>
              RawClusters(texts, sim, th, hi)[k].centerIndex < hi &&
              IsCenter(sim, th, RawClusters(texts, sim, th, hi)[k].centerIndex) &&
              RawClusters(texts, sim, th, hi)[k] ==
                MakeCluster(texts, sim, th, k, RawClusters(texts, sim, th, hi)[k].centerIndex)
  {
    if hi > 0 {
      RawClustersShape(texts, sim, th, hi - 1);
      var prev := RawClusters(texts, sim, th, hi - 1);
      if IsCenter(sim, th, hi - 1) {
        var x := MakeCluster(texts, sim, th, |prev|, hi - 1);
        var raw := prev + [x];
        assert RawClusters(texts, sim, th, hi) == raw;
        forall k | 0 <= k < |raw|
          ensures raw[k].centerIndex < hi
          ensures IsCenter(sim, th, raw[k].centerIndex)
          ensures raw[k] == MakeCluster(texts, sim, th, k, raw[k].centerIndex)
        {
          if k < |prev| {
            assert raw[k] == prev[k];
          } else {
            assert raw[k] == x;
          }
        }
      }
    }
  }

  /** The centers increase along the creation order. */
  lemma {:induction false} RawCentersIncrease(texts: seq<string>, sim: Score, th: real, hi: nat)
    requires hi <= |texts|
    ensures forall k, m :: 0 <= k < m < |RawClusters(texts, sim, th, hi)| ==>
              RawClusters(texts, sim, th, hi)[k].centerIndex < RawClusters(texts, sim, th, hi)[m].centerIndex
  {
    if hi > 0 {
      RawCentersIncrease(texts, sim, th, hi - 1);
      RawClustersShape(texts, sim, th, hi - 1);
      var prev := RawClusters(texts, sim, th, hi - 1);
      if IsCenter(sim, th, hi - 1) {
        var x := MakeCluster(texts, sim, th, |prev|, hi - 1);
        assert RawClusters(texts, sim, th, hi) == prev + [x];
        assert x.centerIndex == hi - 1;
      }
    }
  }

  /** Every center below hi has a cluster. */
  lemma {:induction false} RawCentersComplete(texts: seq<string>, sim: Score, th: real, hi: nat)
    requires hi <= |texts|
    ensures forall c: nat :: c < hi && IsCenter(sim, th, c) ==> c in CentersOf(RawClusters(texts, sim, th, hi))
  {
    if hi > 0 {
      RawCentersComplete(texts, sim, th, hi - 1);
      var prev := RawClusters(texts, sim, th, hi - 1);
      var raw := RawClusters(texts, sim, th, hi);
      assert forall k :: 0 <= k < |prev| ==> raw[k] == prev[k];
      forall c: nat | c < hi && IsCenter(sim, th, c) ensures c in CentersOf(raw) {
        if c < hi - 1 {
          var k :| 0 <= k < |prev| && CentersOf(prev)[k] == c;
          assert CentersOf(raw)[k] == c;
        } else {
          assert CentersOf(raw)[|raw| - 1] == c;
        }
      }
    }
  }

  /** The number of texts in [lo, hi) already taken once the centers below c
      have been processed. */
  function CountTaken(sim: Score, th: real, c: nat, lo: nat, hi: nat): nat
    decreases hi
  {
    if hi <= lo then 0
    else CountTaken(sim, th, c, lo, hi - 1) + (if FirstOwner(sim, th, hi - 1, c).Some? then 1 else 0)
  }

  lemma {:induction false} CountTakenSplitLow(sim: Score, th: real, c: nat, lo: nat, hi: nat)
    requires lo < hi
    ensures CountTaken(sim, th, c, lo, hi) ==
            (if FirstOwner(sim, th, lo, c).Some? then 1 else 0) + CountTaken(sim, th, c, lo + 1, hi)
    decreases hi
  {
    if lo + 1 < hi {
      CountTakenSplitLow(sim, th, c, lo, hi - 1);
    }
  }

  /** Processing a center takes exactly the texts it takes. */
  lemma {:induction false} CountTakenCenterStep(sim: Score, th: real, i: nat, lo: nat, hi: nat)
    requires IsCenter(sim, th, i) && i < lo
    ensures CountTaken(sim, th, i + 1, lo, hi) == CountTaken(sim, th, i, lo, hi) + |Taken(sim, th, i, lo, hi)|
    decreases hi
  {
    if lo < hi {
      CountTakenCenterStep(sim, th, i, lo, hi - 1);
      OwnerBelow(sim, th, hi - 1, i);
    }
  }

  /** Passing over a text that is not a center takes nothing. */
  lemma {:induction false} CountTakenSkipStep(sim: Score, th: real, i: nat, lo: nat, hi: nat)
    requires !IsCenter(sim, th, i)
    ensures CountTaken(sim, th, i + 1, lo, hi) == CountTaken(sim, th, i, lo, hi)
    decreases hi
  {
    if lo < hi {
      CountTakenSkipStep(sim, th, i, lo, hi - 1);
    }
  }

  /** The clusters of the centers below i hold i texts plus those of the
      later texts already taken. */
  lemma {:induction false} RawSizes(texts: seq<string>, sim: Score, th: real, i: nat)
    requires i <= |texts|
    ensures SumBy(RawClusters(texts, sim, th, i), SizeOf) == i + CountTaken(sim, th, i, i, |texts|)
  {
    var n := |texts|;
    if i == 0 {
      CountTakenNone(sim, th, 0, n);
    } else {
      var j := i - 1;
      RawSizes(texts, sim, th, j);
      CountTakenSplitLow(sim, th, j, j, n);
      var prev := RawClusters(texts, sim, th, j);
      if IsCenter(sim, th, j) {
        var x := MakeCluster(texts, sim, th, |prev|, j);
        assert (prev + [x])[..|prev + [x]| - 1] == prev;
        CountTakenCenterStep(sim, th, j, i, n);
      } else {
        CountTakenSkipStep(sim, th, j, i, n);
      }
    }
  }

  lemma {:induction false} CountTakenNone(sim: Score, th: real, lo: nat, hi: nat)
    ensures CountTaken(sim, th, 0, lo, hi) == 0
    decreases hi
  {
    if lo < hi {
      CountTakenNone(sim, th, lo, hi - 1);
    }
  }

  /** The cluster sizes add up to the number of texts. */
  lemma ClusterSizesSumToCount(texts: seq<string>, sim: Score, th: real)
    ensures SumBy(Clusters(texts, sim, th), SizeOf) == |texts|
  {
    RawSizes(texts, sim, th, |texts|);
    SortDescSum(RawClusters(texts, sim, th, |texts|), SizeKey, SizeOf);
  }

  /** Each cluster listed is the record of a center: its texts are those of
      its members, center first, its size their number, its id below the
      number of clusters. */
  lemma ClustersWellFormed(texts: seq<string>, sim: Score, th: real)
    ensures forall k :: 0 <= k < |Clusters(texts, sim, th)| ==>
              var x := Clusters(texts, sim, th)[k];
              x.centerIndex < |texts| && IsCenter(sim, th, x.centerIndex) &&
              x.texts == TextsAt(texts, Members(sim, th, |texts|, x.centerIndex)) &&
              x.size == |x.texts| && x.texts[0] == texts[x.centerIndex] &&
              x.clusterId < |Clusters(texts, sim, th)|
  {
    var raw := RawClusters(texts, sim, th, |texts|);
    var cs := Clusters(texts, sim, th);
    RawClustersShape(texts, sim, th, |texts|);
    forall k | 0 <= k < |cs|
      ensures cs[k].centerIndex < |texts| && IsCenter(sim, th, cs[k].centerIndex)
      ensures cs[k] == MakeCluster(texts, sim, th, cs[k].clusterId, cs[k].centerIndex)
      ensures cs[k].clusterId < |cs|
    {
      assert cs[k] in multiset(raw);
      var m :| 0 <= m < |raw| && raw[m] == cs[k];
    }
  }

  /** Every center has a cluster. */
  lemma ClustersCoverCenters(texts: seq<string>, sim: Score, th: real)
    ensures forall c: nat :: c < |texts| && IsCenter(sim, th, c) ==> c in CentersOf(Clusters(texts, sim, th))
  {
    var raw := RawClusters(texts, sim, th, |texts|);
    var cs := Clusters(texts, sim, th);
    RawCentersComplete(texts, sim, th, |texts|);
    forall c: nat | c < |texts| && IsCenter(sim, th, c) ensures c in CentersOf(cs) {
      var a :| 0 <= a < |raw| && CentersOf(raw)[a] == c;
      assert raw[a] in multiset(cs);
      var k :| 0 <= k < |cs| && cs[k] == raw[a];
      assert CentersOf(cs)[k] == c;
    }
  }

  /** Each listed cluster is one of the clusters in creation order. */
  lemma ClusterFromRaw(texts: seq<string>, sim: Score, th: real, k: nat) returns (a: nat)
    requires k < |Clusters(texts, sim, th)|
    ensures a < |RawClusters(texts, sim, th, |texts|)|
    ensures RawClusters(texts, sim, th, |texts|)[a] == Clusters(texts, sim, th)[k]
  {
    var raw := RawClusters(texts, sim, th, |texts|);
    var cs := Clusters(texts, sim, th);
    assert cs[k] in multiset(raw);
    a :| 0 <= a < |raw| && raw[a] == cs[k];
  }

  lemma ClustersNoDuplicates(texts: seq<string>, sim: Score, th: real)
    ensures NoDuplicates(Clusters(texts, sim, th))
  {
    var raw := RawClusters(texts, sim, th, |texts|);
    RawCentersIncrease(texts, sim, th, |texts|);
    assert NoDuplicates(raw) by {
      forall a, b | 0 <= a < b < |raw| ensures raw[a] != raw[b] {
        assert raw[a].centerIndex < raw[b].centerIndex;
      }
    }
    PermutationKeepsDistinct(raw, Clusters(texts, sim, th));
  }

  /** No two clusters share a center. */
  lemma ClustersDistinctCenters(texts: seq<string>, sim: Score, th: real)
    ensures forall k, m :: 0 <= k < m < |Clusters(texts, sim, th)| ==>
              Clusters(texts, sim, th)[k].centerIndex != Clusters(texts, sim, th)[m].centerIndex
  {
    var raw := RawClusters(texts, sim, th, |texts|);
    var cs := Clusters(texts, sim, th);
    RawCentersIncrease(texts, sim, th, |texts|);
    ClustersNoDuplicates(texts, sim, th);
    forall k, m | 0 <= k < m < |cs| ensures cs[k].centerIndex != cs[m].centerIndex {
      var a := ClusterFromRaw(texts, sim, th, k);
      var b := ClusterFromRaw(texts, sim, th, m);
      if a < b {
        assert raw[a].centerIndex < raw[b].centerIndex;
      } else if b < a {
        assert raw[b].centerIndex < raw[a].centerIndex;
      }
    }
  }

  /** No two clusters share an id. */
  lemma ClustersDistinctIds(texts: seq<string>, sim: Score, th: real)
    ensures forall k, m :: 0 <= k < m < |Clusters(texts, sim, th)| ==>
              Clusters(texts, sim, th)[k].clusterId != Clusters(texts, sim, th)[m].clusterId
  {
    var raw := RawClusters(texts, sim, th, |texts|);
    var cs := Clusters(texts, sim, th);
    RawClustersShape(texts, sim, th, |texts|);
    ClustersNoDuplicates(texts, sim, th);
    forall k, m | 0 <= k < m < |cs| ensures cs[k].clusterId != cs[m].clusterId {
      var a := ClusterFromRaw(texts, sim, th, k);
      var b := ClusterFromRaw(texts, sim, th, m);
      assert raw[a].clusterId == a && raw[b].clusterId == b;
    }
  }

  /** Every text lies in the member list of exactly one listed cluster: that
      of its owner. */
  lemma EveryTextInOneCluster(texts: seq<string>, sim: Score, th: real, j: nat)
    requires j < |texts|
    ensures Owner(sim, th, j) in CentersOf(Clusters(texts, sim, th))
    ensures forall k :: 0 <= k < |Clusters(texts, sim, th)| ==>
              (j in Members(sim, th, |texts|, Clusters(texts, sim, th)[k].centerIndex) <==>
               Clusters(texts, sim, th)[k].centerIndex == Owner(sim, th, j))
  {
    var cs := Clusters(texts, sim, th);
    OwnerIsFirstSimilarCenter(sim, th, j);
    ClustersCoverCenters(texts, sim, th);
    ClustersWellFormed(texts, sim, th);
    forall k | 0 <= k < |cs|
      ensures j in Members(sim, th, |texts|, cs[k].centerIndex) <==> cs[k].centerIndex == Owner(sim, th, j)
    {
      MembersAreOwned(sim, th, |texts|, cs[k].centerIndex, j);
    }
  }

  /** No texts, no clusters. */
  lemma NoTextsNoClusters(sim: Score, th: real)
    ensures Clusters([], sim, th) == []
  {
  }

  /** The inner loop: center i takes every later untaken text similar
      enough to it, marking each one used. */
  method GrowCluster(used: array<bool>, sim: Score, th: real, i: nat) returns (cluster: seq<nat>)
    requires i < used.Length && IsCenter(sim, th, i)
    requires forall k :: 0 <= k < used.Length ==> used[k] == (k <= i || FirstOwner(sim, th, k, i).Some?)
    modifies used
    ensures cluster == Members(sim, th, used.Length, i)
    ensures forall k :: 0 <= k < used.Length ==> used[k] == (k <= i || FirstOwner(sim, th, k, i + 1).Some?)
  {
    cluster := [i];
    var j := i + 1;
    while j < used.Length
      invariant i + 1 <= j <= used.Length
      invariant cluster == [i] + Taken(sim, th, i, i + 1, j)
      invariant forall k :: 0 <= k < used.Length ==>
                  used[k] == (k <= i || (k < j && FirstOwner(sim, th, k, i + 1).Some?) ||
                              (j <= k && FirstOwner(sim, th, k, i).Some?))
    {
      OwnerBelow(sim, th, j, i);
      if !used[j] {
        if sim(i, j) >= th {
          cluster := cluster + [j];
          used[j] := true;
        }
      }
      j := j + 1;
    }
  }

  /** Passing over a taken text changes no owner. */
  lemma SkipKeepsOwners(sim: Score, th: real, i: nat)
    requires !IsCenter(sim, th, i)
    ensures forall k: nat :: FirstOwner(sim, th, k, i + 1) == FirstOwner(sim, th, k, i)
  {
  }

  /** One step of the outer loop on the cluster list. */
  lemma RawClustersStep(texts: seq<string>, sim: Score, th: real, i: nat)
    requires i < |texts|
    ensures RawClusters(texts, sim, th, i + 1) ==
            if IsCenter(sim, th, i) then
              RawClusters(texts, sim, th, i) + [Cluster(|RawClusters(texts, sim, th, i)|,
                TextsAt(texts, Members(sim, th, |texts|, i)), i, |Members(sim, th, |texts|, i)|)]
            else RawClusters(texts, sim, th, i)
  {
  }

  /** clusterTexts: the greedy pass over the texts in order, then the sort
      by size. */
  method ClusterTexts(texts: seq<string>, sim: Score, similarityThreshold: real) returns (result: seq<Cluster>)
    ensures result == Clusters(texts, sim, similarityThreshold)
    ensures SortedDesc(result, SizeKey)
    ensures SumBy(result, SizeOf) == |texts|
  {
    var th := similarityThreshold;
    var n := |texts|;
    var used := new bool[n](_ => false);
    var clusters: seq<Cluster> := [];
    var i := 0;
    while i < n
      invariant 0 <= i <= n && used.Length == n
      invariant clusters == RawClusters(texts, sim, th, i)
      invariant forall k :: 0 <= k < n ==> used[k] == (k < i || FirstOwner(sim, th, k, i).Some?)
    {
      RawClustersStep(texts, sim, th, i);
      if !used[i] {
        used[i] := true;
        var cluster := GrowCluster(used, sim, th, i);
        clusters := clusters + [Cluster(|clusters|, TextsAt(texts, cluster), i, |cluster|)];
      } else {
        SkipKeepsOwners(sim, th, i);
      }
      i := i + 1;
    }
    result := SortDesc(clusters, SizeKey);
    ClusterSizesSumToCount(texts, sim, th);
  }
}
