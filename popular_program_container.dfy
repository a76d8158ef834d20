/**
 * `PopularProgramContainer`: known programs grouped into ten popularity
 * clusters (0 = unused by other programs ... 9 = used by many), and the ways
 * a seed program is drawn from them.
 *
 * The random number generator is not modelled: every draw it would make is a
 * parameter (a raw natural number), reduced to the requested range the way
 * `gen_range` and `choose` do.
 */
module PopularProgramContainer {
  import opened Wrappers
  import opened Arithmetic

  type U8 = x: int | 0 <= x < 0x100
  type U32 = x: int | 0 <= x < 0x1_0000_0000

  const NumberOfClusters: U8 := 10

  /** One row of `program_popularity.csv`. */
  datatype Record = Record(programId: U32, popularityClusterId: U8)

  datatype ProgramPopularityError = PopularityClusterIdOutOfBounds

  /** `cluster_program_ids[k]` holds the program ids of cluster k. */
  datatype PopularProgramContainer = PopularProgramContainer(clusterProgramIds: seq<seq<U32>>)

  /** The program ids of the records in cluster k, in input order. */
  function ProgramIdsInCluster(records: seq<Record>, k: int): (ids: seq<U32>)
    ensures |ids| <= |records|
  {
    if records == [] then []
    else
      var last := records[|records| - 1];
      ProgramIdsInCluster(records[..|records| - 1], k) + (if last.popularityClusterId == k then [last.programId] else [])
  }

  /** All program ids, in input order. */
  function ProgramIds(records: seq<Record>): (ids: seq<U32>)
    ensures |ids| == |records|
  {
    if records == [] then [] else ProgramIds(records[..|records| - 1]) + [records[|records| - 1].programId]
  }

  predicate AllClusterIdsBelow(records: seq<Record>, n: int)
  {
    forall i :: 0 <= i < |records| ==> records[i].popularityClusterId < n
  }

  /**
   * `convert_records_to_clusters`: fails iff some record names a cluster id
   * of 10 or more; otherwise returns exactly ten buckets, bucket k holding the
   * program ids of the records in cluster k in input order.
   */
  method ConvertRecordsToClusters(records: seq<Record>) returns (r: Result<PopularProgramContainer, ProgramPopularityError>)
    ensures r.Failure? <==> !AllClusterIdsBelow(records, NumberOfClusters)
    ensures r.Failure? ==> r.error == PopularityClusterIdOutOfBounds
    ensures r.Success? ==> |r.value.clusterProgramIds| == NumberOfClusters
    ensures r.Success? ==> forall k :: 0 <= k < NumberOfClusters ==>
              r.value.clusterProgramIds[k] == ProgramIdsInCluster(records, k)
  {
    // Ensure there isn't too many clusters
    var maxClusterId: U8 := 0;
    for i := 0 to |records|
      invariant AllClusterIdsBelow(records[..i], maxClusterId + 1)
      invariant maxClusterId == 0 || exists j :: 0 <= j < i && records[j].popularityClusterId == maxClusterId
    {
      if maxClusterId < records[i].popularityClusterId {
        maxClusterId := records[i].popularityClusterId;
      }
    }
    assert records[..|records|] == records;
    if maxClusterId >= NumberOfClusters {
      return Failure(PopularityClusterIdOutOfBounds);
    }

    // Identify program_ids for each cluster
    var clusters: seq<seq<U32>> := [];
    for clusterId := 0 to NumberOfClusters
      invariant |clusters| == clusterId
      invariant forall k :: 0 <= k < clusterId ==> clusters[k] == ProgramIdsInCluster(records, k)
    {
      var programIds: seq<U32> := [];
      for i := 0 to |records|
        invariant programIds == ProgramIdsInCluster(records[..i], clusterId)
      {
        assert records[..i + 1][..i] == records[..i];
        if records[i].popularityClusterId == clusterId {
          programIds := programIds + [records[i].programId];
        }
      }
      clusters := clusters + [programIds];
    }
    r := Success(PopularProgramContainer(clusters));
  }

  /** Sum over clusters 0..n-1 of the bucket contents, as a multiset. */
  function ClustersUnion(records: seq<Record>, n: nat): multiset<U32>
  {
    if n == 0 then multiset{} else ClustersUnion(records, n - 1) + multiset(ProgramIdsInCluster(records, n - 1))
  }

  /** Adding one record adds its program id to the union of the clusters that cover it. */
  lemma {:induction false} ClustersUnionAppend(records: seq<Record>, last: Record, n: nat)
    ensures ClustersUnion(records + [last], n) ==
              ClustersUnion(records, n) + (if last.popularityClusterId < n then multiset{last.programId} else multiset{})
  {
    var extended := records + [last];
    assert extended[..|extended| - 1] == records;
    if n > 0 {
      ClustersUnionAppend(records, last, n - 1);
    }
  }

  lemma {:induction false} ClustersUnionOfNoRecords(n: nat)
    ensures ClustersUnion([], n) == multiset{}
  {
    if n > 0 {
      ClustersUnionOfNoRecords(n - 1);
    }
  }

  /**
   * Conservation: when every cluster id is below n, the first n buckets hold
   * every record's program id exactly once.
   */
  lemma {:induction false} ClustersConserveRecords(records: seq<Record>, n: nat)
    requires AllClusterIdsBelow(records, n)
    ensures ClustersUnion(records, n) == multiset(ProgramIds(records))
  {
    if records == [] {
      ClustersUnionOfNoRecords(n);
    } else {
      var init := records[..|records| - 1];
      var last := records[|records| - 1];
      assert init + [last] == records;
      assert AllClusterIdsBelow(init, n) by {
        forall i | 0 <= i < |init| ensures init[i].popularityClusterId < n {
          assert init[i] == records[i];
        }
      }
      ClustersConserveRecords(init, n);
      ClustersUnionAppend(init, last, n);
      assert last.popularityClusterId < n;
      calc {
        ClustersUnion(records, n);
        ClustersUnion(init, n) + multiset{last.programId};
        multiset(ProgramIds(init)) + multiset{last.programId};
        multiset(ProgramIds(init) + [last.programId]);
        { assert ProgramIds(records) == ProgramIds(init) + [last.programId]; }
        multiset(ProgramIds(records));
      }
    }
  }

  /** Sum over clusters 0..n-1 of the bucket sizes. */
  function ClusterSizes(records: seq<Record>, n: nat): nat
  {
    if n == 0 then 0 else ClusterSizes(records, n - 1) + |ProgramIdsInCluster(records, n - 1)|
  }

  lemma {:induction false} ClusterSizesCountUnion(records: seq<Record>, n: nat)
    ensures ClusterSizes(records, n) == |ClustersUnion(records, n)|
  {
    if n > 0 {
      ClusterSizesCountUnion(records, n - 1);
      var bucket := multiset(ProgramIdsInCluster(records, n - 1));
      var before := ClustersUnion(records, n - 1);
      assert ClustersUnion(records, n) == before + bucket;
      assert |before + bucket| == |before| + |bucket|;
    }
  }

  /** On a successful load the ten bucket sizes add up to the number of records. */
  lemma ClusterSizesSumToRecordCount(records: seq<Record>)
    requires AllClusterIdsBelow(records, NumberOfClusters)
    ensures ClusterSizes(records, NumberOfClusters) == |records|
  {
    ClusterSizesCountUnion(records, NumberOfClusters);
    ClustersConserveRecords(records, NumberOfClusters);
  }

  /** A program id is in bucket k iff some record with that id declares cluster k. */
  lemma {:induction false} ProgramIdsInClusterMembership(records: seq<Record>, k: int, id: U32)
    ensures id in ProgramIdsInCluster(records, k) <==>
              exists i :: 0 <= i < |records| && records[i].programId == id && records[i].popularityClusterId == k
  {
    if records != [] {
      var init := records[..|records| - 1];
      ProgramIdsInClusterMembership(init, k, id);
      if exists i :: 0 <= i < |records| && records[i].programId == id && records[i].popularityClusterId == k {
        var i :| 0 <= i < |records| && records[i].programId == id && records[i].popularityClusterId == k;
        if i < |init| {
          assert init[i] == records[i];
        }
      }
      if id in ProgramIdsInCluster(init, k) {
        var i :| 0 <= i < |init| && init[i].programId == id && init[i].popularityClusterId == k;
        assert records[i] == init[i];
      }
    }
  }

  /** `rng.gen_range(low..high)` for a raw draw: a value in [low, high). */
  function GenRange(low: int, high: int, draw: nat): (r: int)
    requires low < high
    ensures low <= r < high
  {
    low + draw % (high - low)
  }

  /** Every value of the range is produced by some draw. */
  lemma GenRangeCovers(low: int, high: int, v: int)
    requires low <= v < high
    ensures GenRange(low, high, (v - low) as nat) == v
  {
  }

  /**
   * `choose_from_cluster`: no program when the bucket is empty, otherwise a
   * member of the bucket picked by `draw` (`choose` on the bucket's slice).
   */
  function ChooseFromCluster(container: PopularProgramContainer, draw: nat, clusterId: U8): (r: Option<U32>)
    requires |container.clusterProgramIds| == NumberOfClusters as int
    requires clusterId < |container.clusterProgramIds|
    ensures r.None? <==> container.clusterProgramIds[clusterId] == []
    ensures r.Some? ==> r.value in container.clusterProgramIds[clusterId]
  {
    var programIds := container.clusterProgramIds[clusterId];
    if programIds == [] then None
    else Some(programIds[GenRange(0, |programIds|, draw)])
  }

  /** Every member of a bucket can be the one chosen from it. */
  lemma ChooseFromClusterReachesEveryMember(container: PopularProgramContainer, clusterId: U8, id: U32)
    requires |container.clusterProgramIds| == NumberOfClusters as int
    requires clusterId < NumberOfClusters
    requires id in container.clusterProgramIds[clusterId]
    ensures exists draw: nat :: ChooseFromCluster(container, draw, clusterId) == Some(id)
  {
    var programIds := container.clusterProgramIds[clusterId];
    var j :| 0 <= j < |programIds| && programIds[j] == id;
    GenRangeCovers(0, |programIds|, j);
    assert ChooseFromCluster(container, j, clusterId) == Some(id);
  }

  /** `choose_most_popular`: draws from cluster 9. */
  function ChooseMostPopular(container: PopularProgramContainer, draw: nat): (r: Option<U32>)
    requires |container.clusterProgramIds| == NumberOfClusters as int
    ensures r.None? <==> container.clusterProgramIds[9] == []
    ensures r.Some? ==> r.value in container.clusterProgramIds[9]
  {
    ChooseFromCluster(container, draw, 9)
  }

  /** The cluster `choose_medium_popular` draws from: `gen_range(1..8)`, so 1 to 7 and never 8. */
  function MediumClusterId(clusterDraw: nat): (k: U8)
    ensures 1 <= k <= 7
  {
    GenRange(1, 8, clusterDraw)
  }

  /** `choose_medium_popular`: draws from one of the clusters 1 to 7. */
  function ChooseMediumPopular(container: PopularProgramContainer, clusterDraw: nat, draw: nat): (r: Option<U32>)
    requires |container.clusterProgramIds| == NumberOfClusters as int
    ensures r.None? <==> container.clusterProgramIds[MediumClusterId(clusterDraw)] == []
    ensures r.Some? ==> r.value in container.clusterProgramIds[MediumClusterId(clusterDraw)]
  {
    ChooseFromCluster(container, draw, MediumClusterId(clusterDraw))
  }

  /** `choose_least_popular`: draws from cluster 0. */
  function ChooseLeastPopular(container: PopularProgramContainer, draw: nat): (r: Option<U32>)
    requires |container.clusterProgramIds| == NumberOfClusters as int
    ensures r.None? <==> container.clusterProgramIds[0] == []
    ensures r.Some? ==> r.value in container.clusterProgramIds[0]
  {
    ChooseFromCluster(container, draw, 0)
  }

  /** The `(cluster_id, weight)` table of `choose_weighted_by_popularity`. */
  const ClusterWeights: seq<(U8, nat)> := [
    (0, 1), (1, 2), (2, 4), (3, 8), (4, 16), (5, 32), (6, 64), (7, 128), (8, 256), (9, 512)
  ]

  /** The table has one entry per cluster, in cluster order, and cluster i weighs 2^i. */
  lemma ClusterWeightsArePowersOfTwo()
    ensures |ClusterWeights| == NumberOfClusters as int
    ensures forall i :: 0 <= i < |ClusterWeights| ==> ClusterWeights[i] == (i, Pow2(i))
  {
    assert Pow2(9) == 512;
  }

  /** Sum of the weights of the first n entries. */
  function CumulativeWeight(items: seq<(U8, nat)>, n: nat): nat
    requires n <= |items|
  {
    if n == 0 then 0 else CumulativeWeight(items, n - 1) + items[n - 1].1
  }

  /**
   * `choose_weighted`: the entry whose cumulative-weight interval contains the
   * point (a uniform draw in [0, total weight) in the source).
   */
  function WeightedIndex(items: seq<(U8, nat)>, point: nat): (i: nat)
    requires point < CumulativeWeight(items, |items|)
    ensures i < |items|
    ensures CumulativeWeight(items, i) <= point < CumulativeWeight(items, i + 1)
    decreases |items|
  {
    var init := items[..|items| - 1];
    CumulativeWeightPrefix(items, init, |init|);
    if point < CumulativeWeight(init, |init|) then
      var i := WeightedIndex(init, point);
      CumulativeWeightPrefix(items, init, i + 1);
      CumulativeWeightPrefix(items, init, i);
      i
    else
      |items| - 1
  }

  /** The cumulative weight of the first n entries depends on those entries only. */
  lemma {:induction false} CumulativeWeightPrefix(items: seq<(U8, nat)>, other: seq<(U8, nat)>, n: nat)
    requires n <= |items| && n <= |other| && items[..n] == other[..n]
    ensures CumulativeWeight(items, n) == CumulativeWeight(other, n)
  {
    if n > 0 {
      assert items[n - 1] == items[..n][n - 1] == other[..n][n - 1] == other[n - 1];
      assert items[..n - 1] == items[..n][..n - 1] == other[..n][..n - 1] == other[..n - 1];
      CumulativeWeightPrefix(items, other, n - 1);
    }
  }

  lemma ClusterWeightsCumulative(n: nat)
    requires n <= |ClusterWeights|
    ensures CumulativeWeight(ClusterWeights, n) == Pow2(n) - 1
  {
    ClusterWeightsArePowersOfTwo();
    if n > 0 {
      ClusterWeightsCumulative(n - 1);
    }
  }

  const TotalClusterWeight: nat := 1023

  /** The cluster `choose_weighted_by_popularity` draws from, for a raw draw. */
  function WeightedClusterId(weightDraw: nat): (k: U8)
    ensures k < NumberOfClusters
    ensures Pow2(k) - 1 <= weightDraw % TotalClusterWeight < Pow2(k + 1) - 1
  {
    ClusterWeightsCumulative(|ClusterWeights|);
    ClusterWeightsArePowersOfTwo();
    var i := WeightedIndex(ClusterWeights, weightDraw % TotalClusterWeight);
    ClusterWeightsCumulative(i);
    ClusterWeightsCumulative(i + 1);
    ClusterWeights[i].0
  }

  /**
   * Cluster k is chosen by exactly the points of an interval of width 2^k out
   * of the 1023 possible ones: the weights 1, 2, 4, ..., 512.
   */
  lemma WeightedClusterIdInterval(weightDraw: nat, k: nat)
    requires k < NumberOfClusters
    ensures WeightedClusterId(weightDraw) == k <==>
              Pow2(k) - 1 <= weightDraw % TotalClusterWeight < Pow2(k) - 1 + Pow2(k)
  {
    var c := WeightedClusterId(weightDraw);
    if c < k {
      Pow2Monotone(c + 1, k);
    } else if k < c {
      Pow2Monotone(k + 1, c);
    }
  }

  /**
   * `choose_weighted_by_popularity`: picks a cluster by weight; no program if
   * that cluster is empty, otherwise a member of it.
   */
  function ChooseWeightedByPopularity(container: PopularProgramContainer, weightDraw: nat, draw: nat): (r: Option<U32>)
    requires |container.clusterProgramIds| == NumberOfClusters as int
    ensures r.None? <==> container.clusterProgramIds[WeightedClusterId(weightDraw)] == []
    ensures r.Some? ==> r.value in container.clusterProgramIds[WeightedClusterId(weightDraw)]
  {
    var programIds := container.clusterProgramIds[WeightedClusterId(weightDraw)];
    if programIds == [] then None
    else Some(programIds[GenRange(0, |programIds|, draw)])
  }

  /** Appending a record extends its own cluster's bucket by its id and leaves the others alone. */
  lemma ProgramIdsInClusterAppend(records: seq<Record>, last: Record)
    ensures forall k :: ProgramIdsInCluster(records + [last], k) ==
              ProgramIdsInCluster(records, k) + (if last.popularityClusterId == k then [last.programId] else [])
  {
    assert (records + [last])[..|records|] == records;
  }

  /** The test of a successful load: bucket sizes 3, 1 and 2 for clusters 0, 4 and 9. */
  method ConvertRecordsToClustersExample() returns (r: Result<PopularProgramContainer, ProgramPopularityError>)
    ensures r.Success? && |r.value.clusterProgramIds| == 10
    ensures r.value.clusterProgramIds[0] == [101, 102, 103]
    ensures r.value.clusterProgramIds[4] == [301]
    ensures r.value.clusterProgramIds[9] == [901, 902]
  {
    var records := [Record(101, 0), Record(102, 0), Record(103, 0), Record(301, 4), Record(901, 9), Record(902, 9)];
    ProgramIdsInClusterAppend([], records[0]);
    ProgramIdsInClusterAppend(records[..1], records[1]);
    ProgramIdsInClusterAppend(records[..2], records[2]);
    ProgramIdsInClusterAppend(records[..3], records[3]);
    ProgramIdsInClusterAppend(records[..4], records[4]);
    ProgramIdsInClusterAppend(records[..5], records[5]);
    assert [] + [records[0]] == records[..1];
    assert records[..1] + [records[1]] == records[..2];
    assert records[..2] + [records[2]] == records[..3];
    assert records[..3] + [records[3]] == records[..4];
    assert records[..4] + [records[4]] == records[..5];
    assert records[..5] + [records[5]] == records;
    assert AllClusterIdsBelow(records, NumberOfClusters);
    r := ConvertRecordsToClusters(records);
  }

  /** The test of a failing load: cluster id 10 is refused. */
  method ConvertRecordsToClustersOutOfBoundsExample() returns (r: Result<PopularProgramContainer, ProgramPopularityError>)
    ensures r == Failure(PopularityClusterIdOutOfBounds)
  {
    var records := [Record(666, 10)];
    assert records[0].popularityClusterId == 10;
    r := ConvertRecordsToClusters(records);
  }
}
