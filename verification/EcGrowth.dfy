/** Growing a store in place, up to the advertised ten times its creation size. */
module EcGrowth {
  import opened EcGeometry
  import opened EcFixpoint
  import opened EcShard
  import Spdk = SpdkReplay

  /** A store created for `volume` and grown to the device sized for ten times `volume`. */
  ghost predicate GrowsTenfold(volume: nat, k: nat, stripKB: nat)
    requires volume > 0 && k > 0 && stripKB > 0
  {
    UsableCoversBacking(volume, k, stripKB);
    UsableCoversBacking(10 * volume, k, stripKB);
    Spdk.CreateThenGrow(UsableSize(volume, k, stripKB), UsableSize(10 * volume, k, stripKB), 10 * volume)
  }

  ghost predicate TenfoldMaskFits(volume: nat, k: nat, stripKB: nat)
    requires volume > 0 && k > 0 && stripKB > 0
  {
    Spdk.MaskRegion(Clusters(10 * volume, k, stripKB)) <= Spdk.ClusterMaskRegion(Clusters(volume, k, stripKB))
  }

  /** The page budget frozen at creation, and the clusters left beside the frozen metadata
      region, both cover ten times the volume. */
  lemma FrozenBudgetCoversTenfold(volume: nat, k: nat, stripKB: nat)
    requires volume > 0 && k > 0 && stripKB > 0
    ensures Spdk.MdLen(Clusters(volume, k, stripKB)) >= CeilDiv(10 * volume, CLUSTER)
    ensures Clusters(10 * volume, k, stripKB) - Spdk.CarvedClusters(Clusters(volume, k, stripKB))
         >= CeilDiv(10 * volume, CLUSTER)
  {
    hide UsableSize, IsLeastSettled, BelowSufficient, MetadataClusters;
    var created, grown := Clusters(volume, k, stripKB), Clusters(10 * volume, k, stripKB);
    var m := ClustersCoverDataAndMetadata(volume, k, stripKB);
    TenfoldCeil(volume);
    DataClustersSuffice(10 * volume, k, stripKB);
    UsableMonotone(volume, 10 * volume, k, stripKB);
    assert created <= grown;
    Spdk.CarveAgrees(created);
    Spdk.CarveAgrees(grown);
    MetadataClustersMonotone(created, grown);
  }

  lemma TenfoldCeil(volume: nat)
    ensures CeilDiv(10 * volume, CLUSTER) <= 10 * CeilDiv(volume, CLUSTER)
  {}

  /** Growth to ten times succeeds exactly when the grown cluster mask fits its region. */
  lemma GrowsTenfoldIffMaskFits(volume: nat, k: nat, stripKB: nat)
    requires volume > 0 && k > 0 && stripKB > 0
    ensures GrowsTenfold(volume, k, stripKB) <==> TenfoldMaskFits(volume, k, stripKB)
  {
    FrozenBudgetCoversTenfold(volume, k, stripKB);
  }

  lemma MaskFitsWithinTenfold(created: nat, grown: nat)
    requires grown <= 10 * created
    ensures Spdk.MaskRegion(grown) <= Spdk.ClusterMaskRegion(created)
  {
    assert Spdk.MdLen(created) == 10 * created;
  }

  /** The ceiling of the creation size itself: a device grown to at most ten times the
      clusters it was created with backs whatever fits beside the frozen metadata. */
  lemma TenfoldOfCreationSizeGrows(created: nat, grown: nat, head: nat)
    requires grown / CLUSTER <= 10 * (created / CLUSTER)
    ensures Spdk.CreateThenGrow(created, grown, head)
       <==> grown / CLUSTER - Spdk.CarvedClusters(created / CLUSTER) >= CeilDiv(head, CLUSTER)
  {
    MaskFitsWithinTenfold(created / CLUSTER, grown / CLUSTER);
    assert Spdk.MdLen(created / CLUSTER) == 10 * (created / CLUSTER);
    hide Spdk.MaskRegion, Spdk.ClusterMaskRegion, Spdk.MdLen, Spdk.CarvedClusters;
  }

  /** Sizes and data disks for which growth to ten times is guaranteed: whole-cluster
      volumes on up to 20 data disks, 2 MiB-aligned volumes on up to 10. */
  lemma GrowsTenfoldGuaranteed(volume: nat, k: nat, stripKB: nat)
    requires volume > 0 && k > 0 && stripKB > 0
    requires 10 * (volume % CLUSTER) + k * SHARD_ALIGNMENT <= 10 * CLUSTER
    ensures GrowsTenfold(volume, k, stripKB)
  {
    GrowsTenfoldIffMaskFits(volume, k, stripKB);
    GrownWithinTenfold(volume, k, stripKB);
    MaskFitsWithinTenfold(Clusters(volume, k, stripKB), Clusters(10 * volume, k, stripKB));
  }

  lemma GrownWithinTenfold(volume: nat, k: nat, stripKB: nat)
    requires volume > 0 && k > 0 && stripKB > 0
    requires 10 * (volume % CLUSTER) + k * SHARD_ALIGNMENT <= 10 * CLUSTER
    ensures Clusters(10 * volume, k, stripKB) <= 10 * Clusters(volume, k, stripKB)
  {
    hide UsableSize, IsLeastSettled, BelowSufficient, MetadataClusters, CeilDiv;
    var m := ClustersCoverDataAndMetadata(volume, k, stripKB);
    LeastSettledTenfold(volume);
    UsableCoversBacking(10 * volume, k, stripKB);
    GrownClusters(UsableSize(10 * volume, k, stripKB), volume, m, k * SHARD_ALIGNMENT);
  }

  lemma GrownClusters(usable: nat, volume: nat, m: nat, slack: nat)
    requires usable < 10 * volume + (10 * m + 1) * CLUSTER + slack
    requires 10 * (volume % CLUSTER) + slack <= 10 * CLUSTER
    ensures usable / CLUSTER <= 10 * (volume / CLUSTER + m + 1)
  {
    assert volume == (volume / CLUSTER) * CLUSTER + volume % CLUSTER;
  }

  /** Without that guard the ceiling can be missed: a 38910 MiB volume on 15 data disks
      with 16 KiB strips gets 9824 clusters at creation and needs 98242 when grown, two
      more than ten times as many, and its cluster mask takes a page more than reserved. */
  lemma TenfoldCanBeRefused()
    ensures 40800092160 % SHARD_ALIGNMENT == 0 && ValidStrip(16)
    ensures Clusters(40800092160, 15, 16) == 9824 && Clusters(408000921600, 15, 16) == 98242
    ensures !GrowsTenfold(40800092160, 15, 16)
  {
    hide Clusters, GrowsTenfold;
    ExampleAtCreation();
    ExampleGrown();
    RefusedAt(40800092160, 15, 16);
  }

  lemma RefusedAt(volume: nat, k: nat, stripKB: nat)
    requires volume > 0 && k > 0 && stripKB > 0
    requires Clusters(volume, k, stripKB) == 9824 && Clusters(10 * volume, k, stripKB) == 98242
    ensures !GrowsTenfold(volume, k, stripKB)
  {
    hide Clusters, GrowsTenfold, Spdk.MaskRegion, Spdk.ClusterMaskRegion;
    GrowsTenfoldIffMaskFits(volume, k, stripKB);
    ExampleMasks();
  }

  lemma ExampleMasks()
    ensures Spdk.MaskRegion(98242) > Spdk.ClusterMaskRegion(9824)
  {}

  lemma ExampleAtCreation()
    ensures Clusters(40800092160, 15, 16) == 9824
  {
    hide MetadataBytesFor, ShardFor, Clusters, IsLeastSettled, BelowSufficient;
    Charge(40800092160, 9728, 96);
    Charge(40800092160 + 402653184, 9824, 96);
    SettledAfterTwoRounds(40800092160, 402653184, 402653184);
    ShardIs(41206939648, 15, 33587200, 2780823552);
    ExampleClusters(40800092160, 402653184, 2780823552, 9824);
  }

  lemma ExampleGrown()
    ensures Clusters(408000921600, 15, 16) == 98242
  {
    hide MetadataBytesFor, ShardFor, Clusters, IsLeastSettled, BelowSufficient;
    Charge(408000921600, 97275, 951);
    Charge(408000921600 + 3988783104, 98226, 960);
    Charge(408000921600 + 4026531840, 98235, 960);
    SettledAfterTwoRounds(408000921600, 3988783104, 4026531840);
    ShardIs(412031647744, 15, 33587200, 27504148480);
    ExampleClusters(408000921600, 4026531840, 27504148480, 98242);
  }

  /** Evaluates one metadata charge from the cluster count and the page count. */
  lemma Charge(bytes: nat, clusters: nat, metadata: nat)
    requires (clusters - 1) * CLUSTER < bytes <= clusters * CLUSTER
    requires (metadata - 1) * 1024 < 1 + 3 * Spdk.MaskRegion(10 * clusters) + 10 * clusters <= metadata * 1024
    ensures MetadataBytesFor(bytes) == metadata * CLUSTER
  {
    assert CeilDiv(bytes, CLUSTER) == clusters;
    assert MetadataClusters(clusters) == metadata by { ChargedClusters(clusters, metadata); }
    hide MetadataClusters;
  }

  lemma ChargedClusters(clusters: nat, metadata: nat)
    requires (metadata - 1) * 1024 < 1 + 3 * Spdk.MaskRegion(10 * clusters) + 10 * clusters <= metadata * 1024
    ensures MetadataClusters(clusters) == metadata
  {
    hide MetadataClusters, MaskPages;
    Spdk.CarveAgrees(clusters);
    assert Spdk.MdLen(clusters) == 10 * clusters;
    assert Spdk.MaskRegion(clusters) <= Spdk.MaskRegion(10 * clusters);
    hide Spdk.MaskRegion, Spdk.MdLen;
  }

  /** Evaluates the shard formula: the aligned size that covers where one unit less does not. */
  lemma ShardIs(backing: nat, k: nat, front: nat, shard: nat)
    requires k > 0 && shard % SHARD_ALIGNMENT == 0
    requires (shard - SHARD_ALIGNMENT - front) * k < backing <= (shard - front) * k
    ensures ShardFor(backing, k, front) == shard
  {
    hide ShardFor;
    ShardForIsLeast(backing, k, front, 0);
    ShardForIsLeast(backing, k, front, shard);
    ShardForIsLeast(backing, k, front, shard - SHARD_ALIGNMENT);
  }

  /** Evaluates the rest of the sizing chain for 15 data disks and 16 KiB strips. */
  lemma ExampleClusters(volume: nat, meta: nat, shard: nat, clusters: nat)
    requires volume > 0 && LeastSettled(volume) == meta
    requires shard == ShardFor(volume + meta + CLUSTER, 15, 33587200)
    requires clusters == (shard - 33587200) * 15 / CLUSTER
    ensures Clusters(volume, 15, 16) == clusters
  {
    hide CeilDiv;
    assert FrontReservationBytes(16) == 33587200 by { FrontReservation16(); }
  }

  lemma FrontReservation16()
    ensures FrontReservationBytes(16) == 33587200
  {}

  /** The sizes the tests freeze: 33 GiB on one data disk with 64 KiB strips. */
  lemma FrozenSizes()
    ensures MetadataBytes(35433480192) == 356515840
    ensures ComputeShardSize(35433480192, 1, 64) == 35926310912
    ensures UsableSize(35433480192, 1, 64) == 35791831040
  {
    hide MetadataBytesFor, ShardFor, IsLeastSettled, BelowSufficient, FrontReservationStrips;
    Charge(35433480192, 8448, 83);
    Charge(35433480192 + 348127232, 8531, 84);
    Charge(35433480192 + 352321536, 8532, 84);
    SettledAfterTwoRounds(35433480192, 348127232, 352321536);
    ShardIs(35789996032, 1, 134479872, 35926310912);
    assert FrontReservationBytes(64) == 134479872 by { FrontReservation64(); }
  }

  lemma FrontReservation64()
    ensures FrontReservationBytes(64) == 134479872
  {}

  /** The budget frozen at creation stops short of eleven times the volume, whatever the
      device grows to, for volumes of at least 1 GiB on up to 32 data disks. */
  lemma BudgetStopsShortOfElevenfold(volume: nat, k: nat, stripKB: nat, grown: nat)
    requires volume >= 1024 * 1024 * 1024 && 0 < k <= 32 && stripKB > 0
    ensures Spdk.MdLen(Clusters(volume, k, stripKB)) < CeilDiv(11 * volume, CLUSTER)
    ensures UsableSize(volume, k, stripKB) >= 0
    ensures !Spdk.CreateThenGrow(UsableSize(volume, k, stripKB), grown, 11 * volume)
  {
    hide UsableSize, IsLeastSettled, BelowSufficient, MetadataClusters;
    var m := ClustersCoverDataAndMetadata(volume, k, stripKB);
    UsableCoversBacking(volume, k, stripKB);
    ElevenfoldHeadroom(UsableSize(volume, k, stripKB), volume, m);
  }

  lemma ElevenfoldHeadroom(usable: nat, volume: nat, m: nat)
    requires volume >= 256 * CLUSTER
    requires m <= CeilDiv(volume, CLUSTER) / 99 + 4
    requires usable < volume + (m + 1) * CLUSTER + 32 * SHARD_ALIGNMENT
    ensures Spdk.MdLen(usable / CLUSTER) < CeilDiv(11 * volume, CLUSTER)
  {
    var q := volume / CLUSTER;
    assert usable / CLUSTER <= q + m + 18;
    assert CeilDiv(11 * volume, CLUSTER) >= 11 * q;
  }
}
