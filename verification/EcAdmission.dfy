/** Admission of erasure-coded volumes: which sizes SPDK can create a store for. */
module EcAdmission {
  import opened EcGeometry
  import opened EcFixpoint
  import opened EcShard
  import Spdk = SpdkReplay

  /** The admission test, floored to whole clusters as SPDK does. */
  ghost predicate Accepts(volumeSize: int, k: int, stripKB: int)
    requires stripKB > 0
  {
    UsableSize(volumeSize, k, stripKB) / CLUSTER <= MAX_CLUSTERS
  }

  /** `max` splits the positive sizes into the accepted and the rejected ones. */
  ghost predicate IsBoundary(max: int, k: int, stripKB: int)
    requires stripKB > 0
  {
    forall v: int :: v > 0 ==> (Accepts(v, k, stripKB) <==> v <= max)
  }

  lemma AcceptanceIsDownwardClosed(v: int, w: int, k: int, stripKB: int)
    requires 0 < v <= w && stripKB > 0
    requires Accepts(w, k, stripKB)
    ensures Accepts(v, k, stripKB)
  {
    hide UsableSize;
    UsableNeverShrinks(v, w, k, stripKB);
  }

  lemma UsableNeverShrinks(v: int, w: int, k: int, stripKB: int)
    requires 0 < v <= w && stripKB > 0
    ensures UsableSize(v, k, stripKB) <= UsableSize(w, k, stripKB)
  {
    hide ComputeShardSize, FrontReservationBytes;
    if k > 0 {
      UsableMonotone(v, w, k, stripKB);
    }
  }

  /** Nothing to size is nothing to reject. */
  lemma NothingIsAccepted(volumeSize: int, k: int, stripKB: int)
    requires stripKB > 0 && (volumeSize <= 0 || k <= 0)
    ensures UsableSize(volumeSize, k, stripKB) == 0 && Accepts(volumeSize, k, stripKB)
  {}

  /** The cap in clusters is where SPDK starts to refuse: at it the page count still fits 32
      bits, one cluster more does not. */
  lemma CapIsThePageLimit()
    ensures MAX_CREATION_SIZE == MAX_CLUSTERS * CLUSTER
    ensures Spdk.MdLen(MAX_CLUSTERS) <= 0xFFFF_FFFF < Spdk.MdLen(MAX_CLUSTERS + 1)
  {
    assert MAX_CLUSTERS == 429496729;
  }

  /** Accepting a size means exactly that SPDK's metadata page count fits 32 bits. */
  lemma AcceptsIffPageCountFits(volume: nat, k: nat, stripKB: nat)
    requires volume > 0 && k > 0 && stripKB > 0
    ensures Accepts(volume, k, stripKB) <==> Spdk.MdLen(Clusters(volume, k, stripKB)) <= UINT32_MAX
  {
    hide UsableSize;
    assert Accepts(volume, k, stripKB) <==> Clusters(volume, k, stripKB) <= MAX_CLUSTERS;
    hide Clusters, Accepts;
    assert Spdk.MdLen(Clusters(volume, k, stripKB)) == 10 * Clusters(volume, k, stripKB);
  }

  /** The raw cap itself is never creatable: its own metadata pushes it over. */
  lemma CapIsRejected(k: nat, stripKB: nat)
    requires k > 0 && stripKB > 0
    ensures !Accepts(MAX_CREATION_SIZE, k, stripKB)
  {
    hide UsableSize, IsLeastSettled, BelowSufficient, LeastSettled;
    UsableCoversBacking(MAX_CREATION_SIZE, k, stripKB);
    OneClusterMore(UsableSize(MAX_CREATION_SIZE, k, stripKB));
  }

  lemma OneClusterMore(usable: int)
    requires usable >= MAX_CREATION_SIZE + CLUSTER
    ensures usable / CLUSTER > MAX_CLUSTERS
  {}

  /** Up to 2^29 data disks the smallest volume is creatable, so a boundary exists. */
  lemma SmallestIsAccepted(k: nat, stripKB: nat)
    requires 0 < k <= 0x2000_0000 && stripKB > 0
    ensures Accepts(1, k, stripKB)
  {
    hide UsableSize, IsLeastSettled, BelowSufficient, MetadataClusters, CeilDiv;
    var m := LeastSettledClusters(1);
    assert CeilDiv(1, CLUSTER) == 1 by { CeilDivOne(); }
    UsableCoversBacking(1, k, stripKB);
    assert UsableSize(1, k, stripKB) <= 5 * CLUSTER + 0x2000_0000 * SHARD_ALIGNMENT;
  }

  lemma CeilDivOne()
    ensures CeilDiv(1, CLUSTER) == 1
  {}

  /** On 2^30 data disks with 1 MiB strips even one byte is rejected. */
  lemma SmallestCanBeRejected()
    ensures !Accepts(1, 0x4000_0000, 1024)
  {
    LargestReservation();
    AlignedReservationCostsAUnit(1, 0x4000_0000, 1024);
    hide UsableSize, FrontReservationBytes;
  }

  /** When the reservation is itself aligned, every data disk adds a whole alignment unit. */
  lemma AlignedReservationCostsAUnit(volume: nat, k: nat, stripKB: nat)
    requires volume > 0 && k > 0 && stripKB > 0
    requires FrontReservationBytes(stripKB) % SHARD_ALIGNMENT == 0
    ensures UsableSize(volume, k, stripKB) >= k * SHARD_ALIGNMENT
  {
    BackingIsPositive(volume);
    AlignedFrontUnit(Backing(volume), k, FrontReservationBytes(stripKB));
    hide FrontReservationBytes, Backing, ShardFor;
  }

  lemma AlignedFrontUnit(backing: nat, k: nat, front: nat)
    requires backing > 0 && k > 0 && front % SHARD_ALIGNMENT == 0
    ensures (ShardFor(backing, k, front) - front) * k >= k * SHARD_ALIGNMENT
  {
    hide ShardFor;
    var shard := ShardFor(backing, k, front);
    ShardForIsLeast(backing, k, front, front);
    assert (front - front) * k == 0;
    assert shard >= front + SHARD_ALIGNMENT;
    assert (shard - front - SHARD_ALIGNMENT) * k >= 0;
  }

  lemma BackingIsPositive(volume: nat)
    ensures Backing(volume) >= 1
  {}

  lemma LargestReservation()
    ensures FrontReservationBytes(1024) == 1026 * SHARD_ALIGNMENT
  {}

  /** A boundary exists exactly when one byte is accepted: with it there is a largest accepted
      size, strictly below the raw cap; without it no positive size is accepted. */
  lemma BoundaryFromSplit(lo: int, k: int, stripKB: int)
    requires stripKB > 0 && lo >= 1
    requires lo > 1 ==> Accepts(lo, k, stripKB)
    requires !Accepts(lo + 1, k, stripKB)
    ensures IsBoundary(lo, k, stripKB) <==> Accepts(1, k, stripKB)
  {
    forall v: int | v > 0
      ensures v > lo ==> !Accepts(v, k, stripKB)
      ensures v <= lo && Accepts(lo, k, stripKB) ==> Accepts(v, k, stripKB)
    {
      if v > lo && Accepts(v, k, stripKB) {
        AcceptanceIsDownwardClosed(lo + 1, v, k, stripKB);
      }
      if v <= lo && Accepts(lo, k, stripKB) {
        AcceptanceIsDownwardClosed(v, lo, k, stripKB);
      }
    }
    hide Accepts;
  }
}
