/** Shard sizing and what it guarantees once SPDK carves the shard. */
module EcShard {
  import opened EcGeometry
  import opened EcFixpoint
  import Spdk = SpdkReplay

  /** Volume plus the metadata its store needs. */
  ghost function Backing(volume: nat): nat {
    volume + MetadataBytes(volume)
  }

  /** Per-disk share of the backing plus the front reservation, rounded up to the alignment. */
  function ShardFor(backing: nat, k: nat, front: nat): nat
    requires k > 0
  {
    CeilDiv(CeilDiv(backing, k) + front, SHARD_ALIGNMENT) * SHARD_ALIGNMENT
  }

  ghost function ComputeShardSize(volumeSize: int, k: int, stripKB: int): int
    requires stripKB > 0
  {
    if volumeSize <= 0 || k <= 0 then volumeSize
    else ShardFor(Backing(volumeSize), k, FrontReservationBytes(stripKB))
  }

  ghost function UsableSize(volumeSize: int, k: int, stripKB: int): int
    requires stripKB > 0
  {
    if volumeSize <= 0 || k <= 0 then 0
    else (ComputeShardSize(volumeSize, k, stripKB) - FrontReservationBytes(stripKB)) * k
  }

  /** Rounded-up division is the lower adjoint of multiplication. */
  lemma CeilDivGalois(b: nat, k: nat, x: int)
    requires k > 0
    ensures x * k >= b <==> x >= CeilDiv(b, k)
  {
    var q := CeilDiv(b, k);
    assert (b + k - 1) == q * k + (b + k - 1) % k;
    if x >= q {
      assert x * k >= q * k;
    } else {
      assert x * k <= (q - 1) * k == q * k - k;
    }
  }

  lemma ShardForIsLeast(backing: nat, k: nat, front: nat, shard: int)
    requires k > 0
    requires shard % SHARD_ALIGNMENT == 0
    ensures ShardFor(backing, k, front) % SHARD_ALIGNMENT == 0
    ensures (shard - front) * k >= backing <==> shard >= ShardFor(backing, k, front)
  {
    CeilDivGalois(backing, k, shard - front);
    AlignUp(CeilDiv(backing, k) + front, shard);
    hide CeilDiv;
  }

  lemma AlignUp(perDisk: nat, shard: int)
    requires shard % SHARD_ALIGNMENT == 0
    ensures (CeilDiv(perDisk, SHARD_ALIGNMENT) * SHARD_ALIGNMENT) % SHARD_ALIGNMENT == 0
    ensures shard >= perDisk <==> shard >= CeilDiv(perDisk, SHARD_ALIGNMENT) * SHARD_ALIGNMENT
  {
    assert shard >= perDisk <==> shard >= CeilDiv(perDisk, SHARD_ALIGNMENT) * SHARD_ALIGNMENT;
  }

  /** The computed shard is the least aligned shard whose k-fold data area covers the
      volume and its metadata: it is aligned, and an aligned size covers iff it is no smaller. */
  lemma LeastAlignedShard(volume: nat, k: nat, stripKB: nat, shard: int)
    requires volume > 0 && k > 0 && stripKB > 0
    requires shard % SHARD_ALIGNMENT == 0
    ensures ComputeShardSize(volume, k, stripKB) % SHARD_ALIGNMENT == 0
    ensures (shard - FrontReservationBytes(stripKB)) * k >= Backing(volume)
       <==> shard >= ComputeShardSize(volume, k, stripKB)
  {
    ShardForIsLeast(Backing(volume), k, FrontReservationBytes(stripKB), shard);
  }

  lemma ShardForCovers(backing: nat, k: nat, front: nat)
    requires k > 0
    ensures backing <= (ShardFor(backing, k, front) - front) * k < backing + k * SHARD_ALIGNMENT
  {
    var shard := ShardFor(backing, k, front);
    ShardForIsLeast(backing, k, front, shard);
    ShardForIsLeast(backing, k, front, shard - SHARD_ALIGNMENT);
    assert (shard - SHARD_ALIGNMENT - front) * k == (shard - front) * k - k * SHARD_ALIGNMENT;
  }

  /** The usable size covers the backing and overshoots it by less than k alignment units. */
  lemma UsableCoversBacking(volume: nat, k: nat, stripKB: nat)
    requires volume > 0 && k > 0 && stripKB > 0
    ensures Backing(volume) <= UsableSize(volume, k, stripKB) < Backing(volume) + k * SHARD_ALIGNMENT
  {
    hide ShardFor, Backing, FrontReservationBytes;
    ShardForCovers(Backing(volume), k, FrontReservationBytes(stripKB));
  }

  lemma ShardForMonotone(b: nat, c: nat, k: nat, front: nat)
    requires b <= c && k > 0
    ensures (ShardFor(b, k, front) - front) * k <= (ShardFor(c, k, front) - front) * k
  {
    hide ShardFor;
    var shard := ShardFor(c, k, front);
    ShardForIsLeast(c, k, front, 0);
    ShardForIsLeast(c, k, front, shard);
    ShardForIsLeast(b, k, front, shard);
    assert (ShardFor(b, k, front) - front) * k <= (shard - front) * k;
  }

  lemma UsableMonotone(v: nat, w: nat, k: nat, stripKB: nat)
    requires 0 < v <= w && k > 0 && stripKB > 0
    ensures UsableSize(v, k, stripKB) <= UsableSize(w, k, stripKB)
  {
    LeastSettledMonotone(v, w);
    ShardForMonotone(Backing(v), Backing(w), k, FrontReservationBytes(stripKB));
  }

  /** Truncating to whole strips loses nothing when strips fill the alignment. */
  lemma WholeStrips(shard: nat, k: nat, stripKB: nat, frontStrips: nat)
    requires DividesAlignment(stripKB) && shard % SHARD_ALIGNMENT == 0
    ensures (shard / (stripKB * 1024) - frontStrips) * k * (stripKB * 1024)
         == (shard - frontStrips * stripKB * 1024) * k
  {
    var stripBytes, fill, units := stripKB * 1024, 2048 / stripKB, shard / SHARD_ALIGNMENT;
    assert stripKB * fill == 2048;
    var strips := units * fill;
    assert strips * stripBytes == shard by {
      assert strips * stripBytes == units * (fill * stripBytes);
      assert fill * stripBytes == SHARD_ALIGNMENT;
    }
    ExactQuotient(strips, stripBytes);
    calc {
      (strips - frontStrips) * k * stripBytes;
      ((strips - frontStrips) * stripBytes) * k;
      (strips * stripBytes - frontStrips * stripBytes) * k;
    }
    assert frontStrips * stripBytes == frontStrips * stripKB * 1024;
  }

  lemma ExactQuotient(q: nat, d: nat)
    requires d > 0
    ensures (q * d) / d == q
  {
    var n := q * d;
    var r := n / d;
    assert n % d == n - d * r;
    assert (q - r) * d == n - d * r;
    NonzeroMultiple(q - r, d);
  }

  lemma NonzeroMultiple(a: int, d: nat)
    ensures a >= 1 ==> a * d >= d
    ensures a <= -1 ==> a * d + d <= 0
  {
    assert a >= 1 ==> (a - 1) * d >= 0;
    assert a <= -1 ==> (a + 1) * d <= 0;
  }

  /** `EcUsableSize` is SPDK's whole-strip truncating geometry exactly: nothing is truncated. */
  lemma UsableSizeIsExact(volume: nat, k: nat, stripKB: nat)
    requires volume > 0 && k > 0 && DividesAlignment(stripKB)
    ensures UsableSize(volume, k, stripKB) == Spdk.UsableBytes(ComputeShardSize(volume, k, stripKB), k, stripKB)
  {
    assert stripKB > 0;
    var shard: nat := ComputeShardSize(volume, k, stripKB);
    hide ComputeShardSize, FrontReservationStrips, DividesAlignment, Backing, Spdk.IsReservation;
    Spdk.ReservationMatchesLayout(stripKB);
    Spdk.ReservationIsUnique(stripKB * 1024, Spdk.ReservedStrips(stripKB), FrontReservationStrips(stripKB));
    LeastAlignedShard(volume, k, stripKB, 0);
    WholeStrips(shard, k, stripKB, FrontReservationStrips(stripKB));
  }

  /** Clusters SPDK finds on the device sized for `volume`. */
  ghost function Clusters(volume: nat, k: nat, stripKB: nat): nat
    requires volume > 0 && k > 0 && stripKB > 0
  {
    UsableCoversBacking(volume, k, stripKB);
    UsableSize(volume, k, stripKB) / CLUSTER
  }

  /** At least one cluster per cluster of data, plus the settled metadata. */
  lemma ClustersCoverDataAndMetadata(volume: nat, k: nat, stripKB: nat) returns (m: nat)
    requires volume > 0 && k > 0 && stripKB > 0
    ensures LeastSettled(volume) == m * CLUSTER
    ensures m == MetadataClusters(CeilDiv(volume, CLUSTER) + m)
    ensures m <= CeilDiv(volume, CLUSTER) / 99 + 4
    ensures Clusters(volume, k, stripKB) >= volume / CLUSTER + m + 1 >= CeilDiv(volume, CLUSTER) + m
  {
    m := LeastSettledClusters(volume);
    UsableCoversBacking(volume, k, stripKB);
    WholeClusters(UsableSize(volume, k, stripKB), volume, m);
  }

  lemma WholeClusters(usable: nat, volume: nat, m: nat)
    requires usable >= volume + (m + 1) * CLUSTER
    ensures usable / CLUSTER >= volume / CLUSTER + m + 1 >= CeilDiv(volume, CLUSTER) + m
  {}

  /** SPDK's carve of the sized shard always leaves room for the whole volume. */
  lemma ShardBacksVolume(volume: nat, k: nat, stripKB: nat)
    requires volume > 0 && k > 0 && DividesAlignment(stripKB)
    ensures var usable := Spdk.UsableBytes(ComputeShardSize(volume, k, stripKB), k, stripKB);
            usable >= 0 && Spdk.DataClusters(usable / CLUSTER) >= CeilDiv(volume, CLUSTER)
  {
    UsableSizeIsExact(volume, k, stripKB);
    DataClustersSuffice(volume, k, stripKB);
  }

  lemma DataClustersSuffice(volume: nat, k: nat, stripKB: nat)
    requires volume > 0 && k > 0 && stripKB > 0
    ensures Spdk.DataClusters(Clusters(volume, k, stripKB)) >= CeilDiv(volume, CLUSTER)
  {
    var m := ClustersCoverDataAndMetadata(volume, k, stripKB);
    var clusters := Clusters(volume, k, stripKB);
    DataClustersMonotone(CeilDiv(volume, CLUSTER) + m, clusters);
    Spdk.CarveAgrees(clusters);
  }
}
