/** ec_geometry.go at its real width: 64-bit arithmetic that wraps, the iteration and the
    binary search as loops. Each operation is proved to compute the unbounded formula. */
module EcMachine {
  import opened EcAdmission
  import opened EcFixpoint
  import opened EcGeometry
  import opened EcShard
  import opened MachineInt

  /** Bound on data disks under which no intermediate wraps; the code states none. */
  const MAX_DISKS: int := 0x200_0000_0000

  datatype Admission = Accepted | Rejected(volumeSize: int64, max: int64, k: int64, stripKB: int64)

  /** `(a + b - 1) / b` at 64 bits. */
  function CeilDiv64(a: uint64, b: uint64): (r: uint64)
    requires b > 0
    ensures a + b < TWO_64 ==> r == CeilDiv(a, b)
  {
    QuotientBound(Wrap64(Wrap64(a + b) - 1), b);
    Wrap64(Wrap64(a + b) - 1) / b
  }

  lemma QuotientBound(n: nat, d: nat)
    requires d > 0
    ensures 0 <= n / d <= n
  {
    var q := n / d;
    assert n == d * q + n % d;
    NonzeroMultiple(q, d);
    NonzeroMultiple(d - 1, if q >= 0 then q else 0);
  }

  function FrontReservationStrips64(stripKB: uint32): uint64
    requires stripKB > 0
  {
    var stripBytes := Wrap64(stripKB * 1024);
    var wibPayload := Wrap64(Wrap64(stripBytes - WIB_HEADER_BYTES) - CRC_BYTES);
    var maxStripes := Wrap64(Wrap64((wibPayload / 8) * 64) * WIB_REGION_STRIPES);
    var blobBytes := Wrap64(BITMAP_HEADER_BYTES + Wrap64(CeilDiv64(maxStripes, 64) * 8));
    var slotStrips := CeilDiv64(Wrap64(blobBytes + CRC_BYTES), stripBytes);
    Wrap64(Wrap64(Wrap64(slotStrips * 2) + WIB_STRIPS) + COMMIT_RECORD_STRIPS)
  }

  function FrontReservationBytes64(stripKB: uint32): uint64
    requires stripKB > 0
  {
    Wrap64(Wrap64(FrontReservationStrips64(stripKB) * stripKB) * 1024)
  }

  function MaskPages64(bits: uint64): uint64 {
    CeilDiv64(Wrap64(MASK_HEADER_BYTES + CeilDiv64(bits, 8)), MD_PAGE)
  }

  function MetadataClusters64(clusters: uint64): uint64 {
    var mdLen := CeilDiv64(Wrap64(clusters * MD_RATIO), MD_RATIO_BASE);
    var clusterMask := Max(MaskPages64(clusters), MaskPages64(mdLen));
    var mdPages := Wrap64(Wrap64(Wrap64(Wrap64(1 + MaskPages64(mdLen)) + clusterMask) + MaskPages64(mdLen)) + mdLen);
    CeilDiv64(mdPages, PAGES_PER_CLUSTER)
  }

  function MetadataBytesFor64(deviceBytes: uint64): uint64 {
    Wrap64(MetadataClusters64(CeilDiv64(deviceBytes, CLUSTER)) * CLUSTER)
  }

  /** Rounded-up division by more than one never exceeds the dividend's share. */
  lemma CeilDivBound(a: nat, b: nat)
    requires b > 0
    ensures CeilDiv(a, b) <= a
  {
    CeilDivGalois(a, b, a);
    NonzeroMultiple(b - 1, a);
    NonzeroMultiple(b, a);
    assert a * b == b * a;
  }

  lemma BlobBytesFit(stripKB: uint32)
    requires 1 <= stripKB <= 2048
    ensures var maxStripes := ((stripKB * 1024 - 28) / 8) * 64 * 1024;
            0 <= maxStripes <= 0x4_0000_0000 && 0 <= 40 + CeilDiv(maxStripes, 64) * 8 <= 0x8000_0100
  {}

  lemma FrontStripsFit(stripKB: uint32)
    requires 1 <= stripKB <= 2048
    ensures FrontReservationStrips64(stripKB) == FrontReservationStrips(stripKB) <= 0x2_0000_0000
  {
    hide Wrap64, CeilDiv64, CeilDiv;
    BlobBytesFit(stripKB);
    var maxStripes := ((stripKB * 1024 - 28) / 8) * 64 * 1024;
    CeilDivBound(40 + CeilDiv(maxStripes, 64) * 8 + 4, stripKB * 1024);
  }

  lemma DividesBound(stripKB: int)
    requires DividesAlignment(stripKB)
    ensures 1 <= stripKB <= 2048
  {}

  lemma FrontReservationFits(stripKB: uint32)
    requires DividesAlignment(stripKB)
    ensures FrontReservationBytes64(stripKB) == FrontReservationBytes(stripKB) <= 0x100_0000_0000_0000
  {
    DividesBound(stripKB);
    FrontStripsFit(stripKB);
    hide Wrap64, FrontReservationStrips64, FrontReservationStrips;
    ProductBound(FrontReservationStrips(stripKB), stripKB, 2048);
  }

  lemma ProductBound(x: nat, y: nat, bound: nat)
    requires y <= bound
    ensures 0 <= x * y <= x * bound
  {}

  lemma MaskPagesFit(bits: uint64)
    requires bits <= 0x4000_0000_0000
    ensures MaskPages64(bits) == MaskPages(bits) <= 0x1_0000_0000
  {
    hide Wrap64, CeilDiv64;
  }

  lemma WholeRatio(clusters: nat)
    ensures CeilDiv(clusters * MD_RATIO, MD_RATIO_BASE) == 10 * clusters
  {}

  lemma ClusterBound(pages: nat)
    requires pages <= 0x8000_0000_0000
    ensures CeilDiv(pages, PAGES_PER_CLUSTER) <= 0x20_0000_0000
  {}

  lemma MetadataClustersFit(clusters: uint64)
    requires clusters <= 0x400_0000_0000
    ensures MetadataClusters64(clusters) == MetadataClusters(clusters) <= 0x20_0000_0000
  {
    hide Wrap64, CeilDiv64, CeilDiv, MaskPages64, MaskPages;
    MaskPagesFit(clusters);
    MaskPagesFit(10 * clusters);
    WholeRatio(clusters);
    ClusterBound(1 + MaskPages(10 * clusters) + Max(MaskPages(clusters), MaskPages(10 * clusters)) + MaskPages(10 * clusters) + 10 * clusters);
  }

  lemma DeviceClusterBound(deviceBytes: uint64)
    ensures CeilDiv(deviceBytes, CLUSTER) <= 0x400_0000_0000
  {}

  lemma MetadataBytesFit(deviceBytes: uint64)
    requires deviceBytes < TWO_64 - CLUSTER
    ensures MetadataBytesFor64(deviceBytes) == MetadataBytesFor(deviceBytes)
  {
    hide Wrap64, CeilDiv64, CeilDiv, MetadataClusters64, MetadataClusters;
    DeviceClusterBound(deviceBytes);
    MetadataClustersFit(CeilDiv(deviceBytes, CLUSTER));
  }

  /** `lvstoreMetadataBytes`: iterate until the estimate stops growing, keep one spare cluster. */
  method LvstoreMetadataBytes(dataBytes: uint64) returns (r: uint64)
    ensures dataBytes < TWO_63 ==> r == MetadataBytes(dataBytes)
  {
    hide Wrap64, MetadataBytesFor64, MetadataBytesFor, IsLeastSettled, BelowSufficient;
    ghost var fits := dataBytes < TWO_63;
    if fits { RoundFits(dataBytes, 0); }
    var meta := MetadataBytesFor64(dataBytes);
    while true
      invariant fits ==> meta <= LeastSettled(dataBytes)
      invariant fits ==> meta <= MetadataBytesFor(dataBytes + meta)
      decreases TWO_64 - meta
    {
      if fits { RoundFits(dataBytes, meta); }
      var next := MetadataBytesFor64(Wrap64(dataBytes + meta));
      if next <= meta {
        break;
      }
      meta := next;
    }
    if fits { SettledBelowIsLeast(dataBytes, meta); }
    r := Wrap64(meta + CLUSTER);
  }

  /** One round from an estimate below the fixed point: nothing wraps and the next estimate
      is below it too. */
  lemma RoundFits(data: nat, meta: nat)
    requires data < TWO_63 && meta <= LeastSettled(data)
    ensures LeastSettled(data) <= TWO_63 / 99 + 5 * CLUSTER
    ensures var next := MetadataBytesFor64(data + meta);
            next == MetadataBytesFor(data + meta) <= LeastSettled(data) &&
            (meta <= next ==> next <= MetadataBytesFor(data + next))
  {
    hide MetadataBytesFor64, MetadataBytesFor, LeastSettled, IsLeastSettled, BelowSufficient, Settled;
    LeastSettledFits(data);
    SettledAtLeast(data);
    MetadataBytesFit(data + meta);
    var next := MetadataBytesFor(data + meta);
    MetadataBytesMonotone(data + meta, data + LeastSettled(data));
    if meta <= next {
      MetadataBytesMonotone(data + meta, data + next);
    }
  }

  lemma SettledAtLeast(data: nat)
    ensures MetadataBytesFor(data + LeastSettled(data)) == LeastSettled(data)
  {
    assert Settled(data, LeastSettled(data));
  }

  lemma SettledBelowIsLeast(data: nat, meta: nat)
    requires Settled(data, meta) && meta <= LeastSettled(data)
    ensures meta == LeastSettled(data)
  {}

  lemma LeastSettledFits(data: nat)
    requires data < TWO_63
    ensures LeastSettled(data) <= TWO_63 / 99 + 5 * CLUSTER
  {
    var m := LeastSettledClusters(data);
    hide LeastSettled, IsLeastSettled, BelowSufficient, MetadataClusters;
    assert CeilDiv(data, CLUSTER) <= TWO_63 / CLUSTER;
    hide CeilDiv;
  }

  method ComputeShardSize64(volumeSize: int64, k: int64, stripKB: int64) returns (shard: int64)
    requires DividesAlignment(stripKB)
    ensures volumeSize <= 0 || k <= 0 ==> shard == volumeSize
    ensures k <= MAX_DISKS ==> ComputeShardSize(volumeSize, k, stripKB) < TWO_64
    ensures k <= MAX_DISKS && volumeSize > 0 && k > 0 ==> shard == ToInt64(ComputeShardSize(volumeSize, k, stripKB))
    ensures k <= MAX_DISKS && volumeSize <= 0x4000_0000_0000_0000 ==> shard == ComputeShardSize(volumeSize, k, stripKB)
  {
    if volumeSize <= 0 || k <= 0 {
      return volumeSize;
    }
    hide Wrap64, Wrap32, DividesAlignment, FrontReservationBytes64, ComputeShardSize, MetadataBytes, ShardFor64;
    DividesBound(stripKB);
    assert Wrap32(stripKB) > 0 by { StripFits(stripKB); }
    if k <= MAX_DISKS { SizedRight(volumeSize, k, stripKB); }
    var meta := LvstoreMetadataBytes(volumeSize);
    shard := ToInt64(ShardFor64(volumeSize, meta, k, FrontReservationBytes64(Wrap32(stripKB))));
  }

  lemma StripFits(stripKB: int)
    requires 1 <= stripKB <= 2048
    ensures Wrap32(stripKB) == stripKB
  {}

  lemma SizedRight(volume: nat, k: nat, stripKB: nat)
    requires 0 < volume < TWO_63 && 0 < k <= MAX_DISKS && DividesAlignment(stripKB)
    ensures Wrap32(stripKB) > 0 && MetadataBytes(volume) < TWO_64
    ensures ShardFor64(volume, MetadataBytes(volume), k, FrontReservationBytes64(Wrap32(stripKB)))
         == ComputeShardSize(volume, k, stripKB)
    ensures volume <= 0x4000_0000_0000_0000 ==> ComputeShardSize(volume, k, stripKB) < TWO_63
  {
    hide FrontReservationBytes64, FrontReservationBytes, MetadataBytes, ShardFor64, ShardFor, CeilDiv;
    SizingFits(volume, k, stripKB);
    ShardFor64Fits(volume, MetadataBytes(volume), k, FrontReservationBytes(stripKB));
  }

  function ShardFor64(volume: uint64, meta: uint64, k: uint64, front: uint64): uint64
    requires k > 0
  {
    var backing := Wrap64(volume + meta);
    var perDisk := Wrap64(CeilDiv64(backing, k) + front);
    Wrap64(CeilDiv64(perDisk, SHARD_ALIGNMENT) * SHARD_ALIGNMENT)
  }

  lemma ShardFor64Fits(volume: uint64, meta: uint64, k: uint64, front: uint64)
    requires k > 0 && volume + meta + k < TWO_64
    requires CeilDiv(volume + meta, k) + front + SHARD_ALIGNMENT < TWO_64
    ensures ShardFor64(volume, meta, k, front) == ShardFor(volume + meta, k, front)
  {
    hide Wrap64, CeilDiv64, CeilDiv;
    AlignUpBound(CeilDiv(volume + meta, k) + front);
  }

  /** Every intermediate of the sizing chain is in range. */
  lemma SizingFits(volume: nat, k: nat, stripKB: nat)
    requires 0 < volume < TWO_63 && 0 < k <= MAX_DISKS && DividesAlignment(stripKB)
    ensures Wrap32(stripKB) == stripKB
    ensures FrontReservationBytes64(stripKB) == FrontReservationBytes(stripKB)
    ensures volume + MetadataBytes(volume) + k < TWO_64
    ensures 0 <= CeilDiv(Backing(volume), k) + FrontReservationBytes(stripKB) + SHARD_ALIGNMENT < TWO_64
    ensures 0 <= ComputeShardSize(volume, k, stripKB) < TWO_64
    ensures volume <= 0x4000_0000_0000_0000 ==> ComputeShardSize(volume, k, stripKB) < TWO_63
    ensures 0 <= FrontReservationBytes(stripKB) <= ComputeShardSize(volume, k, stripKB)
    ensures 0 <= UsableSize(volume, k, stripKB) < TWO_64
  {
    hide DividesAlignment, FrontReservationBytes64, FrontReservationBytes, Backing, ShardFor, CeilDiv, MetadataBytes;
    DividesBound(stripKB);
    FrontReservationFits(stripKB);
    BackingFits(volume);
    ChainFits(Backing(volume), k, FrontReservationBytes(stripKB));
  }

  lemma BackingFits(volume: nat)
    requires volume < TWO_63
    ensures 0 < Backing(volume) <= volume + TWO_63 / 99 + 6 * CLUSTER
    ensures Backing(volume) == volume + MetadataBytes(volume)
  {
    LeastSettledFits(volume);
    hide LeastSettled, IsLeastSettled, BelowSufficient;
  }

  lemma ChainFits(backing: nat, k: nat, front: nat)
    requires 0 < k <= MAX_DISKS
    ensures 0 < backing ==> 0 < CeilDiv(backing, k)
    ensures CeilDiv(backing, k) <= backing
    ensures front <= ShardFor(backing, k, front) <= CeilDiv(backing, k) + front + SHARD_ALIGNMENT
    ensures 0 <= (ShardFor(backing, k, front) - front) * k <= backing + MAX_DISKS * SHARD_ALIGNMENT
  {
    CeilDivGalois(backing, k, backing);
    CeilDivGalois(backing, k, 0);
    ShardForCovers(backing, k, front);
    NonzeroMultiple(k, backing);
    assert backing * k == k * backing;
    var perDisk := CeilDiv(backing, k) + front;
    AlignUpBound(perDisk);
    hide CeilDiv;
  }

  lemma AlignUpBound(perDisk: nat)
    ensures perDisk <= CeilDiv(perDisk, SHARD_ALIGNMENT) * SHARD_ALIGNMENT <= perDisk + SHARD_ALIGNMENT
  {}

  /** Four times the bound is too many: the usable size of one byte no longer fits 64 bits. */
  lemma BoundIsNeeded()
    ensures UsableSize(1, 4 * MAX_DISKS, 1024) >= TWO_64
  {
    LargestReservation();
    AlignedReservationCostsAUnit(1, 4 * MAX_DISKS, 1024);
    hide UsableSize, FrontReservationBytes;
  }

  method UsableSize64(volumeSize: int64, k: int64, stripKB: int64) returns (usable: uint64)
    requires DividesAlignment(stripKB)
    ensures volumeSize <= 0 || k <= 0 ==> usable == 0
    ensures k <= MAX_DISKS ==> usable == UsableSize(volumeSize, k, stripKB)
  {
    if volumeSize <= 0 || k <= 0 {
      return 0;
    }
    hide Wrap64, Wrap32, ToInt64, DividesAlignment, FrontReservationBytes64, ComputeShardSize, UsableSize;
    DividesBound(stripKB);
    assert Wrap32(stripKB) > 0 by { StripFits(stripKB); }
    var size := ComputeShardSize64(volumeSize, k, stripKB);
    if k <= MAX_DISKS { UsableRight(volumeSize, k, stripKB, size); }
    usable := Wrap64(Wrap64(Wrap64(size) - FrontReservationBytes64(Wrap32(stripKB))) * k);
  }

  lemma UsableRight(volume: nat, k: nat, stripKB: nat, size: int64)
    requires 0 < volume < TWO_63 && 0 < k <= MAX_DISKS && DividesAlignment(stripKB)
    requires 0 <= ComputeShardSize(volume, k, stripKB) < TWO_64 && size == ToInt64(ComputeShardSize(volume, k, stripKB))
    ensures Wrap32(stripKB) > 0
    ensures Wrap64(Wrap64(Wrap64(size) - FrontReservationBytes64(Wrap32(stripKB))) * k) == UsableSize(volume, k, stripKB)
  {
    hide Wrap64, ToInt64, FrontReservationBytes64, FrontReservationBytes, ComputeShardSize, UsableSize, Backing, MetadataBytes, DividesAlignment;
    DividesBound(stripKB);
    SizingFits(volume, k, stripKB);
    FromInt64(ComputeShardSize(volume, k, stripKB));
    UsableUnfolds(volume, k, stripKB);
  }

  lemma UsableUnfolds(volumeSize: int, k: int, stripKB: int)
    requires volumeSize > 0 && k > 0 && stripKB > 0
    ensures UsableSize(volumeSize, k, stripKB)
         == (ComputeShardSize(volumeSize, k, stripKB) - FrontReservationBytes(stripKB)) * k
  {}

  /** Reading a wrapped size back as unsigned restores it, so a shard past 2^63 still sizes right. */
  lemma FromInt64(x: uint64)
    ensures Wrap64(ToInt64(x)) == x
  {}

  /** `MaxECVolumeSizeForCreation`: binary search, justified by monotonicity of the usable size.
      The result is the boundary exactly when one byte is accepted. */
  method MaxVolumeSizeForCreation(k: int64, stripKB: int64) returns (lo: int64)
    requires DividesAlignment(stripKB)
    ensures 1 <= lo <= MAX_CREATION_SIZE
    ensures k <= 0 ==> lo == MAX_CREATION_SIZE
    ensures 0 < k <= MAX_DISKS ==> (IsBoundary(lo, k, stripKB) <==> Accepts(1, k, stripKB))
    ensures 0 < k <= MAX_DISKS ==> lo < MAX_CREATION_SIZE
    ensures 0 < k <= MAX_DISKS && !Accepts(1, k, stripKB) ==> lo == 1
  {
    hide DividesAlignment, UsableSize;
    DividesBound(stripKB);
    ghost var bounded := 0 < k <= MAX_DISKS;
    if bounded { CapIsRejected(k, stripKB); }
    lo := 1;
    var hi := MAX_CREATION_SIZE;
    while lo < hi
      invariant 1 <= lo <= hi <= MAX_CREATION_SIZE
      invariant k <= 0 ==> hi == MAX_CREATION_SIZE
      invariant bounded && lo > 1 ==> Accepts(lo, k, stripKB)
      invariant bounded && hi < MAX_CREATION_SIZE ==> !Accepts(hi + 1, k, stripKB)
      invariant bounded && lo == MAX_CREATION_SIZE ==> Accepts(lo, k, stripKB)
    {
      var mid := lo + (hi - lo + 1) / 2;
      var usable := UsableSize64(mid, k, stripKB);
      NothingToSize(mid, k, stripKB);
      if usable / CLUSTER <= MAX_CREATION_SIZE / CLUSTER {
        lo := mid;
      } else {
        hi := mid - 1;
      }
    }
    if bounded {
      BoundaryFromSplit(lo, k, stripKB);
      if lo > 1 { AcceptanceIsDownwardClosed(1, lo, k, stripKB); }
    }
  }

  /** `ValidateECCreationSize`: accepts a size exactly when SPDK can size its metadata, and a
      refusal reports the largest size that would have been accepted. */
  method ValidateCreationSize(volumeSize: int64, k: int64, stripKB: int64) returns (r: Admission)
    requires DividesAlignment(stripKB)
    ensures k <= MAX_DISKS ==> (r == Accepted <==> Accepts(volumeSize, k, stripKB))
    ensures volumeSize <= 0 || k <= 0 ==> r == Accepted
    ensures r.Rejected? ==> r.volumeSize == volumeSize && r.k == k && r.stripKB == stripKB
    ensures r.Rejected? && k <= MAX_DISKS ==>
              volumeSize > 0 && k > 0 && (IsBoundary(r.max, k, stripKB) <==> Accepts(1, k, stripKB))
  {
    hide UsableSize, DividesAlignment;
    DividesBound(stripKB);
    var usable := UsableSize64(volumeSize, k, stripKB);
    NothingToSize(volumeSize, k, stripKB);
    if usable / CLUSTER > MAX_CREATION_SIZE / CLUSTER {
      var max := MaxVolumeSizeForCreation(k, stripKB);
      r := Rejected(volumeSize, max, k, stripKB);
    } else {
      r := Accepted;
    }
  }

  lemma NothingToSize(volumeSize: int, k: int, stripKB: int)
    requires stripKB > 0
    ensures volumeSize <= 0 || k <= 0 ==> UsableSize(volumeSize, k, stripKB) == 0
  {}
}
