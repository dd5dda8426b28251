/** Erasure-code shard sizing over unbounded integers: the formulas of
    pkg/spdk/types/ec_geometry.go, before any machine width is considered.
    `EcMachine` holds the same code at its real width and is proved equal to this. */
module EcGeometry {

  // On-disk metadata constants of the erasure-code bdev.
  const WIB_HEADER_BYTES: nat := 24
  const BITMAP_HEADER_BYTES: nat := 40
  const CRC_BYTES: nat := 4
  const WIB_REGION_STRIPES: nat := 1024
  const WIB_STRIPS: nat := 2
  const COMMIT_RECORD_STRIPS: nat := 2

  // Logical volume store parameters pinned at creation.
  const CLUSTER: nat := 4 * 1024 * 1024
  const MD_RATIO_BASE: nat := 100
  const GROWTH_FACTOR: nat := 10
  const MD_RATIO: nat := MD_RATIO_BASE * GROWTH_FACTOR
  const MD_PAGE: nat := 4096
  const PAGES_PER_CLUSTER: nat := CLUSTER / MD_PAGE
  const MASK_HEADER_BYTES: nat := 8
  const SHARD_ALIGNMENT: nat := 2 * 1024 * 1024

  const UINT32_MAX: nat := 0xFFFF_FFFF
  const MAX_CREATION_SIZE: nat := (UINT32_MAX / (MD_RATIO / MD_RATIO_BASE)) * CLUSTER
  const MAX_CLUSTERS: nat := MAX_CREATION_SIZE / CLUSTER

  function CeilDiv(a: nat, b: nat): nat
    requires b > 0
  {
    (a + b - 1) / b
  }

  function Max(a: nat, b: nat): nat {
    if a < b then b else a
  }

  /** The strip sizes the code documents as valid: powers of two, 4 to 1024 KiB. */
  predicate ValidStrip(stripKB: int) {
    stripKB == 4 || stripKB == 8 || stripKB == 16 || stripKB == 32 || stripKB == 64 ||
    stripKB == 128 || stripKB == 256 || stripKB == 512 || stripKB == 1024
  }

  /** What the geometry argument really uses: whole strips fill the shard alignment. */
  predicate DividesAlignment(stripKB: int) {
    stripKB > 0 && 2048 % stripKB == 0
  }

  lemma ValidStripDivides(stripKB: int)
    requires ValidStrip(stripKB)
    ensures DividesAlignment(stripKB)
  {}

  function FrontReservationStrips(stripKB: nat): nat
    requires stripKB > 0
  {
    var stripBytes := stripKB * 1024;
    var wibPayload := stripBytes - WIB_HEADER_BYTES - CRC_BYTES;
    var maxStripes := (wibPayload / 8) * 64 * WIB_REGION_STRIPES;
    var blobBytes := BITMAP_HEADER_BYTES + CeilDiv(maxStripes, 64) * 8;
    var slotStrips := CeilDiv(blobBytes + CRC_BYTES, stripBytes);
    slotStrips * 2 + WIB_STRIPS + COMMIT_RECORD_STRIPS
  }

  function FrontReservationBytes(stripKB: nat): nat
    requires stripKB > 0
  {
    FrontReservationStrips(stripKB) * stripKB * 1024
  }

  /** Pages of one allocation mask: the header plus one bit per tracked item. */
  function MaskPages(bits: nat): nat {
    CeilDiv(MASK_HEADER_BYTES + CeilDiv(bits, 8), MD_PAGE)
  }

  /** Metadata clusters the code charges to a device of the given number of clusters. */
  function MetadataClusters(clusters: nat): nat {
    var mdLen := CeilDiv(clusters * MD_RATIO, MD_RATIO_BASE);
    var mdPages := 1 + MaskPages(mdLen) + Max(MaskPages(clusters), MaskPages(mdLen)) + MaskPages(mdLen) + mdLen;
    CeilDiv(mdPages, PAGES_PER_CLUSTER)
  }

  function MetadataBytesFor(deviceBytes: nat): nat {
    MetadataClusters(CeilDiv(deviceBytes, CLUSTER)) * CLUSTER
  }

  lemma MaskPagesMonotone(a: nat, b: nat)
    requires a <= b
    ensures MaskPages(a) <= MaskPages(b)
  {}

  lemma MaskPagesGrowth(bits: nat)
    ensures MaskPages(bits + 10) <= MaskPages(bits) + 1
    ensures MaskPages(10 * bits) <= 10 * MaskPages(bits)
  {}

  // The three facts about the metadata charge that everything else rests on.

  lemma MetadataClustersMonotone(c: nat, d: nat)
    requires c <= d
    ensures MetadataClusters(c) <= MetadataClusters(d)
  {
    hide MaskPages;
    MaskPagesMonotone(c, d);
    MaskPagesMonotone(10 * c, 10 * d);
  }

  lemma MetadataClustersBound(c: nat)
    ensures 100 * MetadataClusters(c) <= c + 200
  {}

  lemma OneMoreCluster(c: nat)
    ensures MetadataClusters(c + 1) <= MetadataClusters(c) + 1
  {
    hide MaskPages;
    MaskPagesGrowth(10 * c);
    MaskPagesMonotone(c, 10 * c);
    MaskPagesMonotone(c + 1, 10 * (c + 1));
  }

  /** Adding clusters never adds more metadata than clusters, so data clusters never decrease. */
  lemma {:induction false} DataClustersMonotone(c: nat, d: nat)
    requires c <= d
    ensures MetadataClusters(d) - MetadataClusters(c) <= d - c
    decreases d - c
  {
    hide MetadataClusters;
    if c < d {
      DataClustersMonotone(c, d - 1);
      OneMoreCluster(d - 1);
    }
  }

  lemma CeilDivShift(data: nat, m: nat)
    ensures CeilDiv(data + m * CLUSTER, CLUSTER) == CeilDiv(data, CLUSTER) + m
  {}
}
