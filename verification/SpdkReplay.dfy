/** What SPDK does with a shard, rounding down: the erasure-code geometry, the metadata
    carve at creation, and growth under the metadata region frozen at creation. Written
    independently of the sizing formulas so that the two can be compared. */
module SpdkReplay {
  import opened EcGeometry

  /** An allocation mask in bits: a 64-bit header and one bit per item, in 32768-bit pages. */
  function MaskRegion(items: nat): nat {
    (64 + items + 32767) / 32768
  }

  // The reservation at the front of a base disk.

  /** The write-intent strip is full: behind its 24-byte header and before its 4-byte CRC there
      is room for this many 64-bit words and not for one more. */
  predicate WibHolds(stripBytes: nat, words: nat) {
    24 + 8 * words + 4 <= stripBytes < 24 + 8 * (words + 1) + 4
  }

  /** The unmapped bitmap has one bit for each of the 1024 stripes that a bit of the write-intent
      strip stands for, behind a 40-byte header and before a 4-byte CRC. */
  function BitmapBlob(words: nat): nat {
    var stripes := words * 64 * 1024;
    40 + stripes / 8 + 4
  }

  /** This many strips hold the blob, and one strip less does not. */
  predicate SlotHolds(stripBytes: nat, blob: nat, strips: nat) {
    blob <= strips * stripBytes < blob + stripBytes
  }

  /** Two bitmap slots, two strips of the commit record and two write-intent strips. */
  ghost predicate IsReservation(stripBytes: nat, strips: nat) {
    exists words: nat, slot: nat ::
      WibHolds(stripBytes, words) && SlotHolds(stripBytes, BitmapBlob(words), slot) && strips == slot + slot + 2 + 2
  }

  lemma SlotIsUnique(stripBytes: nat, blob: nat, s: nat, t: nat)
    requires SlotHolds(stripBytes, blob, s) && SlotHolds(stripBytes, blob, t)
    ensures s == t
  {
    assert s < t ==> s * stripBytes + stripBytes <= t * stripBytes by {
      if s < t { MoreStrips(s, t, stripBytes); }
    }
    assert t < s ==> t * stripBytes + stripBytes <= s * stripBytes by {
      if t < s { MoreStrips(t, s, stripBytes); }
    }
  }

  lemma {:induction false} MoreStrips(s: nat, t: nat, stripBytes: nat)
    requires s < t
    ensures s * stripBytes + stripBytes <= t * stripBytes
    decreases t - s
  {
    assert t * stripBytes == (t - 1) * stripBytes + stripBytes;
    if s + 1 < t {
      MoreStrips(s, t - 1, stripBytes);
    }
  }

  /** There is one such reservation, for every strip size. */
  lemma ReservationIsUnique(stripBytes: nat, a: nat, b: nat)
    requires IsReservation(stripBytes, a) && IsReservation(stripBytes, b)
    ensures a == b
  {
    var v: nat, s: nat :| WibHolds(stripBytes, v) && SlotHolds(stripBytes, BitmapBlob(v), s) && a == s + s + 2 + 2;
    var w: nat, t: nat :| WibHolds(stripBytes, w) && SlotHolds(stripBytes, BitmapBlob(w), t) && b == t + t + 2 + 2;
    assert v == w;
    SlotIsUnique(stripBytes, BitmapBlob(v), s, t);
  }

  lemma SlotExists(stripBytes: nat, blob: nat) returns (s: nat)
    requires stripBytes > 0
    ensures SlotHolds(stripBytes, blob, s) && s == (blob + stripBytes - 1) / stripBytes
  {
    var n := blob + stripBytes - 1;
    s := n / stripBytes;
    assert n == stripBytes * s + n % stripBytes;
    assert s * stripBytes == stripBytes * s;
  }

  /** The front reservation of the sizing code is the layout, for every strip size. */
  lemma ReservationMatchesLayout(stripKB: nat)
    requires stripKB > 0
    ensures IsReservation(stripKB * 1024, FrontReservationStrips(stripKB))
  {
    var words: nat := (stripKB * 1024 - 28) / 8;
    var slot := SlotExists(stripKB * 1024, BitmapBlob(words));
    assert WibHolds(stripKB * 1024, words);
    assert FrontReservationStrips(stripKB) == slot + slot + 2 + 2 by { ReservationUnfolds(stripKB, words, slot); }
    hide FrontReservationStrips, WibHolds, SlotHolds, BitmapBlob;
  }

  lemma ReservationUnfolds(stripKB: nat, words: nat, slot: nat)
    requires stripKB > 0 && words == (stripKB * 1024 - 28) / 8
    requires slot == (BitmapBlob(words) + stripKB * 1024 - 1) / (stripKB * 1024)
    ensures FrontReservationStrips(stripKB) == slot + slot + 2 + 2
  {
    WholeWords(words);
  }

  lemma WholeWords(words: nat)
    ensures CeilDiv(words * 64 * 1024, 64) * 8 == words * 64 * 1024 / 8
  {
    var n := words * 1024;
    assert words * 64 * 1024 == 64 * n;
    SixtyFourfold(n);
    hide CeilDiv;
  }

  lemma SixtyFourfold(n: nat)
    ensures CeilDiv(64 * n, 64) == n && 64 * n / 8 == 8 * n
  {}

  /** The strips that the bdev keeps at the front of each base disk. */
  ghost function ReservedStrips(stripKB: nat): (strips: nat)
    requires stripKB > 0
    ensures IsReservation(stripKB * 1024, strips)
  {
    ReservationMatchesLayout(stripKB);
    var strips: nat :| IsReservation(stripKB * 1024, strips);
    strips
  }

  predicate Reserves(stripKB: nat, strips: nat, bytes: nat)
    requires stripKB > 0
  {
    FrontReservationStrips(stripKB) == strips && FrontReservationBytes(stripKB) == bytes
  }

  /** The reservation for every documented strip size. */
  lemma FrontReservationValues()
    ensures Reserves(4, 2038, 8347648) && Reserves(8, 2046, 16760832) && Reserves(16, 2050, 33587200)
    ensures Reserves(32, 2052, 67239936) && Reserves(64, 2052, 134479872) && Reserves(128, 2052, 268959744)
    ensures Reserves(256, 2052, 537919488) && Reserves(512, 2052, 1075838976) && Reserves(1024, 2052, 2151677952)
  {
    hide Reserves;
    SmallStrips();
    MediumStrips();
    LargeStrips();
  }

  lemma SmallStrips()
    ensures Reserves(4, 2038, 8347648) && Reserves(8, 2046, 16760832) && Reserves(16, 2050, 33587200)
  {}

  lemma MediumStrips()
    ensures Reserves(32, 2052, 67239936) && Reserves(64, 2052, 134479872) && Reserves(128, 2052, 268959744)
  {}

  lemma LargeStrips()
    ensures Reserves(256, 2052, 537919488) && Reserves(512, 2052, 1075838976) && Reserves(1024, 2052, 2151677952)
  {}

  /** Usable bytes of the erasure-code bdev built on k shards of the given size. */
  ghost function UsableBytes(shard: nat, k: nat, stripKB: nat): int
    requires stripKB > 0
  {
    var stripBytes := stripKB * 1024;
    var stripes := shard / stripBytes - ReservedStrips(stripKB);
    stripes * k * stripBytes
  }

  /** Metadata pages budgeted at creation, ratio x clusters / 100. */
  function MdLen(clusters: nat): nat {
    clusters * 1000 / 100
  }

  function ClusterMaskRegion(clusters: nat): nat {
    Max(MaskRegion(clusters), MaskRegion(MdLen(clusters)))
  }

  /** Whole clusters the metadata region takes at creation. */
  function CarvedClusters(clusters: nat): nat {
    var mdLen := MdLen(clusters);
    var pages := 1 + MaskRegion(mdLen) + ClusterMaskRegion(clusters) + MaskRegion(mdLen) + mdLen;
    (pages + 1023) / 1024
  }

  function DataClusters(clusters: nat): int {
    clusters - CarvedClusters(clusters)
  }

  /** Growth is refused when the new cluster mask no longer fits the region reserved at creation. */
  predicate MaskFits(created: nat, grown: nat) {
    MaskRegion(grown / 4194304) <= ClusterMaskRegion(created / 4194304)
  }

  /** A store created on `created` bytes and grown to `grown` bytes can back `head` bytes. */
  predicate CreateThenGrow(created: nat, grown: nat, head: nat) {
    var need := (head + 4194303) / 4194304;
    && MaskFits(created, grown)
    && grown / 4194304 - CarvedClusters(created / 4194304) >= need
    && MdLen(created / 4194304) >= need
  }

  /** The rounded-up charge of the sizing code and SPDK's rounded-down carve are one
      function of the cluster count; the two sides differ in how they count clusters. */
  lemma CarveAgrees(clusters: nat)
    ensures CarvedClusters(clusters) == MetadataClusters(clusters)
  {
    hide MaskRegion, MaskPages, MdLen;
    MaskAgrees(clusters);
    MaskAgrees(10 * clusters);
    RatioIsTen(clusters);
    PagesToClusters(1 + MaskRegion(10 * clusters) + ClusterMaskRegion(clusters) + MaskRegion(10 * clusters) + 10 * clusters);
    hide CeilDiv;
  }

  lemma RatioIsTen(clusters: nat)
    ensures MdLen(clusters) == CeilDiv(clusters * MD_RATIO, MD_RATIO_BASE) == 10 * clusters
  {}

  lemma PagesToClusters(pages: nat)
    ensures (pages + 1023) / 1024 == CeilDiv(pages, PAGES_PER_CLUSTER)
  {}

  lemma MaskAgrees(items: nat)
    ensures MaskRegion(items) == MaskPages(items)
  {}
}
