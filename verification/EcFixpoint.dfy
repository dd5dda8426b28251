/** The metadata fixed point: metadata takes device space, which needs metadata. */
module EcFixpoint {
  import opened EcGeometry

  /** Charging `meta` bytes on top of the data costs exactly `meta` bytes. */
  predicate Settled(data: nat, meta: nat) {
    MetadataBytesFor(data + meta) == meta
  }

  /** The budget `meta` is enough: charging it costs no more than it holds. */
  predicate Sufficient(data: nat, meta: nat) {
    MetadataBytesFor(data + meta) <= meta
  }

  ghost predicate IsLeastSettled(data: nat, meta: nat) {
    Settled(data, meta) && forall m: nat :: Settled(data, m) ==> meta <= m
  }

  ghost predicate BelowSufficient(data: nat, meta: nat) {
    forall p: nat :: Sufficient(data, p) ==> meta <= p
  }

  lemma SufficientInClusters(data: nat, m: nat)
    requires MetadataClusters(CeilDiv(data, CLUSTER) + m) <= m
    ensures Sufficient(data, m * CLUSTER)
  {
    CeilDivShift(data, m);
  }

  /** A budget that is always enough; it bounds the iteration. */
  function EnoughFor(data: nat): (bound: nat)
    ensures Sufficient(data, bound)
  {
    var clusters := CeilDiv(data, CLUSTER);
    var m := clusters / 99 + 4;
    MetadataClustersBound(clusters + m);
    SufficientInClusters(data, m);
    m * CLUSTER
  }

  lemma MetadataBytesMonotone(d: nat, e: nat)
    requires d <= e
    ensures MetadataBytesFor(d) <= MetadataBytesFor(e)
  {
    MetadataClustersMonotone(CeilDiv(d, CLUSTER), CeilDiv(e, CLUSTER));
  }

  /** One round of the iteration stays below every sufficient budget. */
  lemma RoundStaysBelow(data: nat, meta: nat)
    requires BelowSufficient(data, meta)
    ensures BelowSufficient(data, MetadataBytesFor(data + meta))
  {
    hide MetadataBytesFor;
    forall p: nat | Sufficient(data, p)
      ensures MetadataBytesFor(data + meta) <= p
    {
      MetadataBytesMonotone(data + meta, data + p);
    }
  }

  /** Iterating from below climbs to a settled value that no sufficient budget undercuts.
      The measure is a proved bound minus the estimate, so the loop ends for every size. */
  lemma {:induction false} Climb(data: nat, meta: nat) returns (m: nat)
    requires BelowSufficient(data, meta)
    requires meta <= MetadataBytesFor(data + meta)
    ensures Settled(data, m) && BelowSufficient(data, m)
    decreases EnoughFor(data) - meta
  {
    var next := MetadataBytesFor(data + meta);
    if next == meta {
      m := meta;
    } else {
      RoundStaysBelow(data, meta);
      MetadataBytesMonotone(data + meta, data + next);
      assert Sufficient(data, EnoughFor(data));
      m := Climb(data, next);
    }
  }

  lemma SettledExists(data: nat)
    ensures exists m: nat :: Settled(data, m) && BelowSufficient(data, m)
  {
    MetadataBytesMonotone(data, data + MetadataBytesFor(data));
    assert BelowSufficient(data, 0);
    RoundStaysBelow(data, 0);
    assert data + 0 == data;
    var m := Climb(data, MetadataBytesFor(data));
  }

  /** The least self-consistent metadata size, defined without the loop that finds it. */
  ghost function LeastSettled(data: nat): (meta: nat)
    ensures IsLeastSettled(data, meta)
    ensures BelowSufficient(data, meta)
  {
    SettledExists(data);
    var m: nat :| Settled(data, m) && BelowSufficient(data, m);
    assert forall p: nat :: Settled(data, p) ==> Sufficient(data, p);
    m
  }

  /** `lvstoreMetadataBytes`: the fixed point plus one spare cluster. */
  ghost function MetadataBytes(data: nat): nat {
    LeastSettled(data) + CLUSTER
  }

  lemma LeastSettledMonotone(d: nat, e: nat)
    requires d <= e
    ensures LeastSettled(d) <= LeastSettled(e)
  {
    var meta := LeastSettled(e);
    assert Settled(e, meta);
    MetadataBytesMonotone(d + meta, e + meta);
    assert Sufficient(d, meta);
  }

  /** Evaluating the fixed point: two rounds from nothing that then settle have found it. */
  lemma SettledAfterTwoRounds(data: nat, first: nat, second: nat)
    requires first == MetadataBytesFor(data) && second == MetadataBytesFor(data + first)
    requires Settled(data, second)
    ensures LeastSettled(data) == second
  {
    hide MetadataBytesFor;
    var meta := LeastSettled(data);
    assert Settled(data, meta);
    MetadataBytesMonotone(data, data + meta);
    MetadataBytesMonotone(data + first, data + meta);
  }

  /** The fixed point is a whole number of clusters, small beside the data. */
  lemma LeastSettledClusters(data: nat) returns (m: nat)
    ensures LeastSettled(data) == m * CLUSTER
    ensures m == MetadataClusters(CeilDiv(data, CLUSTER) + m)
    ensures m <= CeilDiv(data, CLUSTER) / 99 + 4
  {
    hide MetadataClusters;
    var meta := LeastSettled(data);
    m := MetadataClusters(CeilDiv(data + meta, CLUSTER));
    assert Settled(data, meta);
    CeilDivShift(data, m);
    assert Sufficient(data, EnoughFor(data));
  }

  lemma TenfoldClusters(c: nat)
    ensures MetadataClusters(10 * c) <= 10 * MetadataClusters(c)
  {
    hide MaskPages;
    MaskPagesGrowth(10 * c);
    MaskPagesMonotone(c, 10 * c);
    MaskPagesMonotone(10 * c, 100 * c);
  }

  lemma TenfoldCharge(data: nat, m: nat)
    requires MetadataClusters(CeilDiv(data, CLUSTER) + m) == m
    ensures MetadataClusters(CeilDiv(10 * data, CLUSTER) + 10 * m) <= 10 * m
  {
    var c := CeilDiv(data, CLUSTER);
    MetadataClustersMonotone(CeilDiv(10 * data, CLUSTER) + 10 * m, 10 * (c + m));
    TenfoldClusters(c + m);
  }

  /** Ten times the data needs at most ten times the metadata. */
  lemma LeastSettledTenfold(data: nat)
    ensures LeastSettled(10 * data) <= 10 * LeastSettled(data)
  {
    hide MetadataClusters, CeilDiv;
    var m := LeastSettledClusters(data);
    TenfoldCharge(data, m);
    SufficientInClusters(10 * data, 10 * m);
  }
}
