/** The older AS class, whose classification counts neighbour lists rather
    than ASN sets. */
module LegacyAs {
  import opened Wrappers
  import opened Seqs
  import Topology

  /** Neighbours are held as lists of AS objects; an object is identified
      here by its ASN. */
  datatype LegacyRecord = LegacyRecord(
    asn: nat,
    peers: seq<nat>,
    providers: seq<nat>,
    customers: seq<nat>,
    tier1: bool,
    ixp: bool)

  /** `neighbors`: customers, then peers, then providers. */
  function Neighbors(a: LegacyRecord): seq<nat> {
    a.customers + a.peers + a.providers
  }

  /** `neighbor_asns`. */
  function NeighborAsns(a: LegacyRecord): (r: set<nat>)
    ensures forall n :: n in r <==> n in a.customers || n in a.peers || n in a.providers
  {
    Elems(Neighbors(a))
  }

  predicate Stub(a: LegacyRecord) {
    |Neighbors(a)| == 1
  }

  predicate Multihomed(a: LegacyRecord) {
    |a.customers| == 0 && |a.peers| + |a.providers| > 1
  }

  predicate Transit(a: LegacyRecord) {
    |a.customers| > 0 && |a.customers| + |a.peers| + |a.providers| > 1
  }

  /** `__lt__`. */
  predicate Less(a: LegacyRecord, b: LegacyRecord) {
    a.asn < b.asn
  }

  /** `__hash__`: the hash of the ASN, computed once. */
  function Hash(a: LegacyRecord): nat {
    a.asn
  }

  /** Ordering and hashing look only at the ASN. */
  lemma OrderAndHashByAsn(a: LegacyRecord, a': LegacyRecord, b: LegacyRecord)
    requires a.asn == a'.asn
    ensures Hash(a) == Hash(a')
    ensures Less(a, b) <==> Less(a', b)
    ensures Less(b, a) <==> Less(b, a')
    ensures !Less(a, a)
  {
  }

  /** The same AS seen through the newer, set-based record. */
  function AsSets(a: LegacyRecord): (r: Topology.AsRecord)
    ensures r.asn == a.asn
    ensures Topology.NeighborAsns(r) == NeighborAsns(a)
  {
    Topology.AsRecord(a.asn, Elems(a.peers), Elems(a.providers), Elems(a.customers),
                      a.tier1, a.ixp, {}, None)
  }

  /** Duplicate-free lists with no ASN under two relationships. */
  predicate Clean(a: LegacyRecord) {
    Distinct(a.peers) && Distinct(a.providers) && Distinct(a.customers)
    && Elems(a.customers) !! Elems(a.peers) && Elems(a.customers) !! Elems(a.providers)
    && Elems(a.peers) !! Elems(a.providers)
  }

  /** On clean neighbour lists the list-based classification agrees with
      the set-based one. */
  lemma AgreesWithSetRecord(a: LegacyRecord)
    requires Clean(a)
    ensures Stub(a) <==> Topology.Stub(AsSets(a))
    ensures Multihomed(a) <==> Topology.Multihomed(AsSets(a))
    ensures Transit(a) <==> Topology.Transit(AsSets(a))
    ensures Topology.Disjoint(AsSets(a))
  {
    DistinctSeqCard(a.peers);
    DistinctSeqCard(a.providers);
    DistinctSeqCard(a.customers);
    var r := AsSets(a);
    Topology.ClassificationPartition(r);
    assert |Topology.NeighborAsns(r)| == |a.customers| + |a.peers| + |a.providers| by {
      assert |r.customerAsns + r.peerAsns| == |r.customerAsns| + |r.peerAsns|;
      assert (r.customerAsns + r.peerAsns) !! r.providerAsns;
    }
  }

  /** A peer listed twice makes the AS multihomed and not a stub here,
      while the set-based record calls it a stub and not multihomed. */
  lemma DuplicateNeighborDiverges()
    ensures var a := LegacyRecord(1, [5, 5], [], [], false, false);
            Multihomed(a) && !Stub(a)
            && Topology.Stub(AsSets(a)) && !Topology.Multihomed(AsSets(a))
  {
    var a := LegacyRecord(1, [5, 5], [], [], false, false);
    assert Elems(a.peers) == {5};
    assert Topology.NeighborAsns(AsSets(a)) == {5};
  }
}
