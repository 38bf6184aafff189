/** Autonomous systems as the graph stores them: ASN sets per relationship,
    CAIDA flags, and the classification of section 3.1 of RFC 1772. */
module Topology {
  import opened Wrappers
  import opened Enums

  datatype AsRecord = AsRecord(
    asn: nat,
    peerAsns: set<nat>,
    providerAsns: set<nat>,
    customerAsns: set<nat>,
    tier1: bool,
    ixp: bool,
    providerConeAsns: set<nat>,
    propagationRank: Option<nat>)

  /** `neighbor_asns`. */
  function NeighborAsns(a: AsRecord): set<nat> {
    a.customerAsns + a.peerAsns + a.providerAsns
  }

  /** `stub`: exactly one neighbouring ASN. */
  predicate Stub(a: AsRecord) {
    |NeighborAsns(a)| == 1
  }

  /** `multihomed`: no customers, and more than one peer or provider. */
  predicate Multihomed(a: AsRecord) {
    |a.customerAsns| == 0 && |a.peerAsns| + |a.providerAsns| > 1
  }

  /** `transit`: some customer, and more than one neighbour in total. */
  predicate Transit(a: AsRecord) {
    |a.customerAsns| > 0 && |a.customerAsns| + |a.peerAsns| + |a.providerAsns| > 1
  }

  /** No ASN is listed under two relationships. */
  predicate Disjoint(a: AsRecord) {
    a.customerAsns !! a.peerAsns && a.customerAsns !! a.providerAsns && a.peerAsns !! a.providerAsns
  }

  /** With disjoint relationship sets, an AS with at least one neighbour is
      exactly one of stub, multihomed or transit, and an AS with none is
      none of them. */
  lemma ClassificationPartition(a: AsRecord)
    requires Disjoint(a)
    ensures Stub(a) ==> !Multihomed(a) && !Transit(a)
    ensures Multihomed(a) ==> !Transit(a)
    ensures |NeighborAsns(a)| >= 1 <==> Stub(a) || Multihomed(a) || Transit(a)
    ensures |NeighborAsns(a)| == 0 ==> !Stub(a) && !Multihomed(a) && !Transit(a)
  {
    assert |a.customerAsns + a.peerAsns| == |a.customerAsns| + |a.peerAsns|;
    assert (a.customerAsns + a.peerAsns) !! a.providerAsns;
    assert |NeighborAsns(a)| == |a.customerAsns| + |a.peerAsns| + |a.providerAsns|;
  }

  /** When an ASN is both a peer and a provider, the AS counts as a stub and
      as multihomed at once. */
  lemma OverlapBreaksExclusivity()
    ensures var a := AsRecord(1, {5}, {5}, {}, false, false, {}, None);
            Stub(a) && Multihomed(a)
  {
    var a := AsRecord(1, {5}, {5}, {}, false, false, {}, None);
    assert NeighborAsns(a) == {5};
  }

  /** The neighbour objects resolved by `set_relations`. */
  datatype Relations = Relations(peers: set<AsRecord>, providers: set<AsRecord>, customers: set<AsRecord>)

  /** The records behind a set of ASNs. */
  function Resolve(asns: set<nat>, graph: map<nat, AsRecord>): set<AsRecord>
    requires asns <= graph.Keys
  {
    set n | n in asns :: graph[n]
  }

  /** `set_relations` with the graph indexed through its `as_dict`, as
      `ASGraph.__getitem__` evidently means: ValueError without a graph (an
      empty graph is falsy too), KeyError for an ASN the graph lacks,
      otherwise the neighbour objects. */
  function SetRelations(a: AsRecord, graph: Option<map<nat, AsRecord>>): (r: Result<Relations>)
    ensures (graph.None? || |graph.value| == 0) ==> r == Err(ValueError)
    ensures r.Ok? <==> graph.Some? && |graph.value| > 0 && NeighborAsns(a) <= graph.value.Keys
    ensures r.Err? && graph.Some? && |graph.value| > 0 ==> r.error == KeyError
  {
    if graph.None? || |graph.value| == 0 then Err(ValueError)
    else if !(a.peerAsns <= graph.value.Keys) then Err(KeyError)
    else if !(a.providerAsns <= graph.value.Keys) then Err(KeyError)
    else if !(a.customerAsns <= graph.value.Keys) then Err(KeyError)
    else Ok(Relations(Resolve(a.peerAsns, graph.value), Resolve(a.providerAsns, graph.value),
                      Resolve(a.customerAsns, graph.value)))
  }

  /** In a graph whose records carry their own key, the resolved neighbours
      are exactly the listed ASNs. */
  lemma SetRelationsResolvesListedAsns(a: AsRecord, graph: map<nat, AsRecord>)
    requires forall n :: n in graph ==> graph[n].asn == n
    requires |graph| > 0 && NeighborAsns(a) <= graph.Keys
    ensures SetRelations(a, Some(graph)).Ok?
    ensures var rel := SetRelations(a, Some(graph)).value;
            (set x | x in rel.peers :: x.asn) == a.peerAsns
            && (set x | x in rel.providers :: x.asn) == a.providerAsns
            && (set x | x in rel.customers :: x.asn) == a.customerAsns
  {
    var rel := SetRelations(a, Some(graph)).value;
    assert forall n :: n in a.peerAsns ==> graph[n] in rel.peers;
    assert forall n :: n in a.providerAsns ==> graph[n] in rel.providers;
    assert forall n :: n in a.customerAsns ==> graph[n] in rel.customers;
  }

  /** `set_relations` as written: indexing the graph goes through
      `ASGraph.__getitem__`, which reads the attribute `ases` that the graph
      never sets, so the first neighbour looked up raises AttributeError. */
  function SetRelationsAsWritten(a: AsRecord, graph: Option<map<nat, AsRecord>>): (r: Result<Relations>)
    ensures (graph.None? || |graph.value| == 0) ==> r == Err(ValueError)
    ensures graph.Some? && |graph.value| > 0 ==>
              (r.Err? <==> NeighborAsns(a) != {}) && (r.Err? ==> r.error == AttributeError)
    ensures r.Ok? ==> r == SetRelations(a, graph)
  {
    if graph.None? || |graph.value| == 0 then Err(ValueError)
    else if a.peerAsns != {} || a.providerAsns != {} || a.customerAsns != {} then Err(AttributeError)
    else
      assert forall g: map<nat, AsRecord> :: Resolve({}, g) == {};
      Ok(Relations({}, {}, {}))
  }

  /** Every AS with a neighbour fails as written, even in a graph holding
      all its neighbours, where the intended lookup succeeds. */
  lemma SetRelationsAsWrittenRaises(a: AsRecord, graph: map<nat, AsRecord>)
    requires |graph| > 0 && NeighborAsns(a) != {} && NeighborAsns(a) <= graph.Keys
    ensures SetRelationsAsWritten(a, Some(graph)) == Err(AttributeError)
    ensures SetRelations(a, Some(graph)).Ok?
  {
  }

  /** `get_neighbor`: the neighbours over one relationship; ValueError for
      ORIGIN and UNKNOWN. */
  function GetNeighbor(rels: Relations, rel: Relationship): (r: Result<set<AsRecord>>)
    ensures r.Ok? <==> IsNeighborRel(rel)
    ensures r.Err? ==> r.error == ValueError
    ensures rel == PEERS ==> r == Ok(rels.peers)
    ensures rel == PROVIDERS ==> r == Ok(rels.providers)
    ensures rel == CUSTOMERS ==> r == Ok(rels.customers)
  {
    match rel
    case PEERS => Ok(rels.peers)
    case PROVIDERS => Ok(rels.providers)
    case CUSTOMERS => Ok(rels.customers)
    case _ => Err(ValueError)
  }

  /** `__lt__`. */
  predicate Less(a: AsRecord, b: AsRecord) {
    a.asn < b.asn
  }

  /** `__hash__`: the hash of the ASN. */
  function Hash(a: AsRecord): nat {
    a.asn
  }

  /** Ordering and hashing look only at the ASN: records with the same ASN
      are interchangeable for both, and the order is a strict total order on
      ASNs. */
  lemma OrderAndHashByAsn(a: AsRecord, a': AsRecord, b: AsRecord)
    requires a.asn == a'.asn
    ensures Hash(a) == Hash(a')
    ensures Less(a, b) <==> Less(a', b)
    ensures Less(b, a) <==> Less(b, a')
    ensures !Less(a, a)
    ensures a.asn != b.asn ==> (Less(a, b) <==> !Less(b, a))
  {
  }
}
