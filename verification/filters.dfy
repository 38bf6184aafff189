/** Import filters: pure verdicts on an announcement received over a given
    relationship, as seen from the receiving AS. */
module Filters {
  import opened Wrappers
  import opened Enums
  import opened Seqs
  import opened Announcements
  import opened Topology

  /** What a filter may consult: the receiving AS, the whole graph keyed by
      ASN, the settings every AS runs, the route validator (an oracle over
      the announcement), and the verdicts of filters outside this model. */
  datatype View = View(
    own: AsRecord,
    graph: map<nat, AsRecord>,
    settingsOf: map<nat, Settings>,
    validate: Ann -> Validity,
    external: (Setting, Ann, Relationship) -> bool)

  /** Every record is stored under its own ASN. */
  predicate Coherent(v: View) {
    forall n :: n in v.graph ==> v.graph[n].asn == n
  }

  /** The setting `s` is switched on at AS `asn` (`.get(s, False)`). */
  predicate Adopts(v: View, asn: nat, s: Setting) {
    asn in v.settingsOf && Enabled(v.settingsOf[asn], s)
  }

  /** BGP loop prevention and the AS 0 ban of section 2 of RFC 7607. */
  predicate Bgp(v: View, a: Ann, from: Relationship)
    ensures Bgp(v, a, from) <==> forall i :: 0 <= i < |a.asPath| ==> a.asPath[i] != v.own.asn && a.asPath[i] != 0
  {
    v.own.asn !in a.asPath && 0 !in a.asPath
  }

  /** Route origin validation (section 2 of RFC 6811): only "invalid" is
      dropped; "unknown" passes. */
  predicate Rov(v: View, a: Ann, from: Relationship)
    ensures Rov(v, a, from) <==> v.validate(a) == VALID || v.validate(a) == UNKNOWN_VALIDITY
  {
    !IsInvalid(v.validate(a))
  }

  /** ROV applied only to announcements from peers. */
  predicate PeerRov(v: View, a: Ann, from: Relationship)
    ensures from != PEERS ==> PeerRov(v, a, from)
    ensures from == PEERS ==> (PeerRov(v, a, from) <==> Rov(v, a, from))
  {
    if from == PEERS then Rov(v, a, from) else true
  }

  /** Peer-ROV never drops what ROV keeps, and drops exactly the
      ROV-invalid announcements that come from peers. */
  lemma PeerRovWeakerThanRov(v: View, a: Ann, from: Relationship)
    ensures Rov(v, a, from) ==> PeerRov(v, a, from)
    ensures !PeerRov(v, a, from) <==> from == PEERS && v.validate(a) == INVALID
  {
  }

  /** Enforce-First-AS (section 6.3 of RFC 4271), approximated by asking that
      the next hop lead the path and be a neighbour. */
  predicate EnforceFirstAs(v: View, a: Ann, from: Relationship)
    requires |a.asPath| > 0
    ensures EnforceFirstAs(v, a, from) ==> a.asPath[0] in NeighborAsns(v.own) && a.nextHop == a.asPath[0]
  {
    a.nextHop == a.asPath[0] && a.nextHop in NeighborAsns(v.own)
  }

  /** Only-To-Customers (section 5 of RFC 9234) on import: an OTC route may
      not come from a customer, nor from a peer other than the one that set
      the attribute. An unset or zero attribute never rejects. */
  predicate OtcValid(v: View, a: Ann, from: Relationship)
    ensures !Truthy(a.otc) ==> OtcValid(v, a, from)
    ensures from == PROVIDERS ==> OtcValid(v, a, from)
    ensures Truthy(a.otc) && from == CUSTOMERS ==> !OtcValid(v, a, from)
    ensures Truthy(a.otc) && from == PEERS ==> (OtcValid(v, a, from) <==> a.nextHop == a.otc.value)
  {
    !((Truthy(a.otc) && from == PEERS && a.nextHop != a.otc.value)
      || (Truthy(a.otc) && from == CUSTOMERS))
  }

  /** Path-End: after ROV, an origin that deploys Path-End must list the AS
      just before it in the path among its neighbours. */
  predicate PathEnd(v: View, a: Ann, from: Relationship)
    requires |a.asPath| > 0
  {
    if !Rov(v, a, from) then false
    else
      var origin := a.asPath[|a.asPath| - 1];
      if origin in v.graph && Adopts(v, origin, PATH_END) && |a.asPath| > 1 then
        a.asPath[|a.asPath| - 2] in NeighborAsns(v.graph[origin])
      else true
  }

  /** Path-End rejects exactly the ROV-invalid announcements and the ones
      whose last hop is not a neighbour of an adopting origin. */
  lemma PathEndVerdict(v: View, a: Ann, from: Relationship)
    requires |a.asPath| > 0
    ensures !Rov(v, a, from) ==> !PathEnd(v, a, from)
    ensures |a.asPath| == 1 ==> (PathEnd(v, a, from) <==> Rov(v, a, from))
    ensures Origin(a).value !in v.graph || !Adopts(v, Origin(a).value, PATH_END) ==>
              (PathEnd(v, a, from) <==> Rov(v, a, from))
    ensures Rov(v, a, from) && |a.asPath| > 1 && Origin(a).value in v.graph && Adopts(v, Origin(a).value, PATH_END) ==>
              (PathEnd(v, a, from) <==> a.asPath[|a.asPath| - 2] in NeighborAsns(v.graph[Origin(a).value]))
  {
  }

  /** The lookups Edge-Filter performs succeed: a first-hop neighbour is in
      the graph. */
  predicate EdgeLookupOk(v: View, a: Ann) {
    |a.asPath| > 0 && (a.asPath[0] in NeighborAsns(v.own) ==> a.asPath[0] in v.graph)
  }

  /** Edge-Filter: a stub or multihomed neighbour may only announce paths
      made of its own ASN. */
  predicate EdgeFilter(v: View, a: Ann, from: Relationship)
    requires EdgeLookupOk(v, a)
  {
    var first := a.asPath[0];
    if first in NeighborAsns(v.own) then
      var n := v.graph[first];
      !((Stub(n) || Multihomed(n)) && Elems(a.asPath) != {n.asn})
    else true
  }

  /** Edge-Filter's verdict: paths from non-neighbours and from transit
      neighbours pass, and a stub or multihomed neighbour passes exactly
      when every ASN on the path is its own. */
  lemma EdgeFilterVerdict(v: View, a: Ann, from: Relationship)
    requires Coherent(v) && EdgeLookupOk(v, a)
    ensures a.asPath[0] !in NeighborAsns(v.own) ==> EdgeFilter(v, a, from)
    ensures a.asPath[0] in NeighborAsns(v.own) && Disjoint(v.graph[a.asPath[0]]) && Transit(v.graph[a.asPath[0]]) ==>
              EdgeFilter(v, a, from)
    ensures a.asPath[0] in NeighborAsns(v.own) && (Stub(v.graph[a.asPath[0]]) || Multihomed(v.graph[a.asPath[0]])) ==>
              (EdgeFilter(v, a, from) <==> forall i :: 0 <= i < |a.asPath| ==> a.asPath[i] == a.asPath[0])
  {
    var first := a.asPath[0];
    if first in NeighborAsns(v.own) {
      var n := v.graph[first];
      if Disjoint(n) {
        ClassificationPartition(n);
      }
      if forall i :: 0 <= i < |a.asPath| ==> a.asPath[i] == first {
        assert Elems(a.asPath) == {n.asn};
      } else {
        var i :| 0 <= i < |a.asPath| && a.asPath[i] != first;
        assert a.asPath[i] in Elems(a.asPath);
      }
    }
  }

  /** The tier-1 scan of PeerLock-Lite over the path, in order: Ok(true) at
      the first tier-1 AS, KeyError at an ASN missing from the graph before
      any tier-1 AS, Ok(false) when the path holds no tier-1 AS. */
  function Tier1Scan(path: seq<nat>, graph: map<nat, AsRecord>): (r: Result<bool>)
    ensures r.Err? ==> r.error == KeyError
    ensures (forall i :: 0 <= i < |path| ==> path[i] in graph) ==> r.Ok?
    ensures r.Ok? ==> (r.value <==> exists i :: 0 <= i < |path| && path[i] in graph && graph[path[i]].tier1)
  {
    if |path| == 0 then Ok(false)
    else if path[0] !in graph then Err(KeyError)
    else if graph[path[0]].tier1 then Ok(true)
    else
      var rest := Tier1Scan(path[1..], graph);
      assert forall i :: 1 <= i < |path| ==> path[i] == path[1..][i - 1];
      rest
  }

  /** PeerLock-Lite: a route from a customer that crosses a tier-1 AS is a
      leak. The scan fails with KeyError on an ASN the graph lacks. */
  function PeerLockLite(v: View, a: Ann, from: Relationship): (r: Result<bool>)
    ensures from != CUSTOMERS ==> r == Ok(true)
    ensures r.Err? ==> r.error == KeyError && from == CUSTOMERS
    ensures from == CUSTOMERS && (forall i :: 0 <= i < |a.asPath| ==> a.asPath[i] in v.graph) ==>
              r.Ok? && (r.value <==> forall i :: 0 <= i < |a.asPath| ==> !v.graph[a.asPath[i]].tier1)
  {
    if from == CUSTOMERS then
      match Tier1Scan(a.asPath, v.graph)
      case Ok(found) => Ok(!found)
      case Err(e) => Err(e)
    else Ok(true)
  }

  /** The older PeerLock-Lite reads an attribute `tier` that the AS class
      does not have: from a customer, the first path ASN raises KeyError if
      missing and AttributeError otherwise. */
  function PeerLockLiteAsWritten(v: View, a: Ann, from: Relationship): (r: Result<bool>)
    ensures from != CUSTOMERS || |a.asPath| == 0 ==> r == Ok(true)
    ensures from == CUSTOMERS && |a.asPath| > 0 ==> r.Err?
  {
    if from == CUSTOMERS && |a.asPath| > 0 then
      if a.asPath[0] in v.graph then Err(AttributeError) else Err(KeyError)
    else Ok(true)
  }

  /** A customer route over a known AS: the older filter raises where the
      newer one decides. */
  lemma PeerLockLiteAsWrittenRaises(v: View, a: Ann)
    requires |a.asPath| > 0 && forall i :: 0 <= i < |a.asPath| ==> a.asPath[i] in v.graph
    ensures PeerLockLiteAsWritten(v, a, CUSTOMERS) == Err(AttributeError)
    ensures PeerLockLite(v, a, CUSTOMERS).Ok?
  {
  }

  /** Apart from PeerROV, Only-To-Customers and PeerLock-Lite, the filters
      ignore the relationship the route came over. */
  lemma FromRelIrrelevant(v: View, a: Ann, r1: Relationship, r2: Relationship)
    ensures Bgp(v, a, r1) == Bgp(v, a, r2)
    ensures Rov(v, a, r1) == Rov(v, a, r2)
    ensures |a.asPath| > 0 ==> EnforceFirstAs(v, a, r1) == EnforceFirstAs(v, a, r2)
    ensures |a.asPath| > 0 ==> PathEnd(v, a, r1) == PathEnd(v, a, r2)
    ensures EdgeLookupOk(v, a) ==> EdgeFilter(v, a, r1) == EdgeFilter(v, a, r2)
  {
  }
}
