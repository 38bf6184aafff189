/** The older `RoutingPolicy` stack. Its RIB, receive queue, seeding,
    selection, processing and longest-prefix lookup are the same code as the
    current stack (module Policies); it differs in `valid_ann`, which runs
    Edge-Filter and no Peer-ROV, and in `policy_propagate`. */
module RoutingPolicies {
  import opened Wrappers
  import opened Enums
  import opened Prefixes
  import opened Announcements
  import opened Topology
  import opened Filters
  import opened Aspa
  import opened Selection
  import opened Policies

  /** The filters after the BGP check, in the order the older `valid_ann`
      applies them, given the verdicts of its ASPA and PeerLock-Lite
      filters (each consulted only when its setting is on). Edge-Filter
      raises IndexError on an empty path and KeyError when a first-hop
      neighbour is missing from the graph. */
  function OldChain(v: View, s: Settings, a: Ann, from: Relationship, aspa: Result<bool>, peerLock: Result<bool>): (r: Result<bool>)
  {
    var aspaOk :- if PlainAspaOn(s) then aspa else Ok(true);
    if !aspaOk then Ok(false)
    else if Enabled(s, ASPA_W_N) && !Enabled(s, ASRA) && !v.external(ASPA_W_N, a, from) then Ok(false)
    else if Enabled(s, ASRA) && !v.external(ASRA, a, from) then Ok(false)
    else if Enabled(s, EDGE_FILTER) && |a.asPath| == 0 then Err(IndexError)
    else if Enabled(s, EDGE_FILTER) && !EdgeLookupOk(v, a) then Err(KeyError)
    else if Enabled(s, EDGE_FILTER) && !EdgeFilter(v, a, from) then Ok(false)
    else if Enabled(s, ENFORCE_FIRST_AS) && |a.asPath| == 0 then Err(IndexError)
    else if Enabled(s, ENFORCE_FIRST_AS) && !EnforceFirstAs(v, a, from) then Ok(false)
    else if Enabled(s, ONLY_TO_CUSTOMERS) && !OtcValid(v, a, from) then Ok(false)
    else if Enabled(s, ROV) && !Rov(v, a, from) then Ok(false)
    else if Enabled(s, PATH_END) && !Rov(v, a, from) then Ok(false)
    else if Enabled(s, PATH_END) && |a.asPath| == 0 then Err(IndexError)
    else if Enabled(s, PATH_END) && !PathEnd(v, a, from) then Ok(false)
    else if Enabled(s, PEERLOCK_LITE) then peerLock
    else Ok(true)
  }

  /** The older chain with its ASPA and PeerLock-Lite filters corrected:
      the intended `_provider_check` and the tier-1 test of the newer
      PeerLock-Lite. */
  function OldLaterFilters(v: View, s: Settings, a: Ann, from: Relationship): (r: Result<bool>)
    ensures r.Err? ==> r.error == IndexError || r.error == NotImplementedError || r.error == KeyError
    ensures r == Ok(true) && Enabled(s, EDGE_FILTER) ==> EdgeLookupOk(v, a) && EdgeFilter(v, a, from)
    ensures r == Ok(true) && Enabled(s, ROV) ==> Rov(v, a, from)
    ensures r == Ok(true) && PlainAspaOn(s) ==> AspaValid(v, a, from) == Ok(true)
  {
    OldChain(v, s, a, from, AspaValid(v, a, from), PeerLockLite(v, a, from))
  }

  /** The older chain as written: its ASPA filter raises NameError on a
      known AS (aspa.py:136) and its PeerLock-Lite raises on every
      customer route (peerlock_lite.py:17). Where it answers at all, it
      answers as the corrected chain does. */
  function OldLaterFiltersAsWritten(v: View, s: Settings, a: Ann, from: Relationship): (r: Result<bool>)
    ensures r.Ok? ==> r == OldLaterFilters(v, s, a, from)
    ensures PlainAspaOn(s) && AspaValidAsWritten(v, a, from).Err? ==> r == AspaValidAsWritten(v, a, from)
    ensures !PlainAspaOn(s) && !Enabled(s, PEERLOCK_LITE) ==> r == OldLaterFilters(v, s, a, from)
  {
    OldChain(v, s, a, from, AspaValidAsWritten(v, a, from), PeerLockLiteAsWritten(v, a, from))
  }

  /** The older `valid_ann` as written: the BGP test lacks its `not`, so an
      announcement that passes the loop and AS 0 check is dropped and only
      one that fails it reaches the other filters. */
  function OldValidAnnAsWritten(v: View, s: Settings, a: Ann, from: Relationship): (r: Result<bool>)
    ensures Bgp(v, a, from) ==> r == Ok(false)
    ensures r == Ok(true) ==> v.own.asn in a.asPath || 0 in a.asPath
  {
    if Bgp(v, a, from) then Ok(false)
    else OldLaterFiltersAsWritten(v, s, a, from)
  }

  /** The older `valid_ann` with the test the comment describes: loop and
      AS 0 rejection first, then the filters. */
  function OldValidAnn(v: View, s: Settings, a: Ann, from: Relationship): (r: Result<bool>)
    ensures !Bgp(v, a, from) ==> r == Ok(false)
    ensures r == Ok(true) ==> v.own.asn !in a.asPath && 0 !in a.asPath
  {
    if !Bgp(v, a, from) then Ok(false)
    else OldLaterFilters(v, s, a, from)
  }

  /** The two readings never accept the same announcement: whatever the
      written check accepts, the intended one rejects, and the other way
      round. */
  lemma AsWrittenAcceptsOnlyWhatIntendedRejects(v: View, s: Settings, a: Ann, from: Relationship)
    ensures OldValidAnnAsWritten(v, s, a, from) == Ok(true) ==> OldValidAnn(v, s, a, from) == Ok(false)
    ensures OldValidAnn(v, s, a, from) == Ok(true) ==> OldValidAnnAsWritten(v, s, a, from) == Ok(false)
  {
  }

  /** A looped customer route reaches the written filters, and with plain
      ASPA on and a known second AS on its path the written ASPA filter
      raises NameError there. */
  lemma LoopedRouteRaisesAsWritten(v: View, s: Settings, a: Ann)
    requires !Bgp(v, a, CUSTOMERS) && PlainAspaOn(s)
    requires |a.asPath| >= 2 && NextHopValid(v, a) && a.asPath[1] in v.graph
    ensures OldValidAnnAsWritten(v, s, a, CUSTOMERS) == Err(NameError)
    ensures OldValidAnn(v, s, a, CUSTOMERS) == Ok(false)
  {
  }

  /** Settings on which the two stacks' filter chains can be compared:
      nothing that only one of them knows is switched on. */
  predicate SharedSettingsOnly(s: Settings) {
    !Enabled(s, EDGE_FILTER) && !Enabled(s, PEER_ROV) && !Enabled(s, AS_PATH_EDGE_FILTER)
    && RovppOff(s) && SecOff(s) && !Enabled(s, PROVIDER_CONE_ID)
  }

  /** On the settings both stacks know, the intended older check and the
      current `valid_ann` give the same answer, errors included. */
  lemma OldValidAnnMatchesNew(v: View, s: Settings, a: Ann, from: Relationship)
    requires SharedSettingsOnly(s)
    ensures OldValidAnn(v, s, a, from) == ValidAnn(v, s, a, from)
  {
    assert RovOn(s) == Enabled(s, ROV);
  }

  /** `_get_new_best_ann` over the written check. */
  function OldNewBestAsWritten(v: View, s: Settings, cur: Option<Ann>, a: Ann, from: Relationship): (r: Result<Option<Ann>>)
    ensures Bgp(v, a, from) ==> r == Ok(cur)
  {
    var ok :- OldValidAnnAsWritten(v, s, a, from);
    if ok then
      var best :- Best(cur, ProcessAnn(v.own.asn, a, from));
      Ok(Some(best))
    else Ok(cur)
  }

  /** The per-prefix loop of the older `process_incoming_anns` over the
      written check. */
  function OldFoldAsWritten(v: View, s: Settings, cur: Option<Ann>, anns: seq<Ann>, from: Relationship): Result<Option<Ann>>
    decreases |anns|
  {
    if |anns| == 0 then Ok(cur)
    else
      var next :- OldNewBestAsWritten(v, s, cur, anns[0], from);
      OldFoldAsWritten(v, s, next, anns[1..], from)
  }

  /** As written, a queue of loop-free announcements never changes the
      entry: the older stack cannot learn any well-formed route. */
  lemma {:induction false} OldFoldAsWrittenLearnsNothing(v: View, s: Settings, cur: Option<Ann>, anns: seq<Ann>, from: Relationship)
    requires forall i :: 0 <= i < |anns| ==> Bgp(v, anns[i], from)
    ensures OldFoldAsWritten(v, s, cur, anns, from) == Ok(cur)
    decreases |anns|
  {
    if |anns| > 0 {
      assert Bgp(v, anns[0], from);
      assert forall i :: 0 <= i < |anns[1..]| ==> anns[1..][i] == anns[i + 1];
      OldFoldAsWrittenLearnsNothing(v, s, cur, anns[1..], from);
    }
  }

  /** The error the older `policy_propagate` raises for every announcement
      it is asked about: without Only-To-Customers it returns the undefined
      name `policy_propagate`; with it, the hook reads the missing
      `as_obj` attribute toward customers and providers and builds the
      unimported `PolicyPropagateInfo` toward peers. */
  function OldPolicyPropagateError(s: Settings, to: Relationship): (e: PyError)
    requires IsNeighborRel(to)
    ensures !Enabled(s, ONLY_TO_CUSTOMERS) ==> e == NameError
    ensures Enabled(s, ONLY_TO_CUSTOMERS) ==> (e == NameError <==> to == PEERS)
  {
    if Enabled(s, ONLY_TO_CUSTOMERS) && to != PEERS then AttributeError else NameError
  }

  /** The older `_propagate` as written: it begins by asking its AS for
      `get_neighbor`, which the `AS` class the older policy is built with
      does not define, so every call raises AttributeError before any
      route is looked at. */
  function OldPropagateAsWritten(own: AsRecord, st: PolicyState, s: Settings, to: Relationship,
                                 nbrs: map<nat, PolicyState>): (r: Result<map<nat, PolicyState>>)
    requires IsNeighborRel(to)
    ensures r.Err? && r.error == AttributeError
  {
    Err(AttributeError)
  }

  /** The older `_propagate` with the neighbour lookup of the newer AS
      class: with no neighbour over `to`, or nothing sendable, it does
      nothing; otherwise the first call of `policy_propagate` raises. */
  function OldPropagateNeighborsFixed(own: AsRecord, st: PolicyState, s: Settings, to: Relationship,
                                      nbrs: map<nat, PolicyState>): (r: Result<map<nat, PolicyState>>)
    requires IsNeighborRel(to)
    ensures r.Ok? ==> r.value == nbrs
    ensures r.Err? ==> r.error == OldPolicyPropagateError(s, to)
  {
    if Targets(own, to) != {} && exists p :: p in st.localRib && st.localRib[p].recv in SendRels(to) then
      Err(OldPolicyPropagateError(s, to))
    else Ok(nbrs)
  }

  /** Even with the lookup repaired, `_propagate` succeeds exactly when the
      intended export (Policies.PropagateTo) would send nothing: whenever a
      route is due to reach a neighbour, the hook raises instead. */
  lemma OldPropagateFailsWhenExportDue(own: AsRecord, st: PolicyState, s: Settings, to: Relationship,
                                       nbrs: map<nat, PolicyState>)
    requires IsNeighborRel(to) && CanSend(st, own.asn)
    ensures OldPropagateNeighborsFixed(own, st, s, to, nbrs).Ok? <==>
              forall n, p :: n in Targets(own, to) ==> Exported(st, to, own.asn, p) == []
  {
    if Targets(own, to) != {} && exists p :: p in st.localRib && st.localRib[p].recv in SendRels(to) {
      var n :| n in Targets(own, to);
      var p :| p in st.localRib && st.localRib[p].recv in SendRels(to);
      assert Exported(st, to, own.asn, p) != [];
    }
  }

  /** The written `_propagate` never succeeds: where Policies.PropagateTo
      delivers a route to a neighbour, the written code raises at the
      lookup, and with the lookup repaired it raises at the hook. */
  lemma OldPropagateNeverSucceeds(own: AsRecord, st: PolicyState, s: Settings, to: Relationship,
                                  nbrs: map<nat, PolicyState>, n: nat, p: Network)
    requires IsNeighborRel(to) && CanSend(st, own.asn)
    requires n in Targets(own, to) && Exported(st, to, own.asn, p) != []
    ensures OldPropagateAsWritten(own, st, s, to, nbrs) == Err(AttributeError)
    ensures OldPropagateNeighborsFixed(own, st, s, to, nbrs) == Err(OldPolicyPropagateError(s, to))
  {
    assert p in st.localRib && st.localRib[p].recv in SendRels(to);
  }

  /** The older lookup matches entries with `dest in p`, which is the same
      test as the current `p.supernet_of(dest)`, so MostSpecific models
      both. */
  lemma OldLookupMatchesSameEntries(rib: map<Network, Ann>, dest: Prefix)
    ensures forall p :: p in rib ==> (Contains(rib[p].prefix, dest) <==> SupernetOf(rib[p].prefix.net, dest.net))
  {
    forall p | p in rib
      ensures Contains(rib[p].prefix, dest) <==> SupernetOf(rib[p].prefix.net, dest.net)
    {
      ContainsIsPreorder(rib[p].prefix, dest, dest);
    }
  }
}
