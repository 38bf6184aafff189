/** AS path verification with ASPA records, following the upstream and
    downstream procedures of draft-ietf-sidrops-aspa-verification (revision
    18). Hops are checked over the reversed path, origin first. */
module Aspa {
  import opened Wrappers
  import opened Enums
  import opened Announcements
  import opened Topology
  import opened Filters

  function Reverse(s: seq<nat>): (r: seq<nat>)
    ensures |r| == |s|
    ensures forall i :: 0 <= i < |s| ==> r[i] == s[|s| - 1 - i]
  {
    if |s| == 0 then [] else [s[|s| - 1]] + Reverse(s[..|s| - 1])
  }

  /** `_provider_check(asn1, asn2)`: "Not Provider+" (false) exactly when
      asn1 is a known AS that adopts ASPA and asn2 is not a known AS among
      its providers. */
  predicate ProviderCheck(v: View, asn1: nat, asn2: nat) {
    if asn1 in v.graph && Adopts(v, asn1, ASPA) then
      asn2 in v.graph && v.graph[asn2].asn in v.graph[asn1].providerAsns
    else true
  }

  /** On a coherent graph the check fails iff asn1 attests to its providers
      and asn2 is not one of them; an ASN missing from the graph fails. */
  lemma ProviderCheckMeaning(v: View, asn1: nat, asn2: nat)
    requires Coherent(v)
    ensures !ProviderCheck(v, asn1, asn2) <==>
              asn1 in v.graph && Adopts(v, asn1, ASPA)
              && (asn2 !in v.graph || asn2 !in v.graph[asn1].providerAsns)
    ensures asn1 !in v.graph ==> ProviderCheck(v, asn1, asn2)
  {
  }

  /** As written, `_provider_check` names `RoutingPolicySettings`, which the
      module never imports: any known asn1 raises NameError. */
  function ProviderCheckAsWritten(v: View, asn1: nat, asn2: nat): (r: Result<bool>)
    ensures r.Ok? <==> asn1 !in v.graph
    ensures r.Ok? ==> r.value
    ensures r.Err? ==> r.error == NameError
  {
    if asn1 in v.graph then Err(NameError) else Ok(true)
  }

  /** The check as written disagrees with the intended one whenever asn1 is
      known: for an adopting asn1 and a non-provider asn2 the intended
      answer is "Not Provider+", the written one an exception. */
  lemma ProviderCheckAsWrittenRaises(v: View, asn1: nat, asn2: nat)
    requires asn1 in v.graph && Adopts(v, asn1, ASPA) && asn2 !in v.graph
    ensures ProviderCheckAsWritten(v, asn1, asn2) == Err(NameError)
    ensures !ProviderCheck(v, asn1, asn2)
  {
  }

  /** Up-hop j of a reversed path: rev[j] must list rev[j+1] as provider. */
  predicate UpHop(v: View, rev: seq<nat>, j: int)
    requires 0 <= j && j + 1 < |rev|
  {
    ProviderCheck(v, rev[j], rev[j + 1])
  }

  /** Down-hop i of a reversed path: rev[i] must list rev[i-1] as provider. */
  predicate DownHop(v: View, rev: seq<nat>, i: int)
    requires 1 <= i < |rev|
  {
    ProviderCheck(v, rev[i], rev[i - 1])
  }

  /** The scan of `_get_max_up_ramp_length` from index i: the first failing
      up-hop j gives j + 1, no failure gives the path length. */
  function UpRampFrom(v: View, rev: seq<nat>, i: nat): (r: nat)
    requires i < |rev|
    decreases |rev| - i
    ensures i + 1 <= r <= |rev|
    ensures forall j :: i <= j < r - 1 ==> UpHop(v, rev, j)
    ensures r < |rev| ==> !UpHop(v, rev, r - 1)
  {
    if i + 1 >= |rev| then |rev|
    else if !UpHop(v, rev, i) then i + 1
    else UpRampFrom(v, rev, i + 1)
  }

  /** The scan of `_get_max_down_ramp_length` from index i downwards: the
      largest failing down-hop j gives N - j, no failure gives N. */
  function DownRampFrom(v: View, rev: seq<nat>, i: nat): (r: nat)
    requires i < |rev|
    decreases i
    ensures 1 <= r <= |rev|
    ensures forall j :: |rev| - r < j <= i ==> DownHop(v, rev, j)
    ensures r < |rev| ==> 1 <= |rev| - r <= i && !DownHop(v, rev, |rev| - r)
  {
    if i == 0 then |rev|
    else if !DownHop(v, rev, i) then |rev| - i
    else DownRampFrom(v, rev, i - 1)
  }

  /** `_get_max_up_ramp_length`. */
  function MaxUpRamp(v: View, path: seq<nat>): (r: nat)
    ensures |path| == 0 ==> r == 0
    ensures |path| >= 1 ==> 1 <= r <= |path|
    ensures forall j :: 0 <= j < r - 1 ==> UpHop(v, Reverse(path), j)
    ensures r < |path| ==> !UpHop(v, Reverse(path), r - 1)
  {
    var rev := Reverse(path);
    if |rev| == 0 then 0 else UpRampFrom(v, rev, 0)
  }

  /** `_get_max_down_ramp_length`. */
  function MaxDownRamp(v: View, path: seq<nat>): (r: nat)
    ensures |path| == 0 ==> r == 0
    ensures |path| >= 1 ==> 1 <= r <= |path|
    ensures forall j :: |path| - r < j < |path| && 1 <= j ==> DownHop(v, Reverse(path), j)
    ensures r < |path| ==> 1 <= |path| - r && !DownHop(v, Reverse(path), |path| - r)
  {
    var rev := Reverse(path);
    if |rev| == 0 then 0 else DownRampFrom(v, rev, |rev| - 1)
  }

  /** `_upstream_check`: a one-AS path passes; otherwise the up-ramp must
      span the whole path. */
  predicate Upstream(v: View, path: seq<nat>) {
    if |path| == 1 then true else MaxUpRamp(v, path) >= |path|
  }

  /** `_downstream_check`: the up-ramp and the down-ramp together must
      cover the path. */
  predicate Downstream(v: View, path: seq<nat>) {
    MaxUpRamp(v, path) + MaxDownRamp(v, path) >= |path|
  }

  /** Reference reading of the upstream procedure: every hop of the
      reversed path is attested customer-to-provider. */
  lemma UpstreamIffEveryHopUp(v: View, path: seq<nat>)
    ensures Upstream(v, path) <==> forall j :: 0 <= j < |path| - 1 ==> UpHop(v, Reverse(path), j)
  {
    var r := MaxUpRamp(v, path);
    if |path| >= 2 && r < |path| {
      assert !UpHop(v, Reverse(path), r - 1);
    }
  }

  /** rev[0..k] is an up-ramp: every hop below k is attested. */
  predicate ClimbsTo(v: View, rev: seq<nat>, k: int) {
    forall j :: 0 <= j < k && j + 1 < |rev| ==> UpHop(v, rev, j)
  }

  /** rev[k+1..] is a down-ramp: every hop above k + 1 is attested. */
  predicate DescendsFrom(v: View, rev: seq<nat>, k: int) {
    forall j :: k + 1 < j < |rev| && 1 <= j ==> DownHop(v, rev, j)
  }

  /** Reference reading of the downstream procedure: the path climbs up to
      some apex k, may cross one unattested (peering) hop from k to k + 1,
      and then only descends. */
  predicate HasApex(v: View, path: seq<nat>) {
    exists k :: 0 <= k < |path| && ClimbsTo(v, Reverse(path), k) && DescendsFrom(v, Reverse(path), k)
  }

  lemma {:induction false} DownstreamIffApex(v: View, path: seq<nat>)
    requires |path| >= 1
    ensures Downstream(v, path) <==> HasApex(v, path)
  {
    var rev := Reverse(path);
    var n := |path|;
    var u := MaxUpRamp(v, path);
    var d := MaxDownRamp(v, path);
    if u + d >= n {
      var k := u - 1;
      assert ClimbsTo(v, rev, k);
      assert DescendsFrom(v, rev, k);
    }
    if HasApex(v, path) {
      var k :| 0 <= k < n && ClimbsTo(v, rev, k) && DescendsFrom(v, rev, k);
      assert u >= k + 1;
      assert d >= n - k - 1;
    }
  }

  /** Every path that passes the upstream check passes the downstream one. */
  lemma UpstreamImpliesDownstream(v: View, path: seq<nat>)
    ensures Upstream(v, path) ==> Downstream(v, path)
  {
  }

  /** `_next_hop_valid`: the next hop leads the path, unless the receiver is
      an IXP route server. */
  predicate NextHopValid(v: View, a: Ann)
    requires |a.asPath| > 0
  {
    a.nextHop == a.asPath[0] || v.own.ixp
  }

  /** `ASPA.valid_ann`. An empty path raises IndexError at the next-hop
      test; ORIGIN and UNKNOWN raise NotImplementedError once that test
      passes. */
  function AspaValid(v: View, a: Ann, from: Relationship): (r: Result<bool>)
    ensures r.Ok? <==> |a.asPath| > 0 && (!NextHopValid(v, a) || IsNeighborRel(from))
    ensures |a.asPath| == 0 ==> r == Err(IndexError)
    ensures |a.asPath| > 0 && !IsNeighborRel(from) && NextHopValid(v, a) ==> r == Err(NotImplementedError)
    ensures |a.asPath| > 0 && !NextHopValid(v, a) ==> r == Ok(false)
    ensures |a.asPath| > 0 && NextHopValid(v, a) && from == PROVIDERS ==> r == Ok(Downstream(v, a.asPath))
    ensures |a.asPath| > 0 && NextHopValid(v, a) && (from == CUSTOMERS || from == PEERS) ==>
              r == Ok(Upstream(v, a.asPath))
  {
    if |a.asPath| == 0 then Err(IndexError)
    else if !NextHopValid(v, a) then Ok(false)
    else if from == PROVIDERS then Ok(Downstream(v, a.asPath))
    else if from == CUSTOMERS || from == PEERS then Ok(Upstream(v, a.asPath))
    else Err(NotImplementedError)
  }

  /** A route from a provider is held to the weaker downstream rule: any
      route acceptable from a customer or a peer is acceptable from a
      provider. */
  lemma ProvidersJudgedMoreLeniently(v: View, a: Ann)
    requires |a.asPath| > 0
    ensures AspaValid(v, a, CUSTOMERS) == Ok(true) ==> AspaValid(v, a, PROVIDERS) == Ok(true)
    ensures AspaValid(v, a, PEERS) == AspaValid(v, a, CUSTOMERS)
  {
    UpstreamImpliesDownstream(v, a.asPath);
  }

  /* ---------------------------------------------------------------------
     As written, every `_provider_check` on a known asn1 raises NameError
     (see ProviderCheckAsWritten) and it never answers "Not Provider+", so
     the ramp scans raise at the first hop whose asn1 is in the graph and
     otherwise run to the end.
     --------------------------------------------------------------------- */

  /** The up-ramp scan over the written provider check. */
  function UpRampAsWrittenFrom(v: View, rev: seq<nat>, i: nat): (r: Result<nat>)
    requires i < |rev|
    decreases |rev| - i
    ensures r.Err? <==> exists j :: i <= j < |rev| - 1 && rev[j] in v.graph
    ensures r.Err? ==> r.error == NameError
    ensures r.Ok? ==> r.value == |rev|
  {
    if i + 1 >= |rev| then Ok(|rev|)
    else
      var _ :- ProviderCheckAsWritten(v, rev[i], rev[i + 1]);
      UpRampAsWrittenFrom(v, rev, i + 1)
  }

  /** The down-ramp scan over the written provider check. */
  function DownRampAsWrittenFrom(v: View, rev: seq<nat>, i: nat): (r: Result<nat>)
    requires i < |rev|
    decreases i
    ensures r.Err? <==> exists j :: 1 <= j <= i && rev[j] in v.graph
    ensures r.Err? ==> r.error == NameError
    ensures r.Ok? ==> r.value == |rev|
  {
    if i == 0 then Ok(|rev|)
    else
      var _ :- ProviderCheckAsWritten(v, rev[i], rev[i - 1]);
      DownRampAsWrittenFrom(v, rev, i - 1)
  }

  /** `ASPA.valid_ann` as written, with the ramp scans over the written
      provider check. */
  function AspaValidAsWritten(v: View, a: Ann, from: Relationship): (r: Result<bool>)
    ensures r.Err? && r.error == NameError ==>
              |a.asPath| >= 2 && exists i :: 0 <= i < |a.asPath| && a.asPath[i] in v.graph
    ensures r.Ok? ==> r == AspaValid(v, a, from)
    ensures (forall i :: 0 <= i < |a.asPath| ==> a.asPath[i] !in v.graph) ==> r == AspaValid(v, a, from)
    ensures |a.asPath| >= 2 && NextHopValid(v, a) && (from == CUSTOMERS || from == PEERS) && a.asPath[1] in v.graph ==>
              r == Err(NameError)
  {
    if |a.asPath| == 0 then Err(IndexError)
    else if !NextHopValid(v, a) then Ok(false)
    else if from == PROVIDERS then
      var rev := Reverse(a.asPath);
      var up :- UpRampAsWrittenFrom(v, rev, 0);
      var down :- DownRampAsWrittenFrom(v, rev, |rev| - 1);
      AllHopsUp(v, a.asPath);
      Ok(up + down >= |a.asPath|)
    else if from == CUSTOMERS || from == PEERS then
      if |a.asPath| == 1 then Ok(true)
      else
        var rev := Reverse(a.asPath);
        assert rev[|rev| - 2] == a.asPath[1];
        var up :- UpRampAsWrittenFrom(v, rev, 0);
        AllHopsUp(v, a.asPath);
        Ok(up >= |a.asPath|)
    else Err(NotImplementedError)
  }

  /** When no hop of the up-ramp scan names a known AS, every up-hop is
      attested and the path passes both procedures. */
  lemma AllHopsUp(v: View, path: seq<nat>)
    requires |path| >= 1
    requires forall j :: 0 <= j < |path| - 1 ==> Reverse(path)[j] !in v.graph
    ensures MaxUpRamp(v, path) == |path|
    ensures Upstream(v, path) && Downstream(v, path)
  {
    assert forall j :: 0 <= j < |path| - 1 ==> UpHop(v, Reverse(path), j);
  }
}
