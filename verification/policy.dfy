/** The per-AS routing policy of the current stack: local RIB, receive
    queue, import validation, best-route selection, export and the
    longest-prefix lookup. Extensions outside this model are held off by
    preconditions or answered by the view's oracle. */
module Policies {
  import opened Wrappers
  import opened Bits
  import opened Enums
  import opened Prefixes
  import opened Announcements
  import opened Topology
  import opened Filters
  import opened Aspa
  import opened Selection

  /** `local_rib` and `recv_q`, both keyed by the stored IPv6 network (the
      dictionary key equality of `Prefix`). */
  datatype PolicyState = PolicyState(localRib: map<Network, Ann>, recvQ: map<Network, seq<Ann>>)

  const Empty: PolicyState := PolicyState(map[], map[])

  /** Every entry sits under its own prefix. */
  predicate Keyed(st: PolicyState) {
    (forall p :: p in st.localRib ==> st.localRib[p].prefix.net == p)
    && (forall p, i :: p in st.recvQ && 0 <= i < |st.recvQ[p]| ==> st.recvQ[p][i].prefix.net == p)
  }

  /** `settings or {x: False for x in Settings}`: an absent or empty mapping
      becomes all-False, which switches on the same settings. */
  function InitSettings(given: Option<Settings>): (r: Settings)
    ensures forall x :: Enabled(r, x) <==> given.Some? && Enabled(given.value, x)
    ensures given.None? || |given.value| == 0 ==> r.Keys == AllSettings
  {
    if given.Some? && |given.value| > 0 then given.value
    else map x | x in AllSettings :: false
  }

  /** The BGPsec and BGP-iSec settings, which rewrite seeded and processed
      announcements in code outside this model. */
  predicate SecOff(s: Settings) {
    !Enabled(s, BGPSEC) && !Enabled(s, BGP_I_SEC) && !Enabled(s, BGP_I_SEC_TRANSITIVE)
  }

  /** The ROV++ settings, whose blackhole handling lies outside this model. */
  predicate RovppOff(s: Settings) {
    !Enabled(s, ROVPP_V1_LITE) && !Enabled(s, ROVPP_V2_LITE) && !Enabled(s, ROVPP_V2I_LITE)
  }

  /** Every setting with a `get_policy_propagate_vals` hook. */
  predicate PropagateHooksOff(s: Settings) {
    SecOff(s) && RovppOff(s) && !Enabled(s, ONLY_TO_CUSTOMERS)
    && !Enabled(s, ORIGIN_PREFIX_HIJACK_CUSTOMERS) && !Enabled(s, FIRST_ASN_STRIPPING_PREFIX_HIJACK_CUSTOMERS)
  }

  /** `clear`. */
  function Clear(st: PolicyState): (r: PolicyState)
    ensures |r.localRib| == 0 && |r.recvQ| == 0
    ensures Keyed(r)
  {
    Empty
  }

  /** `seed_ann`: AssertionError when the prefix already has an entry;
      otherwise the announcement becomes that entry. */
  function SeedAnn(st: PolicyState, s: Settings, a: Ann): (r: Result<PolicyState>)
    requires SecOff(s)
    ensures r.Ok? <==> a.prefix.net !in st.localRib
    ensures r.Err? ==> r.error == AssertionError
    ensures r.Ok? ==> a.prefix.net in r.value.localRib && r.value.localRib[a.prefix.net] == a
    ensures r.Ok? ==> r.value.recvQ == st.recvQ
    ensures r.Ok? ==> forall p :: p != a.prefix.net ==>
              (p in r.value.localRib <==> p in st.localRib)
              && (p in st.localRib ==> r.value.localRib[p] == st.localRib[p])
    ensures r.Ok? && Keyed(st) ==> Keyed(r.value)
  {
    if a.prefix.net in st.localRib then Err(AssertionError)
    else Ok(st.(localRib := st.localRib[a.prefix.net := a]))
  }

  /** Seeding the same prefix twice fails, and a cleared policy accepts any
      seed. */
  lemma SeedOncePerPrefix(st: PolicyState, s: Settings, a: Ann, b: Ann)
    requires SecOff(s) && b.prefix.net == a.prefix.net
    ensures SeedAnn(st, s, a).Ok? ==> SeedAnn(SeedAnn(st, s, a).value, s, b) == Err(AssertionError)
    ensures SeedAnn(Clear(st), s, a).Ok?
  {
  }

  /** The receive queue of a prefix, empty when absent (`defaultdict`). */
  function QueueAt(q: map<Network, seq<Ann>>, p: Network): seq<Ann> {
    if p in q then q[p] else []
  }

  /** `receive_ann`: append to the queue of the announcement's prefix. */
  function ReceiveAnn(st: PolicyState, a: Ann): (r: PolicyState)
    ensures QueueAt(r.recvQ, a.prefix.net) == QueueAt(st.recvQ, a.prefix.net) + [a]
    ensures forall p :: p != a.prefix.net ==> QueueAt(r.recvQ, p) == QueueAt(st.recvQ, p)
    ensures r.recvQ.Keys == st.recvQ.Keys + {a.prefix.net}
    ensures r.localRib == st.localRib
    ensures Keyed(st) ==> Keyed(r)
  {
    st.(recvQ := st.recvQ[a.prefix.net := QueueAt(st.recvQ, a.prefix.net) + [a]])
  }

  /** Any ROV-family setting turns on the ROV check. */
  predicate RovOn(s: Settings) {
    Enabled(s, ROV) || Enabled(s, ROVPP_V1_LITE) || Enabled(s, ROVPP_V2_LITE) || Enabled(s, ROVPP_V2I_LITE)
  }

  /** Plain ASPA runs only when neither superset (ASRA, ASPA with
      neighbours) is on. */
  predicate PlainAspaOn(s: Settings) {
    Enabled(s, ASPA) && !Enabled(s, ASRA) && !Enabled(s, ASPA_W_N)
  }

  /** `valid_ann`: the BGP check, then every enabled filter in order. A
      filter that raises makes the whole check raise. */
  function ValidAnn(v: View, s: Settings, a: Ann, from: Relationship): (r: Result<bool>)
    ensures r.Err? ==> r.error == IndexError || r.error == NotImplementedError || r.error == KeyError
    ensures !Bgp(v, a, from) ==> r == Ok(false)
  {
    if !Bgp(v, a, from) then Ok(false)
    else
      var aspaOk :- if PlainAspaOn(s) then AspaValid(v, a, from) else Ok(true);
      if !aspaOk then Ok(false)
      else LaterFilters(v, s, a, from)
  }

  /** The filters after ASPA, in the order `valid_ann` applies them. */
  function LaterFilters(v: View, s: Settings, a: Ann, from: Relationship): (r: Result<bool>)
    ensures r.Err? ==> r.error == IndexError || r.error == KeyError
  {
    if Enabled(s, ASPA_W_N) && !Enabled(s, ASRA) && !v.external(ASPA_W_N, a, from) then Ok(false)
    else if Enabled(s, ASRA) && !v.external(ASRA, a, from) then Ok(false)
    else if Enabled(s, AS_PATH_EDGE_FILTER) && !v.external(AS_PATH_EDGE_FILTER, a, from) then Ok(false)
    else if Enabled(s, ENFORCE_FIRST_AS) && |a.asPath| == 0 then Err(IndexError)
    else if Enabled(s, ENFORCE_FIRST_AS) && !EnforceFirstAs(v, a, from) then Ok(false)
    else if Enabled(s, ONLY_TO_CUSTOMERS) && !OtcValid(v, a, from) then Ok(false)
    else if RovOn(s) && !Rov(v, a, from) then Ok(false)
    else if Enabled(s, PEER_ROV) && !PeerRov(v, a, from) then Ok(false)
    else if Enabled(s, PATH_END) && !Rov(v, a, from) then Ok(false)
    else if Enabled(s, PATH_END) && |a.asPath| == 0 then Err(IndexError)
    else if Enabled(s, PATH_END) && !PathEnd(v, a, from) then Ok(false)
    else
      var lockOk :- if Enabled(s, PEERLOCK_LITE) then PeerLockLite(v, a, from) else Ok(true);
      if !lockOk then Ok(false)
      else if (Enabled(s, BGP_I_SEC) || Enabled(s, BGP_I_SEC_TRANSITIVE)) && !v.external(BGP_I_SEC_TRANSITIVE, a, from) then Ok(false)
      else if Enabled(s, PROVIDER_CONE_ID) && !v.external(PROVIDER_CONE_ID, a, from) then Ok(false)
      else Ok(true)
  }

  /** Two settings maps that agree on everything but ASPA. */
  predicate SameExceptAspa(s: Settings, s': Settings) {
    forall x :: x != ASPA ==> (Enabled(s, x) <==> Enabled(s', x))
  }

  /** Settings equal except for ASPA agree on every setting the later
      filters read. */
  lemma AgreeAfterAspa(s: Settings, s': Settings)
    requires SameExceptAspa(s, s')
    ensures RovOn(s) == RovOn(s')
    ensures Enabled(s, ASPA_W_N) == Enabled(s', ASPA_W_N) && Enabled(s, ASRA) == Enabled(s', ASRA)
    ensures Enabled(s, AS_PATH_EDGE_FILTER) == Enabled(s', AS_PATH_EDGE_FILTER)
    ensures Enabled(s, ENFORCE_FIRST_AS) == Enabled(s', ENFORCE_FIRST_AS)
    ensures Enabled(s, ONLY_TO_CUSTOMERS) == Enabled(s', ONLY_TO_CUSTOMERS)
    ensures Enabled(s, PEER_ROV) == Enabled(s', PEER_ROV) && Enabled(s, PATH_END) == Enabled(s', PATH_END)
    ensures Enabled(s, PEERLOCK_LITE) == Enabled(s', PEERLOCK_LITE)
    ensures Enabled(s, BGP_I_SEC) == Enabled(s', BGP_I_SEC)
    ensures Enabled(s, BGP_I_SEC_TRANSITIVE) == Enabled(s', BGP_I_SEC_TRANSITIVE)
    ensures Enabled(s, PROVIDER_CONE_ID) == Enabled(s', PROVIDER_CONE_ID)
  {
    assert RovOn(s) == RovOn(s') by {
      assert Enabled(s, ROV) == Enabled(s', ROV);
      assert Enabled(s, ROVPP_V1_LITE) == Enabled(s', ROVPP_V1_LITE);
      assert Enabled(s, ROVPP_V2_LITE) == Enabled(s', ROVPP_V2_LITE);
      assert Enabled(s, ROVPP_V2I_LITE) == Enabled(s', ROVPP_V2I_LITE);
    }
  }

  /** The filters after ASPA do not read the ASPA setting. */
  lemma LaterFiltersIgnoreAspa(v: View, s: Settings, s': Settings, a: Ann, from: Relationship)
    requires SameExceptAspa(s, s')
    ensures LaterFilters(v, s, a, from) == LaterFilters(v, s', a, from)
  {
    AgreeAfterAspa(s, s');
    LaterFiltersAgree(v, s, s', a, from);
  }

  /** The later filters answer alike under settings that agree on what
      they read. */
  lemma LaterFiltersAgree(v: View, s: Settings, s': Settings, a: Ann, from: Relationship)
    requires RovOn(s) == RovOn(s')
    requires Enabled(s, ASPA_W_N) == Enabled(s', ASPA_W_N) && Enabled(s, ASRA) == Enabled(s', ASRA)
    requires Enabled(s, AS_PATH_EDGE_FILTER) == Enabled(s', AS_PATH_EDGE_FILTER)
    requires Enabled(s, ENFORCE_FIRST_AS) == Enabled(s', ENFORCE_FIRST_AS)
    requires Enabled(s, ONLY_TO_CUSTOMERS) == Enabled(s', ONLY_TO_CUSTOMERS)
    requires Enabled(s, PEER_ROV) == Enabled(s', PEER_ROV) && Enabled(s, PATH_END) == Enabled(s', PATH_END)
    requires Enabled(s, PEERLOCK_LITE) == Enabled(s', PEERLOCK_LITE)
    requires Enabled(s, BGP_I_SEC) == Enabled(s', BGP_I_SEC)
    requires Enabled(s, BGP_I_SEC_TRANSITIVE) == Enabled(s', BGP_I_SEC_TRANSITIVE)
    requires Enabled(s, PROVIDER_CONE_ID) == Enabled(s', PROVIDER_CONE_ID)
    ensures LaterFilters(v, s, a, from) == LaterFilters(v, s', a, from)
  {
  }

  /** The order-free reading of `valid_ann`: loop-free and every enabled
      filter accepts. */
  predicate AllEnabledPass(v: View, s: Settings, a: Ann, from: Relationship) {
    Bgp(v, a, from)
    && (PlainAspaOn(s) ==> AspaValid(v, a, from) == Ok(true))
    && (Enabled(s, ASPA_W_N) && !Enabled(s, ASRA) ==> v.external(ASPA_W_N, a, from))
    && (Enabled(s, ASRA) ==> v.external(ASRA, a, from))
    && (Enabled(s, AS_PATH_EDGE_FILTER) ==> v.external(AS_PATH_EDGE_FILTER, a, from))
    && (Enabled(s, ENFORCE_FIRST_AS) ==> |a.asPath| > 0 && EnforceFirstAs(v, a, from))
    && (Enabled(s, ONLY_TO_CUSTOMERS) ==> OtcValid(v, a, from))
    && (RovOn(s) ==> Rov(v, a, from))
    && (Enabled(s, PEER_ROV) ==> PeerRov(v, a, from))
    && (Enabled(s, PATH_END) ==> |a.asPath| > 0 && PathEnd(v, a, from))
    && (Enabled(s, PEERLOCK_LITE) ==> PeerLockLite(v, a, from) == Ok(true))
    && (Enabled(s, BGP_I_SEC) || Enabled(s, BGP_I_SEC_TRANSITIVE) ==> v.external(BGP_I_SEC_TRANSITIVE, a, from))
    && (Enabled(s, PROVIDER_CONE_ID) ==> v.external(PROVIDER_CONE_ID, a, from))
  }

  /** When `valid_ann` returns, its answer is the conjunction; it returns for
      every non-empty path from a neighbour whose ASNs the graph knows. */
  lemma ValidAnnIsConjunction(v: View, s: Settings, a: Ann, from: Relationship)
    ensures ValidAnn(v, s, a, from).Ok? ==> (ValidAnn(v, s, a, from).value <==> AllEnabledPass(v, s, a, from))
    ensures |a.asPath| > 0 && IsNeighborRel(from) && (forall i :: 0 <= i < |a.asPath| ==> a.asPath[i] in v.graph) ==>
              ValidAnn(v, s, a, from).Ok?
  {
  }

  /** With no setting on, only the BGP check remains. */
  lemma ValidAnnPlainBgp(v: View, a: Ann, from: Relationship)
    ensures ValidAnn(v, map[], a, from) == Ok(Bgp(v, a, from))
  {
  }

  /** ASRA and ASPA-with-neighbours supersede plain ASPA: with either on,
      the ASPA setting makes no difference. */
  lemma AspaSkippedUnderSupersets(v: View, s: Settings, a: Ann, from: Relationship)
    requires Enabled(s, ASRA) || Enabled(s, ASPA_W_N)
    ensures ValidAnn(v, s, a, from) == ValidAnn(v, s[ASPA := false], a, from)
    ensures ValidAnn(v, s, a, from) == ValidAnn(v, s[ASPA := true], a, from)
  {
    assert SameExceptAspa(s, s[ASPA := false]);
    assert SameExceptAspa(s, s[ASPA := true]);
    LaterFiltersIgnoreAspa(v, s, s[ASPA := false], a, from);
    LaterFiltersIgnoreAspa(v, s, s[ASPA := true], a, from);
  }

  /** `process_ann` with the BGPsec settings off: prepend our ASN and record
      the relationship; `copy` keeps everything else. */
  function ProcessAnn(own: nat, a: Ann, from: Relationship): (r: Ann)
    ensures r.asPath == [own] + a.asPath && r.recv == from
    ensures r.prefix == a.prefix && r.timestamp == a.timestamp && r.otc == a.otc
    ensures r.bgpsecNextAsn == a.bgpsecNextAsn && r.bgpsecPath == a.bgpsecPath && r.blackhole == a.blackhole
    ensures WellFormed(a) ==> r.nextHop == a.nextHop
  {
    Copy(a, NoOverrides.(asPath := Some([own] + a.asPath), recv := Some(from))).value
  }

  /** `_get_new_best_ann`: an invalid announcement leaves the current entry;
      a valid one is processed and competes with it. */
  function NewBest(v: View, s: Settings, cur: Option<Ann>, a: Ann, from: Relationship): (r: Result<Option<Ann>>)
    requires SecOff(s)
    ensures ValidAnn(v, s, a, from) == Ok(false) ==> r == Ok(cur)
    ensures r.Ok? && r.value != cur ==> ValidAnn(v, s, a, from) == Ok(true) && r.value == Some(ProcessAnn(v.own.asn, a, from))
  {
    var ok :- ValidAnn(v, s, a, from);
    if ok then
      var best :- Best(cur, ProcessAnn(v.own.asn, a, from));
      Ok(Some(best))
    else Ok(cur)
  }

  /** The loop over one prefix's queue in `process_incoming_anns`. */
  function Fold(v: View, s: Settings, cur: Option<Ann>, anns: seq<Ann>, from: Relationship): Result<Option<Ann>>
    requires SecOff(s)
    decreases |anns|
  {
    if |anns| == 0 then Ok(cur)
    else
      var next :- NewBest(v, s, cur, anns[0], from);
      Fold(v, s, next, anns[1..], from)
  }

  /** The fold ends on the entry it started from or on the processed form
      of one of the valid queued announcements. */
  lemma {:induction false} FoldResultIsInput(v: View, s: Settings, cur: Option<Ann>, anns: seq<Ann>, from: Relationship)
    requires SecOff(s)
    requires Fold(v, s, cur, anns, from).Ok?
    ensures var r := Fold(v, s, cur, anns, from).value;
            r == cur || exists i :: 0 <= i < |anns| && ValidAnn(v, s, anns[i], from) == Ok(true)
                                    && r == Some(ProcessAnn(v.own.asn, anns[i], from))
    decreases |anns|
  {
    if |anns| > 0 {
      var next := NewBest(v, s, cur, anns[0], from).value;
      FoldResultIsInput(v, s, next, anns[1..], from);
      var r := Fold(v, s, cur, anns, from).value;
      if r != next {
        var i :| 0 <= i < |anns[1..]| && ValidAnn(v, s, anns[1..][i], from) == Ok(true)
                 && r == Some(ProcessAnn(v.own.asn, anns[1..][i], from));
        assert anns[1..][i] == anns[i + 1];
      }
    }
  }

  /** Dropping an announcement that fails validation does not change the
      fold. */
  lemma {:induction false} FoldIgnoresInvalid(v: View, s: Settings, cur: Option<Ann>, anns: seq<Ann>, from: Relationship, i: nat)
    requires SecOff(s)
    requires i < |anns| && ValidAnn(v, s, anns[i], from) == Ok(false)
    ensures Fold(v, s, cur, anns, from) == Fold(v, s, cur, anns[..i] + anns[i + 1..], from)
    decreases |anns|
  {
    var rest := anns[..i] + anns[i + 1..];
    if i == 0 {
      assert rest == anns[1..];
    } else {
      assert rest[0] == anns[0];
      assert rest[1..] == anns[1..][..i - 1] + anns[1..][i..];
      match NewBest(v, s, cur, anns[0], from)
      case Err(_) =>
      case Ok(next) =>
        FoldIgnoresInvalid(v, s, next, anns[1..], from, i - 1);
    }
  }

  /** An origin entry survives any queue from a neighbour. */
  lemma {:induction false} FoldKeepsOrigin(v: View, s: Settings, cur: Ann, anns: seq<Ann>, from: Relationship)
    requires SecOff(s) && IsNeighborRel(from)
    requires cur.recv == ORIGIN || cur.recv == UNKNOWN
    ensures Fold(v, s, Some(cur), anns, from).Ok? ==> Fold(v, s, Some(cur), anns, from).value == Some(cur)
    decreases |anns|
  {
    if |anns| > 0 {
      match ValidAnn(v, s, anns[0], from)
      case Err(_) =>
      case Ok(ok) =>
        if ok {
          OriginNeverDisplaced(cur, ProcessAnn(v.own.asn, anns[0], from));
        }
        FoldKeepsOrigin(v, s, cur, anns[1..], from);
    }
  }

  /** Queues whose announcements all have non-empty paths. */
  predicate PathsNonEmpty(anns: seq<Ann>) {
    forall i :: 0 <= i < |anns| ==> |anns[i].asPath| > 0
  }

  /** Selection never fails on a queue from a neighbour once the entry it
      starts from is selectable; only a raising filter can stop the fold. */
  lemma {:induction false} FoldFailsOnlyInFilters(v: View, s: Settings, cur: Option<Ann>, anns: seq<Ann>, from: Relationship)
    requires SecOff(s) && IsNeighborRel(from) && PathsNonEmpty(anns)
    requires cur.Some? ==> Selectable(cur.value)
    requires forall i :: 0 <= i < |anns| ==> ValidAnn(v, s, anns[i], from).Ok?
    ensures Fold(v, s, cur, anns, from).Ok?
    ensures var r := Fold(v, s, cur, anns, from).value; r.Some? ==> Selectable(r.value)
    decreases |anns|
  {
    if |anns| > 0 {
      var a := ProcessAnn(v.own.asn, anns[0], from);
      NoErrorOnSelectable(cur, a);
      var next := NewBest(v, s, cur, anns[0], from).value;
      FoldFailsOnlyInFilters(v, s, next, anns[1..], from);
    }
  }

  /** The fold ends on a best route: no valid queued announcement, once
      processed, is strictly better than the result, and neither is the
      starting entry. */
  lemma {:induction false} FoldIsMaximal(v: View, s: Settings, cur: Option<Ann>, anns: seq<Ann>, from: Relationship)
    requires SecOff(s) && IsNeighborRel(from) && PathsNonEmpty(anns)
    requires cur.Some? ==> |cur.value.asPath| >= 2
    requires Fold(v, s, cur, anns, from).Ok? && Fold(v, s, cur, anns, from).value.Some?
    ensures var r := Fold(v, s, cur, anns, from).value.value;
            |r.asPath| >= 2
            && (cur.Some? ==> !Better(cur.value, r))
            && forall i :: 0 <= i < |anns| && ValidAnn(v, s, anns[i], from) == Ok(true) ==>
                 !Better(ProcessAnn(v.own.asn, anns[i], from), r)
    decreases |anns|
  {
    if |anns| > 0 {
      var next := NewBest(v, s, cur, anns[0], from).value;
      var a := ProcessAnn(v.own.asn, anns[0], from);
      assert next.Some? ==> |next.value.asPath| >= 2;
      FoldIsMaximal(v, s, next, anns[1..], from);
      var r := Fold(v, s, cur, anns, from).value.value;
      if ValidAnn(v, s, anns[0], from) == Ok(true) {
        if cur.Some? {
          BestIsLexicographic(cur.value, a);
          BetterIsStrictOrder(cur.value, next.value, r);
          BetterIsStrictOrder(a, next.value, r);
          BetterIsStrictOrder(a, cur.value, next.value);
        }
        assert !Better(a, r) by {
          BetterIsStrictOrder(a, next.value, r);
        }
      }
      forall i | 0 <= i < |anns| && ValidAnn(v, s, anns[i], from) == Ok(true)
        ensures !Better(ProcessAnn(v.own.asn, anns[i], from), r)
      {
        if i > 0 {
          assert anns[i] == anns[1..][i - 1];
        }
      }
    } else {
      assert cur.Some?;
      BetterIsStrictOrder(cur.value, cur.value, cur.value);
    }
  }

  /** `local_rib.get(prefix)`. */
  function Lookup(rib: map<Network, Ann>, p: Network): Option<Ann> {
    if p in rib then Some(rib[p]) else None
  }

  /** `process_incoming_anns` with the ROV++ settings off: every queued
      prefix gets the fold of its queue from its current entry, a changed
      result is stored under its prefix, and the queue is emptied. The call
      fails exactly when some prefix's fold fails. */
  method ProcessIncoming(v: View, s: Settings, st: PolicyState, from: Relationship) returns (r: Result<PolicyState>)
    requires SecOff(s) && RovppOff(s) && Keyed(st)
    ensures r.Ok? <==> forall p :: p in st.recvQ ==> Fold(v, s, Lookup(st.localRib, p), st.recvQ[p], from).Ok?
    ensures r.Ok? ==> r.value.recvQ == map[] && Keyed(r.value)
    ensures r.Ok? ==> forall p :: p !in st.recvQ ==> Lookup(r.value.localRib, p) == Lookup(st.localRib, p)
    ensures r.Ok? ==> forall p :: p in st.recvQ ==>
              Lookup(r.value.localRib, p) == Fold(v, s, Lookup(st.localRib, p), st.recvQ[p], from).value
  {
    var rib := st.localRib;
    var todo := st.recvQ.Keys;
    while todo != {}
      invariant IncomingSoFar(v, s, st, from, rib, todo)
      decreases todo
    {
      var p :| p in todo;
      var cur := Lookup(rib, p);
      var res := Fold(v, s, cur, st.recvQ[p], from);
      if res.Err? {
        return Err(res.error);
      }
      ghost var before := rib;
      FoldResultIsInput(v, s, cur, st.recvQ[p], from);
      if res.value != cur {
        var b := res.value.value;
        rib := rib[b.prefix.net := b];
      }
      IncomingStep(v, s, st, from, before, todo, p, rib);
      todo := todo - {p};
    }
    return Ok(PolicyState(rib, map[]));
  }

  /** The loop invariant of `ProcessIncoming`: the prefixes already handled
      hold their fold, the others their old entry, and every entry sits
      under its own prefix. */
  ghost predicate IncomingSoFar(v: View, s: Settings, st: PolicyState, from: Relationship,
                                rib: map<Network, Ann>, todo: set<Network>)
    requires SecOff(s)
  {
    todo <= st.recvQ.Keys
    && (forall p :: p in st.recvQ && p !in todo ==>
          Fold(v, s, Lookup(st.localRib, p), st.recvQ[p], from).Ok?
          && Lookup(rib, p) == Fold(v, s, Lookup(st.localRib, p), st.recvQ[p], from).value)
    && (forall p :: p !in st.recvQ || p in todo ==> Lookup(rib, p) == Lookup(st.localRib, p))
    && (forall p :: p in rib ==> rib[p].prefix.net == p)
  }

  /** Storing the fold of prefix `p` when it changed extends the invariant
      by `p`. */
  lemma IncomingStep(v: View, s: Settings, st: PolicyState, from: Relationship,
                     rib: map<Network, Ann>, todo: set<Network>, p: Network, rib2: map<Network, Ann>)
    requires SecOff(s) && Keyed(st)
    requires IncomingSoFar(v, s, st, from, rib, todo) && p in todo
    requires Fold(v, s, Lookup(rib, p), st.recvQ[p], from).Ok?
    requires var res := Fold(v, s, Lookup(rib, p), st.recvQ[p], from).value;
             res == Lookup(rib, p) || res.Some?
    requires var res := Fold(v, s, Lookup(rib, p), st.recvQ[p], from).value;
             rib2 == if res != Lookup(rib, p) then rib[res.value.prefix.net := res.value] else rib
    ensures IncomingSoFar(v, s, st, from, rib2, todo - {p})
  {
    var res := Fold(v, s, Lookup(rib, p), st.recvQ[p], from).value;
    if res != Lookup(rib, p) {
      FoldResultIsInput(v, s, Lookup(rib, p), st.recvQ[p], from);
      assert res.value.prefix.net == p;
    }
  }

  /** The relationships whose routes may be sent over `to`: everything to
      customers, only our own and our customers' routes to peers and
      providers. */
  function SendRels(to: Relationship): (r: set<Relationship>)
    requires IsNeighborRel(to)
    ensures ORIGIN in r && CUSTOMERS in r && UNKNOWN !in r
  {
    if to == CUSTOMERS then {ORIGIN, CUSTOMERS, PEERS, PROVIDERS} else {ORIGIN, CUSTOMERS}
  }

  /** The Gao-Rexford export condition: a route may go to a neighbour if we
      originated it, learned it from a customer, or the neighbour is a
      customer. */
  predicate ValleyFreeExport(learned: Relationship, to: Relationship) {
    learned == ORIGIN || learned == CUSTOMERS || (to == CUSTOMERS && IsNeighborRel(learned))
  }

  /** The send sets are exactly the valley-free export condition: peer and
      provider routes only ever go down to customers. */
  lemma SendRelsAreValleyFree(learned: Relationship, to: Relationship)
    requires IsNeighborRel(to)
    ensures learned in SendRels(to) <==> ValleyFreeExport(learned, to)
    ensures (learned == PEERS || learned == PROVIDERS) && learned in SendRels(to) ==> to == CUSTOMERS
  {
  }

  /** The ASNs behind `get_neighbor(to)`. */
  function Targets(own: AsRecord, to: Relationship): set<nat>
    requires IsNeighborRel(to)
  {
    if to == PEERS then own.peerAsns
    else if to == PROVIDERS then own.providerAsns
    else own.customerAsns
  }

  /** The copy that is sent: `copy(next_hop_asn=own)` changes the next hop
      and nothing else. An ASN of 0 is falsy, so the constructor then falls
      back to the last ASN of the path. */
  function SentCopy(own: nat, a: Ann): (r: Ann)
    requires own != 0 || |a.asPath| > 0
    ensures r.nextHop == (if own != 0 then own else a.asPath[|a.asPath| - 1])
    ensures r == a.(nextHop := r.nextHop)
  {
    Copy(a, NoOverrides.(nextHop := Some(own))).value
  }

  /** Every copy `_propagate` makes of a RIB entry can be built: the sender
      has a non-zero ASN, or every entry has a path to fall back on. */
  predicate CanSend(st: PolicyState, own: nat) {
    own != 0 || forall p :: p in st.localRib ==> |st.localRib[p].asPath| > 0
  }

  /** What one RIB entry adds to each target's queue for its prefix. */
  function Exported(st: PolicyState, to: Relationship, own: nat, p: Network): seq<Ann>
    requires IsNeighborRel(to) && CanSend(st, own)
  {
    if p in st.localRib && st.localRib[p].recv in SendRels(to) then [SentCopy(own, st.localRib[p])] else []
  }

  /** `process_outgoing_ann` for one announcement and every target. */
  method SendToAll(nbrs: map<nat, PolicyState>, targets: set<nat>, a: Ann) returns (out: map<nat, PolicyState>)
    requires targets <= nbrs.Keys
    ensures out.Keys == nbrs.Keys
    ensures forall n :: n in nbrs && n !in targets ==> out[n] == nbrs[n]
    ensures forall n :: n in targets ==> out[n] == ReceiveAnn(nbrs[n], a)
  {
    out := nbrs;
    var todo := targets;
    while todo != {}
      invariant todo <= targets
      invariant out.Keys == nbrs.Keys
      invariant forall n :: n in nbrs && (n !in targets || n in todo) ==> out[n] == nbrs[n]
      invariant forall n :: n in targets && n !in todo ==> out[n] == ReceiveAnn(nbrs[n], a)
      decreases todo
    {
      var n :| n in todo;
      out := out[n := ReceiveAnn(out[n], a)];
      todo := todo - {n};
    }
  }

  /** The targets' queues hold their original contents followed by the
      exports of the prefixes in `done`. */
  ghost predicate ExportedSoFar(st: PolicyState, to: Relationship, own: nat, targets: set<nat>,
                          nbrs: map<nat, PolicyState>, out: map<nat, PolicyState>, done: set<Network>)
    requires IsNeighborRel(to) && CanSend(st, own)
  {
    forall n, p :: n in targets && n in nbrs && n in out ==>
      QueueAt(out[n].recvQ, p) == QueueAt(nbrs[n].recvQ, p) + (if p in done then Exported(st, to, own, p) else [])
  }

  /** Sending the export of prefix `p` extends the invariant by `p`. */
  lemma ExportStep(st: PolicyState, to: Relationship, own: nat, targets: set<nat>,
                   nbrs: map<nat, PolicyState>, prev: map<nat, PolicyState>, out: map<nat, PolicyState>,
                   done: set<Network>, p: Network)
    requires IsNeighborRel(to) && CanSend(st, own) && Keyed(st)
    requires p in st.localRib && p !in done
    requires ExportedSoFar(st, to, own, targets, nbrs, prev, done)
    requires targets <= prev.Keys && prev.Keys == out.Keys
    requires st.localRib[p].recv in SendRels(to) ==>
               forall n :: n in targets ==> out[n] == ReceiveAnn(prev[n], SentCopy(own, st.localRib[p]))
    requires st.localRib[p].recv !in SendRels(to) ==> forall n :: n in targets ==> out[n] == prev[n]
    ensures ExportedSoFar(st, to, own, targets, nbrs, out, done + {p})
  {
    forall n, q | n in targets && n in nbrs && n in out
      ensures QueueAt(out[n].recvQ, q)
              == QueueAt(nbrs[n].recvQ, q) + (if q in done + {p} then Exported(st, to, own, q) else [])
    {
      ExportAt(st, to, own, prev[n], out[n], QueueAt(nbrs[n].recvQ, q), done, p, q);
    }
  }

  /** `ExportStep` for one target and one prefix. */
  lemma ExportAt(st: PolicyState, to: Relationship, own: nat, before: PolicyState, after: PolicyState,
                 base: seq<Ann>, done: set<Network>, p: Network, q: Network)
    requires IsNeighborRel(to) && CanSend(st, own) && Keyed(st)
    requires p in st.localRib && p !in done
    requires QueueAt(before.recvQ, q) == base + (if q in done then Exported(st, to, own, q) else [])
    requires st.localRib[p].recv in SendRels(to) ==> after == ReceiveAnn(before, SentCopy(own, st.localRib[p]))
    requires st.localRib[p].recv !in SendRels(to) ==> after == before
    ensures QueueAt(after.recvQ, q) == base + (if q in done + {p} then Exported(st, to, own, q) else [])
  {
    if st.localRib[p].recv in SendRels(to) {
      assert SentCopy(own, st.localRib[p]).prefix.net == p;
    }
  }

  /** `_propagate` with every propagate hook off (`policy_propagate` then
      reports False): each RIB entry whose relationship may be sent over
      `to` is copied with our ASN as next hop into the queue of every
      neighbour over `to`. Nothing else changes. */
  method PropagateTo(own: AsRecord, st: PolicyState, s: Settings, to: Relationship, nbrs: map<nat, PolicyState>)
    returns (out: map<nat, PolicyState>)
    requires IsNeighborRel(to) && PropagateHooksOff(s) && CanSend(st, own.asn) && Keyed(st)
    requires Targets(own, to) <= nbrs.Keys
    ensures out.Keys == nbrs.Keys
    ensures forall n :: n in nbrs && n !in Targets(own, to) ==> out[n] == nbrs[n]
    ensures forall n :: n in Targets(own, to) ==> out[n].localRib == nbrs[n].localRib
    ensures forall n, p :: n in Targets(own, to) ==>
              QueueAt(out[n].recvQ, p) == QueueAt(nbrs[n].recvQ, p) + Exported(st, to, own.asn, p)
  {
    var targets := Targets(own, to);
    out := nbrs;
    var todo := st.localRib.Keys;
    var done: set<Network> := {};
    while todo != {}
      invariant todo <= st.localRib.Keys && done == st.localRib.Keys - todo
      invariant out.Keys == nbrs.Keys
      invariant forall n :: n in nbrs && n !in targets ==> out[n] == nbrs[n]
      invariant forall n :: n in targets ==> out[n].localRib == nbrs[n].localRib
      invariant ExportedSoFar(st, to, own.asn, targets, nbrs, out, done)
      decreases todo
    {
      var p :| p in todo;
      var a := st.localRib[p];
      var prev := out;
      if a.recv in SendRels(to) {
        out := SendToAll(out, targets, SentCopy(own.asn, a));
      }
      ExportStep(st, to, own.asn, targets, nbrs, prev, out, done, p);
      todo := todo - {p};
      done := done + {p};
    }
    forall n, p | n in targets
      ensures QueueAt(out[n].recvQ, p) == QueueAt(nbrs[n].recvQ, p) + Exported(st, to, own.asn, p)
    {
      if p !in done {
        assert p !in st.localRib;
      }
    }
  }

  /** Key i covers the destination, no covering key is longer, and every
      covering key listed before it is shorter: the head of the covering
      keys sorted by `prefixlen`, longest first, by a stable sort. */
  predicate FirstLongestAt(keys: seq<Prefix>, dest: Prefix, i: nat)
    requires i < |keys|
  {
    && SupernetOf(keys[i].net, dest.net)
    && (forall j :: 0 <= j < |keys| && SupernetOf(keys[j].net, dest.net) ==> PrefixLen(keys[j]) <= PrefixLen(keys[i]))
    && (forall j :: 0 <= j < i && SupernetOf(keys[j].net, dest.net) ==> PrefixLen(keys[j]) < PrefixLen(keys[i]))
  }

  /** The position of `matching_prefixes[0]` among the RIB's keys, listed
      in insertion order; None when no key covers the destination. */
  function MostSpecificKey(keys: seq<Prefix>, dest: Prefix): (r: Option<nat>)
    ensures r.None? <==> forall j :: 0 <= j < |keys| ==> !SupernetOf(keys[j].net, dest.net)
    ensures r.Some? ==> r.value < |keys| && FirstLongestAt(keys, dest, r.value)
    decreases |keys|
  {
    if |keys| == 0 then None
    else
      var init := keys[..|keys| - 1];
      var last := |keys| - 1;
      var r := MostSpecificKey(init, dest);
      assert forall j :: 0 <= j < |init| ==> init[j] == keys[j];
      if !SupernetOf(keys[last].net, dest.net) then r
      else if r.None? || PrefixLen(keys[last]) > PrefixLen(keys[r.value]) then Some(last)
      else r
  }

  /** The stable-sort reading fixes the answer: at most one key is the
      first longest covering key. */
  lemma FirstLongestUnique(keys: seq<Prefix>, dest: Prefix, i: nat, j: nat)
    requires i < |keys| && j < |keys|
    requires FirstLongestAt(keys, dest, i) && FirstLongestAt(keys, dest, j)
    ensures i == j
  {
  }

  /** `most_specific_prefix` before the route is looked up: the key itself. */
  function MostSpecificPrefix(keys: seq<Prefix>, dest: Prefix): (r: Option<Prefix>)
    ensures r.None? <==> MostSpecificKey(keys, dest).None?
    ensures r.Some? ==> r.value == keys[MostSpecificKey(keys, dest).value]
  {
    match MostSpecificKey(keys, dest)
    case None => None
    case Some(i) => Some(keys[i])
  }

  /** `get_most_specific_ann` without its cache: the route stored under the
      first longest covering key, ranked by the key's own `prefixlen`. */
  function MostSpecific(rib: map<Network, Ann>, keys: seq<Prefix>, dest: Prefix): (r: Option<Ann>)
    requires forall j :: 0 <= j < |keys| ==> keys[j].net in rib
    ensures r.None? <==> forall j :: 0 <= j < |keys| ==> !SupernetOf(keys[j].net, dest.net)
    ensures r.Some? ==> exists i :: 0 <= i < |keys| && FirstLongestAt(keys, dest, i) && r.value == rib[keys[i].net]
  {
    match MostSpecificKey(keys, dest)
    case None => None
    case Some(i) => Some(rib[keys[i].net])
  }

  /** Within one address family the most specific covering network is
      unique: two valid covering networks of the same length coincide, so
      the answer does not depend on iteration order. */
  lemma CoveringNetworkUnique(p: Prefix, q: Prefix, dest: Prefix)
    requires ValidNetwork(p.net) && ValidNetwork(q.net)
    requires p.isV4 == q.isV4 && PrefixLen(p) == PrefixLen(q)
    requires SupernetOf(p.net, dest.net) && SupernetOf(q.net, dest.net)
    ensures p.net == q.net
  {
    var m := Pow2(128 - p.net.len);
    SameAlignedBlock(p.net.addr, q.net.addr, dest.net.addr, m);
  }

  /** Two multiples of `m` whose blocks of size `m` share a point are equal. */
  lemma SameAlignedBlock(a: nat, b: nat, d: nat, m: nat)
    requires m > 0 && a % m == 0 && b % m == 0
    requires a <= d < a + m && b <= d < b + m
    ensures a == b
  {
    var ka := a / m;
    var kb := b / m;
    assert a == ka * m;
    assert b == kb * m;
    DivModUnique(d, m, ka, d - a);
    DivModUnique(d, m, kb, d - b);
  }

  /** Across families the ranking uses the family-relative length, so the
      IPv4 key `1.2.3.0/24` (stored as a `/120`) loses to the IPv6 key
      `::ffff:1.2.0.0/112`, which covers more addresses. */
  lemma MixedFamiliesRankByFamilyLength(rib: map<Network, Ann>, p: Prefix, q: Prefix)
    requires p == Prefix(Network(MappedBase + 0x0102_0300, 120), true)
    requires q == Prefix(Network(MappedBase + 0x0102_0000, 112), false)
    requires p.net in rib && q.net in rib
    ensures MostSpecificKey([p, q], Prefix(Network(MappedBase + 0x0102_0304, 128), true)) == Some(1)
    ensures MostSpecific(rib, [p, q], Prefix(Network(MappedBase + 0x0102_0304, 128), true)) == Some(rib[q.net])
    ensures p.net.len > q.net.len
  {
    var dest := Prefix(Network(MappedBase + 0x0102_0304, 128), true);
    Pow2Of8();
    Pow2Of16();
    assert SupernetOf(p.net, dest.net);
    assert SupernetOf(q.net, dest.net);
    assert PrefixLen(p) == 24 && PrefixLen(q) == 112;
  }

  /** Two covering keys of equal `prefixlen` (an IPv4 `/24` and the native
      IPv6 `::/24`, say): the one inserted first wins. */
  lemma TieKeepsFirstInserted(keys: seq<Prefix>, dest: Prefix, i: nat, j: nat)
    requires i < j < |keys|
    requires SupernetOf(keys[i].net, dest.net) && SupernetOf(keys[j].net, dest.net)
    requires PrefixLen(keys[i]) == PrefixLen(keys[j])
    ensures MostSpecificKey(keys, dest) != Some(j)
  {
  }
}
