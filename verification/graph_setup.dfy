/** `add_extra_setup`: cycle check, provider cones, propagation ranks and
    the per-rank lists, run once per graph and guarded by a flag. */
module GraphSetup {
  import opened Wrappers
  import opened Seqs
  import opened GraphCycles
  import opened GraphCones
  import opened GraphRanks
  import opened GraphBuckets

  /** The parts of the AS graph JSON the setup reads and writes: the AS
      records in their dictionary order and the three top-level entries. */
  datatype GraphJson = GraphJson(
    ases: Ases,
    order: seq<nat>,
    extraSetupComplete: bool,
    cyclesDetected: Option<bool>,
    propagationRankAsns: Option<seq<seq<nat>>>)

  /** The records with their cone and rank written in. */
  function Annotate(g: Ases, cones: Memo, ranks: Ranks): (r: Ases)
    requires cones.Keys == g.Keys && ranks.Keys == g.Keys
    ensures r.Keys == g.Keys
    ensures forall k :: k in r ==> r[k] == g[k].(providerCone := Some(cones[k]), propagationRank := ranks[k])
  {
    map k | k in g :: g[k].(providerCone := Some(cones[k]), propagationRank := ranks[k])
  }

  /** The records keep their keys and both neighbour lists. */
  predicate SameEdges(g: Ases, h: Ases) {
    g.Keys == h.Keys
    && forall k :: k in g ==> h[k].providerAsns == g[k].providerAsns && h[k].customerAsns == g[k].customerAsns
  }

  /** Every record holds its provider cone: the ASes reachable from it
      over one or more provider links of `g`. */
  ghost predicate ConesHold(g: Ases, h: Ases) {
    forall m :: m in h ==> h[m].providerCone.Some? && ConeIs(g, m, h[m].providerCone.value)
  }

  ghost predicate ConeIs(g: Ases, m: nat, cone: set<nat>) {
    forall x :: x in cone <==> InCone(g, m, x)
  }

  /** Every record is ranked, above each of its customers in `g`. */
  predicate RanksHold(g: Ases, h: Ases) {
    (forall k :: k in h ==> h[k].propagationRank.Some?)
    && forall c, p :: c in g && p in Succ(g, c, ProviderAsns) ==>
         p in h && c in h && h[p].propagationRank.Some? && h[c].propagationRank.Some?
         && h[p].propagationRank.value >= h[c].propagationRank.value + 1
  }

  /** The per-rank lists: each ascending, and each AS in the list of its
      rank and in no other. */
  predicate ListsHold(h: Ases, b: seq<seq<nat>>) {
    (forall k :: 0 <= k < |b| ==> Ascending(b[k]))
    && (forall k :: 0 <= k < |b| ==> forall x :: x in b[k] ==> x in h && h[x].propagationRank == Some(k))
    && forall x :: x in h ==> InOwnList(h, b, x)
  }

  predicate InOwnList(h: Ases, b: seq<seq<nat>>, x: nat)
    requires x in h
  {
    h[x].propagationRank.Some? && h[x].propagationRank.value < |b| && x in b[h[x].propagationRank.value]
  }

  /** What a completed setup promises about the records of `g`, with edges
      read from `g`. */
  ghost predicate SetUp(g: Ases, order: seq<nat>, j: GraphJson) {
    SameEdges(g, j.ases)
    && Closed(g, ProviderAsns) && Closed(g, CustomerAsns)
    && Acyclic(g, ProviderAsns) && Acyclic(g, CustomerAsns)
    && j.order == order && j.extraSetupComplete && j.cyclesDetected == Some(false)
    && ConesHold(g, j.ases) && RanksHold(g, j.ases)
    && j.propagationRankAsns.Some? && ListsHold(j.ases, j.propagationRankAsns.value)
  }

  /** The cones on a table that passed the cycle check. */
  function ConesOf(g: Ases, order: seq<nat>): (cones: Memo)
    requires KeyOrder(g, order) && Closed(g, ProviderAsns) && Acyclic(g, ProviderAsns)
    ensures cones.Keys == g.Keys && forall m, x :: m in cones ==> (x in cones[m] <==> InCone(g, m, x))
  {
    AddProviderConeAsns(g, order).value
  }

  /** The ranks on a table that passed the cycle check. */
  function RanksOf(g: Ases, order: seq<nat>): (ranks: Ranks)
    requires KeyOrder(g, order) && Closed(g, ProviderAsns) && Acyclic(g, ProviderAsns)
    ensures ranks.Keys == g.Keys && forall k :: k in g ==> ranks[k].Some?
    ensures forall c, p :: c in g && p in Succ(g, c, ProviderAsns) ==> p in g && ranks[p].value >= ranks[c].value + 1
  {
    AssignRanks(g, order).value
  }

  /** The setup once the cycle check has passed. */
  function Complete(j: GraphJson): (r: Result<GraphJson>)
    requires KeyOrder(j.ases, j.order)
    requires Closed(j.ases, ProviderAsns) && Closed(j.ases, CustomerAsns)
    requires Acyclic(j.ases, ProviderAsns) && Acyclic(j.ases, CustomerAsns)
    ensures r.Ok? ==> SetUp(j.ases, j.order, r.value)
    ensures r.Err? <==> |j.order| == 0
    ensures r.Err? ==> r.error == ValueError
  {
    var g := j.ases;
    var cones := ConesOf(g, j.order);
    var ranks := RanksOf(g, j.order);
    OrderRanked(g, j.order);
    var b :- Buckets(j.order, ranks);
    SetUpHolds(j, b);
    Ok(GraphJson(Annotate(g, cones, ranks), j.order, true, Some(false), Some(b)))
  }

  lemma OrderRanked(g: Ases, order: seq<nat>)
    requires KeyOrder(g, order) && Closed(g, ProviderAsns) && Acyclic(g, ProviderAsns)
    ensures Distinct(order) && Elems(order) <= RanksOf(g, order).Keys && AllRanked(order, RanksOf(g, order))
  {
    var ranks := RanksOf(g, order);
    forall i | 0 <= i < |order| ensures ranks[order[i]].Some? {
      assert order[i] in Elems(order);
    }
  }

  /** The written graph meets SetUp, one part at a time. */
  lemma SetUpHolds(j: GraphJson, b: seq<seq<nat>>)
    requires KeyOrder(j.ases, j.order)
    requires Closed(j.ases, ProviderAsns) && Closed(j.ases, CustomerAsns)
    requires Acyclic(j.ases, ProviderAsns) && Acyclic(j.ases, CustomerAsns)
    requires Elems(j.order) <= RanksOf(j.ases, j.order).Keys && Buckets(j.order, RanksOf(j.ases, j.order)) == Ok(b)
    ensures SetUp(j.ases, j.order, GraphJson(Annotate(j.ases, ConesOf(j.ases, j.order), RanksOf(j.ases, j.order)),
                                             j.order, true, Some(false), Some(b)))
  {
    ListsWritten(j.ases, j.order, ConesOf(j.ases, j.order), RanksOf(j.ases, j.order), b);
    ConesWritten(j.ases, ConesOf(j.ases, j.order), RanksOf(j.ases, j.order));
    RanksWritten(j.ases, ConesOf(j.ases, j.order), RanksOf(j.ases, j.order));
  }

  lemma ConesWritten(g: Ases, cones: Memo, ranks: Ranks)
    requires cones.Keys == g.Keys && ranks.Keys == g.Keys
    requires forall m, x :: m in cones ==> (x in cones[m] <==> InCone(g, m, x))
    ensures SameEdges(g, Annotate(g, cones, ranks)) && ConesHold(g, Annotate(g, cones, ranks))
  {
    var h := Annotate(g, cones, ranks);
    forall m | m in h ensures h[m].providerCone.Some? && ConeIs(g, m, h[m].providerCone.value) {
      assert h[m].providerCone == Some(cones[m]);
    }
  }

  lemma RanksWritten(g: Ases, cones: Memo, ranks: Ranks)
    requires cones.Keys == g.Keys && ranks.Keys == g.Keys && forall k :: k in g ==> ranks[k].Some?
    requires forall c, p :: c in g && p in Succ(g, c, ProviderAsns) ==> p in g && ranks[p].value >= ranks[c].value + 1
    ensures RanksHold(g, Annotate(g, cones, ranks))
  {
  }

  lemma ListsWritten(g: Ases, order: seq<nat>, cones: Memo, ranks: Ranks, b: seq<seq<nat>>)
    requires KeyOrder(g, order) && cones.Keys == g.Keys && ranks.Keys == g.Keys
    requires Buckets(order, ranks) == Ok(b)
    ensures ListsHold(Annotate(g, cones, ranks), b)
  {
    ListsSound(g, order, cones, ranks, b);
    ListsComplete(g, order, cones, ranks, b);
  }

  lemma ListsSound(g: Ases, order: seq<nat>, cones: Memo, ranks: Ranks, b: seq<seq<nat>>)
    requires KeyOrder(g, order) && cones.Keys == g.Keys && ranks.Keys == g.Keys
    requires Buckets(order, ranks) == Ok(b)
    ensures forall k :: 0 <= k < |b| ==> forall x :: x in b[k] ==>
              x in Annotate(g, cones, ranks) && Annotate(g, cones, ranks)[x].propagationRank == Some(k)
  {
    var h := Annotate(g, cones, ranks);
    forall k, x | 0 <= k < |b| && x in b[k] ensures x in h && h[x].propagationRank == Some(k) {
      BucketsMember(order, ranks, b, k, x);
      assert x in Elems(order);
    }
  }

  lemma ListsComplete(g: Ases, order: seq<nat>, cones: Memo, ranks: Ranks, b: seq<seq<nat>>)
    requires KeyOrder(g, order) && cones.Keys == g.Keys && ranks.Keys == g.Keys
    requires Buckets(order, ranks) == Ok(b)
    ensures forall x :: x in Annotate(g, cones, ranks) ==> InOwnList(Annotate(g, cones, ranks), b, x)
  {
    var h := Annotate(g, cones, ranks);
    forall x | x in h ensures InOwnList(h, b, x) {
      assert x in Elems(order);
    }
  }


  /** `add_extra_setup`. A graph already marked complete is returned as is.
      Otherwise the cycle check runs over both relations, each record gets
      its provider cone and propagation rank, the per-rank lists are built,
      `cycles_detected` becomes False and the flag is set. The check fails
      with CycleError on a cycle and KeyError on a listed ASN without a
      record; an empty table has no highest rank and fails with
      ValueError. */
  function AddExtraSetup(j: GraphJson): (r: Result<GraphJson>)
    requires KeyOrder(j.ases, j.order)
    ensures j.extraSetupComplete ==> r == Ok(j)
    ensures r.Ok? ==> r.value.extraSetupComplete
    ensures !j.extraSetupComplete && r.Ok? ==> SetUp(j.ases, j.order, r.value)
    ensures !j.extraSetupComplete && r == Err(CycleError) ==>
              (exists c :: IsCycle(j.ases, ProviderAsns, c)) || (exists c :: IsCycle(j.ases, CustomerAsns, c))
    ensures !j.extraSetupComplete && r == Err(KeyError) ==>
              !Closed(j.ases, ProviderAsns) || !Closed(j.ases, CustomerAsns)
    ensures !j.extraSetupComplete && r == Err(ValueError) ==> |j.order| == 0
    ensures r.Err? ==> r.error == CycleError || r.error == KeyError || r.error == ValueError
  {
    if j.extraSetupComplete then Ok(j)
    else
      var _ :- CheckForCycles(j.ases, j.order);
      Complete(j)
  }

  /** Running the setup twice is running it once: the first run sets the
      flag and the second returns the graph unchanged. */
  lemma AddExtraSetupIdempotent(j: GraphJson)
    requires KeyOrder(j.ases, j.order)
    ensures AddExtraSetup(j).Ok? ==> KeyOrder(AddExtraSetup(j).value.ases, AddExtraSetup(j).value.order)
    ensures AddExtraSetup(j).Ok? ==> AddExtraSetup(AddExtraSetup(j).value) == AddExtraSetup(j)
  {
    if AddExtraSetup(j).Ok? && !j.extraSetupComplete {
      var out := AddExtraSetup(j).value;
      assert SetUp(j.ases, j.order, out);
      assert out.ases.Keys == j.ases.Keys;
    }
  }

  /** On a non-empty table the setup succeeds exactly when every listed ASN
      has a record and neither relation has a cycle. */
  lemma AddExtraSetupSucceeds(j: GraphJson)
    requires KeyOrder(j.ases, j.order) && !j.extraSetupComplete && |j.order| > 0
    ensures AddExtraSetup(j).Ok? <==>
              Closed(j.ases, ProviderAsns) && Closed(j.ases, CustomerAsns)
              && Acyclic(j.ases, ProviderAsns) && Acyclic(j.ases, CustomerAsns)
  {
    CheckForCyclesExact(j.ases, j.order);
  }

  /* ---------------------------------------------------------------------
     As written, `assign_as_propagation_rank` resets the stored rank inside
     its per-AS loop (as_graph_utils.py:113), so the setup writes the ranks
     of GraphRanks.AssignRanksAsWritten rather than the corrected ones.
     --------------------------------------------------------------------- */

  /** What the written setup still promises: SetUp without "each provider
      ranks above its customers". */
  ghost predicate SetUpAsWritten(g: Ases, order: seq<nat>, j: GraphJson) {
    SameEdges(g, j.ases)
    && Closed(g, ProviderAsns) && Closed(g, CustomerAsns)
    && Acyclic(g, ProviderAsns) && Acyclic(g, CustomerAsns)
    && j.order == order && j.extraSetupComplete && j.cyclesDetected == Some(false)
    && ConesHold(g, j.ases) && (forall k :: k in j.ases ==> j.ases[k].propagationRank.Some?)
    && j.propagationRankAsns.Some? && ListsHold(j.ases, j.propagationRankAsns.value)
  }

  /** The written setup once the cycle check has passed. */
  function CompleteAsWritten(j: GraphJson): (r: Result<GraphJson>)
    requires KeyOrder(j.ases, j.order)
    requires Closed(j.ases, ProviderAsns) && Closed(j.ases, CustomerAsns)
    requires Acyclic(j.ases, ProviderAsns) && Acyclic(j.ases, CustomerAsns)
    ensures r.Err? <==> |j.order| == 0
    ensures r.Err? ==> r.error == ValueError
    ensures r.Ok? ==> SetUpAsWritten(j.ases, j.order, r.value)
    ensures r.Ok? ==> r.value.ases[j.order[|j.order| - 1]].propagationRank == Some(0)
  {
    var g := j.ases;
    var cones := ConesOf(g, j.order);
    var ranks := WrittenRanksOf(g, j.order);
    var b :- Buckets(j.order, ranks);
    SetUpAsWrittenHolds(j, b);
    Ok(GraphJson(Annotate(g, cones, ranks), j.order, true, Some(false), Some(b)))
  }

  /** The written ranks on a table that passed the cycle check. */
  function WrittenRanksOf(g: Ases, order: seq<nat>): (ranks: Ranks)
    requires KeyOrder(g, order) && Closed(g, ProviderAsns) && Acyclic(g, ProviderAsns)
    ensures ranks.Keys == g.Keys && forall k :: k in g ==> ranks[k].Some?
    ensures |order| > 0 ==> ranks[order[|order| - 1]] == Some(0)
    ensures Distinct(order) && Elems(order) <= ranks.Keys && AllRanked(order, ranks)
  {
    var ranks := AssignRanksAsWritten(g, order).value;
    assert forall i :: 0 <= i < |order| ==> order[i] in Elems(order);
    ranks
  }

  /** The written graph meets SetUpAsWritten. */
  lemma SetUpAsWrittenHolds(j: GraphJson, b: seq<seq<nat>>)
    requires KeyOrder(j.ases, j.order)
    requires Closed(j.ases, ProviderAsns) && Closed(j.ases, CustomerAsns)
    requires Acyclic(j.ases, ProviderAsns) && Acyclic(j.ases, CustomerAsns)
    requires Buckets(j.order, WrittenRanksOf(j.ases, j.order)) == Ok(b)
    ensures var h := Annotate(j.ases, ConesOf(j.ases, j.order), WrittenRanksOf(j.ases, j.order));
            && SetUpAsWritten(j.ases, j.order, GraphJson(h, j.order, true, Some(false), Some(b)))
            && h[j.order[|j.order| - 1]].propagationRank == Some(0)
  {
    var cones := ConesOf(j.ases, j.order);
    var ranks := WrittenRanksOf(j.ases, j.order);
    ListsWritten(j.ases, j.order, cones, ranks, b);
    ConesWritten(j.ases, cones, ranks);
    assert j.order[|j.order| - 1] in Elems(j.order);
  }

  /** `add_extra_setup` as written. It fails exactly when the corrected
      setup does, with the same error, and on success it meets SetUpAsWritten
      with the last AS of the table at rank 0. */
  function AddExtraSetupAsWritten(j: GraphJson): (r: Result<GraphJson>)
    requires KeyOrder(j.ases, j.order)
    ensures j.extraSetupComplete ==> r == Ok(j)
    ensures r.Ok? <==> AddExtraSetup(j).Ok?
    ensures r.Err? ==> r == AddExtraSetup(j)
    ensures !j.extraSetupComplete && r.Ok? ==>
              SetUpAsWritten(j.ases, j.order, r.value)
              && r.value.ases[j.order[|j.order| - 1]].propagationRank == Some(0)
  {
    if j.extraSetupComplete then Ok(j)
    else
      var _ :- CheckForCycles(j.ases, j.order);
      CompleteAsWritten(j)
  }

  /** The corrected setup keeps every promise of the written one. */
  lemma SetUpWeakens(g: Ases, order: seq<nat>, j: GraphJson)
    requires SetUp(g, order, j)
    ensures SetUpAsWritten(g, order, j)
  {
  }

  lemma TwoAsesCustomerAcyclic()
    ensures Acyclic(TwoAses, CustomerAsns)
  {
    forall c | IsCycle(TwoAses, CustomerAsns, c) ensures false {
      PathSecond(TwoAses, CustomerAsns, c);
    }
  }

  /** On TwoAses (AS 1 buys from AS 2, table order [1, 2]) the written setup
      succeeds but ranks AS 2 at 0, level with its customer, so "providers
      rank above customers" fails; the corrected setup keeps it. */
  lemma SetupAsWrittenCounterexample(j: GraphJson)
    requires j.ases == TwoAses && j.order == [1, 2] && !j.extraSetupComplete
    ensures AddExtraSetupAsWritten(j).Ok?
    ensures AddExtraSetupAsWritten(j).value.ases[2].propagationRank == Some(0)
    ensures !RanksHold(TwoAses, AddExtraSetupAsWritten(j).value.ases)
    ensures AddExtraSetup(j).Ok? && RanksHold(TwoAses, AddExtraSetup(j).value.ases)
  {
    TwoAsesReady();
    AddExtraSetupSucceeds(j);
    var h := AddExtraSetupAsWritten(j).value.ases;
    assert h[2].propagationRank == Some(0);
    assert 2 in Succ(TwoAses, 1, ProviderAsns);
  }

  lemma TwoAsesReady()
    ensures KeyOrder(TwoAses, [1, 2])
    ensures Closed(TwoAses, ProviderAsns) && Closed(TwoAses, CustomerAsns)
    ensures Acyclic(TwoAses, ProviderAsns) && Acyclic(TwoAses, CustomerAsns)
    ensures 1 in TwoAses && 2 in Succ(TwoAses, 1, ProviderAsns)
  {
    RanksAsWrittenCounterexample();
    TwoAsesCustomerAcyclic();
    TwoAsesCustomerClosed();
  }

  lemma TwoAsesCustomerClosed()
    ensures Closed(TwoAses, CustomerAsns)
  {
    assert TwoAses.Keys == {1, 2};
  }
}
