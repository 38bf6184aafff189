/** Best-route selection ("Gao-Rexford"): a simplification of the decision
    process of section 9.1.2 of RFC 4271. Local preference comes from the
    relationship the route was received over, then the shorter AS path,
    then the lower neighbour ASN. Both policy stacks share this order. */
module Selection {
  import opened Wrappers
  import opened Enums
  import opened Announcements

  /** `_get_best_ann_by_local_pref`: the higher relationship value wins;
      None on a tie. */
  function ByLocalPref(cur: Ann, cand: Ann): (r: Option<Ann>)
    ensures r.None? <==> Value(cur.recv) == Value(cand.recv)
    ensures r.Some? ==> (r.value == cand <==> Value(cand.recv) > Value(cur.recv))
    ensures r.Some? ==> r.value == cur || r.value == cand
  {
    if Value(cur.recv) > Value(cand.recv) then Some(cur)
    else if Value(cur.recv) < Value(cand.recv) then Some(cand)
    else None
  }

  /** `_get_best_ann_by_as_path`: the shorter path wins; None on a tie. */
  function ByAsPath(cur: Ann, cand: Ann): (r: Option<Ann>)
    ensures r.None? <==> |cur.asPath| == |cand.asPath|
    ensures r.Some? ==> (r.value == cand <==> |cand.asPath| < |cur.asPath|)
    ensures r.Some? ==> r.value == cur || r.value == cand
  {
    if |cur.asPath| < |cand.asPath| then Some(cur)
    else if |cur.asPath| > |cand.asPath| then Some(cand)
    else None
  }

  /** The index `min(len(as_path), 1)` the tie-breaker reads: 0 for an empty
      path, 1 otherwise; it is in range only for paths of two or more. */
  function NeighborIndex(a: Ann): nat {
    if |a.asPath| < 1 then |a.asPath| else 1
  }

  /** `_get_best_ann_by_lowest_neighbor_asn_tiebreaker`: the lower ASN at
      index 1 wins, the current entry on equality. A path shorter than two
      raises IndexError. */
  function ByNeighborAsn(cur: Ann, cand: Ann): (r: Result<Ann>)
    ensures r.Ok? <==> |cur.asPath| >= 2 && |cand.asPath| >= 2
    ensures r.Err? ==> r.error == IndexError
    ensures r.Ok? ==> (r.value == cur <==> cur.asPath[1] <= cand.asPath[1]) || cur == cand
    ensures r.Ok? ==> r.value == cur || r.value == cand
  {
    if NeighborIndex(cur) >= |cur.asPath| then Err(IndexError)
    else if NeighborIndex(cand) >= |cand.asPath| then Err(IndexError)
    else if cur.asPath[NeighborIndex(cur)] <= cand.asPath[NeighborIndex(cand)] then Ok(cur)
    else Ok(cand)
  }

  /** `_get_best_ann_by_gao_rexford` with BGPsec off: an absent current
      entry yields the new route, otherwise the first criterion that
      decides. */
  function Best(cur: Option<Ann>, cand: Ann): (r: Result<Ann>)
    ensures cur.None? ==> r == Ok(cand)
    ensures r.Ok? ==> r.value == cand || (cur.Some? && r.value == cur.value)
    ensures r.Err? ==> r.error == IndexError
  {
    if cur.None? then Ok(cand)
    else
      var byPref := ByLocalPref(cur.value, cand);
      if byPref.Some? then Ok(byPref.value)
      else
        var byPath := ByAsPath(cur.value, cand);
        if byPath.Some? then Ok(byPath.value)
        else ByNeighborAsn(cur.value, cand)
  }

  /** The preference as one lexicographic comparison: a is strictly better
      than b. */
  predicate Better(a: Ann, b: Ann)
    requires |a.asPath| >= 2 && |b.asPath| >= 2
  {
    Value(a.recv) > Value(b.recv)
    || (Value(a.recv) == Value(b.recv) && |a.asPath| < |b.asPath|)
    || (Value(a.recv) == Value(b.recv) && |a.asPath| == |b.asPath| && a.asPath[1] < b.asPath[1])
  }

  /** The preference is a strict order: irreflexive and transitive. */
  lemma BetterIsStrictOrder(a: Ann, b: Ann, c: Ann)
    requires |a.asPath| >= 2 && |b.asPath| >= 2 && |c.asPath| >= 2
    ensures !Better(a, a)
    ensures Better(a, b) ==> !Better(b, a)
    ensures Better(a, b) && Better(b, c) ==> Better(a, c)
  {
  }

  /** The step chain agrees with the lexicographic order: the new route
      replaces the current one exactly when it is strictly better. */
  lemma BestIsLexicographic(cur: Ann, cand: Ann)
    requires |cur.asPath| >= 2 && |cand.asPath| >= 2
    ensures Best(Some(cur), cand) == Ok(if Better(cand, cur) then cand else cur)
  {
  }

  /** When does selection fail? Only when relationship and path length tie
      and one of the paths is shorter than two. */
  lemma BestFailsOnlyOnShortTies(cur: Ann, cand: Ann)
    ensures Best(Some(cur), cand).Err? <==>
              Value(cur.recv) == Value(cand.recv) && |cur.asPath| == |cand.asPath|
              && (|cur.asPath| < 2 || |cand.asPath| < 2)
  {
  }

  /** A route the local AS originated (or one of unknown provenance) is
      never displaced by a route learnt from a neighbour. */
  lemma OriginNeverDisplaced(cur: Ann, cand: Ann)
    requires cur.recv == ORIGIN || cur.recv == UNKNOWN
    requires IsNeighborRel(cand.recv)
    ensures Best(Some(cur), cand) == Ok(cur)
  {
  }

  /** A current entry that is an origin route or has a path of two or more
      never makes selection fail against a processed route. */
  predicate Selectable(a: Ann) {
    a.recv == ORIGIN || a.recv == UNKNOWN || |a.asPath| >= 2
  }

  lemma NoErrorOnSelectable(cur: Option<Ann>, cand: Ann)
    requires cur.Some? ==> Selectable(cur.value)
    requires IsNeighborRel(cand.recv) && |cand.asPath| >= 2
    ensures Best(cur, cand).Ok?
    ensures Selectable(Best(cur, cand).value)
  {
  }
}
