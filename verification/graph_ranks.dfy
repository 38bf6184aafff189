/** Propagation ranks (`assign_as_propagation_rank`,
    `_assign_ranks_helper`) and the rank buckets
    (`assign_as_graph_propagation_ranks`). */
module GraphRanks {
  import opened Wrappers
  import opened Seqs
  import opened GraphCycles

  /** The `propagation_rank` field of every record; None is Python's None. */
  type Ranks = map<nat, Option<nat>>

  /** Ranks only rise: None lies below every number. */
  predicate Le(a: Option<nat>, b: Option<nat>) {
    a.None? || (b.Some? && a.value <= b.value)
  }

  /** A ranked AS sits below each of its providers. */
  predicate GoodAt(g: Ases, ranks: Ranks, m: nat)
    requires m in g && m in ranks
  {
    ranks[m].Some? ==>
      forall p :: p in Succ(g, m, ProviderAsns) ==>
        p in ranks && ranks[p].Some? && ranks[p].value >= ranks[m].value + 1
  }

  /** Every AS except those in `ex` sits below its providers. */
  predicate GoodExcept(g: Ases, ranks: Ranks, ex: seq<nat>) {
    forall m :: m in g && m in ranks && m !in ex ==> GoodAt(g, ranks, m)
  }

  /** `c` is a customer of `k` ranked at most one below it. */
  predicate Backs(g: Ases, ranks: Ranks, c: nat, k: nat) {
    c in g && c in ranks && k in ranks && k in Succ(g, c, ProviderAsns)
    && ranks[c].Some? && ranks[k].Some? && ranks[c].value + 1 >= ranks[k].value
  }

  /** Every positive rank is owed to some customer. */
  ghost predicate Supported(g: Ases, ranks: Ranks) {
    forall k :: k in ranks && ranks[k].Some? && ranks[k].value > 0 ==> exists c :: Backs(g, ranks, c, k)
  }

  /** A duplicate-free chain of table ASNs is no longer than the table. */
  lemma ChainFits(g: Ases, c: seq<nat>)
    requires Distinct(c) && forall x :: x in c ==> x in g
    ensures |c| <= |g.Keys|
  {
    DistinctSeqCard(c);
    SubsetCard(Elems(c), g.Keys);
  }

  lemma DistinctSnoc(s: seq<nat>, x: nat)
    requires Distinct(s) && x !in s
    ensures Distinct(s + [x])
  {
    var t := s + [x];
    forall i, j | 0 <= i < j < |t| ensures t[i] != t[j] {
      if j < |s| { assert t[i] == s[i] && t[j] == s[j]; } else { assert t[i] in s; }
    }
  }

  /** Raising the rank of `n` leaves only `n` owing its providers. */
  lemma GoodRaise(g: Ases, ranks: Ranks, ex: seq<nat>, n: nat, r: nat)
    requires n in ranks && Le(ranks[n], Some(r)) && GoodExcept(g, ranks, ex)
    ensures GoodExcept(g, ranks[n := Some(r)], ex + [n])
  {
    var r1 := ranks[n := Some(r)];
    forall m | m in g && m in r1 && m !in ex + [n] ensures GoodAt(g, r1, m) {
      assert GoodAt(g, ranks, m);
    }
  }

  /** A raise backed by a customer, or to 0, keeps every rank owed. */
  lemma SupportedRaise(g: Ases, ranks: Ranks, n: nat, r: nat, parent: nat)
    requires n in ranks && Le(ranks[n], Some(r)) && Supported(g, ranks)
    requires r > 0 ==> parent in g && parent in ranks && n in Succ(g, parent, ProviderAsns)
                       && parent != n && ranks[parent] == Some(r - 1)
    ensures Supported(g, ranks[n := Some(r)])
  {
    var r1 := ranks[n := Some(r)];
    forall k | k in r1 && r1[k].Some? && r1[k].value > 0 ensures exists c :: Backs(g, r1, c, k) {
      if k == n {
        assert Backs(g, r1, parent, k);
      } else {
        var c :| Backs(g, ranks, c, k);
        assert Backs(g, r1, c, k);
      }
    }
  }

  /** `_assign_ranks_helper(as_info, r)`: when the AS is unranked or ranked
      below `r`, rank it `r` and push `r + 1` to each provider. `anc` is the
      chain of customers the call came through. Ranks only rise; the AS
      ends ranked at least `r`; the chain keeps its ranks; and the ordering
      and backing of ranks are preserved. Termination rests on the
      relation being acyclic: without that the recursion never ends. */
  function RankVisit(g: Ases, ranks: Ranks, n: nat, r: nat, ghost anc: seq<nat>): (res: Result<Ranks>)
    requires n in g && ranks.Keys == g.Keys && Acyclic(g, ProviderAsns)
    requires Path(g, ProviderAsns, anc + [n]) && Distinct(anc + [n]) && r == |anc|
    requires forall a :: a in anc ==> a in g
    requires |anc| > 0 ==> ranks[anc[|anc| - 1]] == Some(r - 1)
    ensures res.Ok? ==> res.value.Keys == g.Keys && forall k :: k in ranks ==> Le(ranks[k], res.value[k])
    ensures res.Ok? ==> res.value[n].Some? && res.value[n].value >= r
    ensures res.Ok? ==> res.value[n] == (if ranks[n].None? || ranks[n].value < r then Some(r) else ranks[n])
    ensures res.Ok? ==> forall a :: a in anc ==> res.value[a] == ranks[a]
    ensures res.Ok? && GoodExcept(g, ranks, anc) ==> GoodExcept(g, res.value, anc)
    ensures res.Ok? && Supported(g, ranks) ==> Supported(g, res.value)
    ensures res.Err? ==> res.error == KeyError && !Closed(g, ProviderAsns)
    decreases |g.Keys| - |anc|, 2
  {
    ChainFits(g, anc + [n]);
    if ranks[n].None? || ranks[n].value < r then
      RaiseStep(g, ranks, n, r, anc);
      var res := RankLoop(g, ranks[n := Some(r)], n, r, 0, anc);
      RaisePost(g, ranks, n, r, anc, res);
      res
    else
      Ok(ranks)
  }

  /** What the provider loop after raising `n` to `r` means for the ranks
      before the raise. */
  lemma RaisePost(g: Ases, ranks: Ranks, n: nat, r: nat, anc: seq<nat>, res: Result<Ranks>)
    requires n in g && ranks.Keys == g.Keys && (ranks[n].None? || ranks[n].value < r)
    requires Le(ranks[n], Some(r)) && forall a :: a in anc ==> a != n
    requires GoodExcept(g, ranks, anc) ==> GoodExcept(g, ranks[n := Some(r)], anc + [n])
    requires Supported(g, ranks) ==> Supported(g, ranks[n := Some(r)])
    requires res.Ok? ==> res.value.Keys == g.Keys && forall k :: k in ranks[n := Some(r)] ==> Le(ranks[n := Some(r)][k], res.value[k])
    requires res.Ok? ==> forall a :: a in anc + [n] ==> a in g && res.value[a] == ranks[n := Some(r)][a]
    requires res.Ok? && GoodExcept(g, ranks[n := Some(r)], anc + [n]) ==> GoodExcept(g, res.value, anc)
    requires res.Ok? && Supported(g, ranks[n := Some(r)]) ==> Supported(g, res.value)
    ensures res.Ok? ==> res.value.Keys == g.Keys && forall k :: k in ranks ==> Le(ranks[k], res.value[k])
    ensures res.Ok? ==> res.value[n] == Some(r)
    ensures res.Ok? ==> forall a :: a in anc ==> res.value[a] == ranks[a]
    ensures res.Ok? && GoodExcept(g, ranks, anc) ==> GoodExcept(g, res.value, anc)
    ensures res.Ok? && Supported(g, ranks) ==> Supported(g, res.value)
  {
    if res.Ok? {
      assert n in anc + [n];
      forall k | k in ranks ensures Le(ranks[k], res.value[k]) {
        assert Le(ranks[n := Some(r)][k], res.value[k]);
      }
      forall a | a in anc ensures res.value[a] == ranks[a] {
        assert a in anc + [n];
      }
    }
  }

  /** What the provider loop of `n`, ranked `r` through `anc`, needs at
      index `i`: each provider before `i` has a record and ranks above `r`. */
  ghost predicate LoopReady(g: Ases, ranks: Ranks, n: nat, r: nat, i: nat, anc: seq<nat>) {
    n in g && ranks.Keys == g.Keys && Acyclic(g, ProviderAsns)
    && Path(g, ProviderAsns, anc + [n]) && Distinct(anc + [n])
    && r == |anc| && ranks[n] == Some(r) && i <= |Succ(g, n, ProviderAsns)|
    && (forall k :: 0 <= k < i ==> Succ(g, n, ProviderAsns)[k] in g)
    && (forall k :: 0 <= k < i ==> Le(Some(r + 1), ranks[Succ(g, n, ProviderAsns)[k]]))
  }

  /** Ranking `n` at `r` through the chain `anc`: the chain keeps its ranks,
      only `n` is left owing its providers, and the new rank is backed by
      the last customer on the chain. */
  lemma RaiseStep(g: Ases, ranks: Ranks, n: nat, r: nat, anc: seq<nat>)
    requires n in g && ranks.Keys == g.Keys
    requires Path(g, ProviderAsns, anc + [n]) && Distinct(anc + [n]) && r == |anc|
    requires forall a :: a in anc ==> a in g
    requires |anc| > 0 ==> ranks[anc[|anc| - 1]] == Some(r - 1)
    requires ranks[n].None? || ranks[n].value < r
    ensures Acyclic(g, ProviderAsns) ==> LoopReady(g, ranks[n := Some(r)], n, r, 0, anc)
    ensures Le(ranks[n], Some(r)) && forall a :: a in anc ==> a != n
    ensures GoodExcept(g, ranks, anc) ==> GoodExcept(g, ranks[n := Some(r)], anc + [n])
    ensures Supported(g, ranks) ==> Supported(g, ranks[n := Some(r)])
  {
    assert (anc + [n])[|anc|] == n;
    forall a | a in anc ensures a != n {
      var j :| 0 <= j < |anc| && anc[j] == a;
      assert (anc + [n])[j] == a;
    }
    if GoodExcept(g, ranks, anc) {
      GoodRaise(g, ranks, anc, n, r);
    }
    if Supported(g, ranks) {
      if r > 0 {
        var parent := anc[|anc| - 1];
        assert (anc + [n])[|anc| - 1] == parent;
        SupportedRaise(g, ranks, n, r, parent);
      } else {
        SupportedRaise(g, ranks, n, r, n);
      }
    }
  }

  /** The provider loop of `_assign_ranks_helper` from index `i`, with `n`
      already ranked `|anc|`: each provider is pushed to at least one
      higher (KeyError when it has no record). On success `n` sits below
      all its providers. */
  function RankLoop(g: Ases, ranks: Ranks, n: nat, r: nat, i: nat, ghost anc: seq<nat>): (res: Result<Ranks>)
    requires LoopReady(g, ranks, n, r, i, anc)
    ensures res.Ok? ==> res.value.Keys == g.Keys && forall k :: k in ranks ==> Le(ranks[k], res.value[k])
    ensures res.Ok? ==> forall a :: a in anc + [n] ==> a in g && res.value[a] == ranks[a]
    ensures res.Ok? && GoodExcept(g, ranks, anc + [n]) ==> GoodExcept(g, res.value, anc)
    ensures res.Ok? && Supported(g, ranks) ==> Supported(g, res.value)
    ensures res.Err? ==> res.error == KeyError && !Closed(g, ProviderAsns)
    decreases |g.Keys| - |anc|, 1, |Succ(g, n, ProviderAsns)| - i
  {
    var provs := Succ(g, n, ProviderAsns);
    if i == |provs| then
      LoopDone(g, ranks, n, r, anc);
      Ok(ranks)
    else
      var p := provs[i];
      if p !in g then Err(KeyError)
      else
        RankDescend(g, ranks, n, r, i, anc)
  }

  /** With every provider pushed above it, `n` no longer owes anything. */
  lemma LoopDone(g: Ases, ranks: Ranks, n: nat, r: nat, anc: seq<nat>)
    requires n in g && LoopReady(g, ranks, n, r, |Succ(g, n, ProviderAsns)|, anc)
    ensures GoodExcept(g, ranks, anc + [n]) ==> GoodExcept(g, ranks, anc)
  {
    var provs := Succ(g, n, ProviderAsns);
    if GoodExcept(g, ranks, anc + [n]) {
      forall m | m in g && m in ranks && m !in anc ensures GoodAt(g, ranks, m) {
        if m != n { assert m !in anc + [n]; }
        else {
          forall p | p in provs ensures p in ranks && ranks[p].Some? && ranks[p].value >= r + 1 {
            var k :| 0 <= k < |provs| && provs[k] == p;
            assert Le(Some(r + 1), ranks[provs[k]]);
          }
        }
      }
    }
  }

  /** The loop step that pushes the next provider. */
  function RankDescend(g: Ases, ranks: Ranks, n: nat, r: nat, i: nat, ghost anc: seq<nat>): (res: Result<Ranks>)
    requires n in g && ranks.Keys == g.Keys && Acyclic(g, ProviderAsns)
    requires Path(g, ProviderAsns, anc + [n]) && Distinct(anc + [n])
    requires r == |anc| && ranks[n] == Some(r) && i < |Succ(g, n, ProviderAsns)| && Succ(g, n, ProviderAsns)[i] in g
    requires forall k :: 0 <= k < i ==> Succ(g, n, ProviderAsns)[k] in g
    requires forall k :: 0 <= k < i ==> Le(Some(r + 1), ranks[Succ(g, n, ProviderAsns)[k]])
    ensures res.Ok? ==> res.value.Keys == g.Keys && forall k :: k in ranks ==> Le(ranks[k], res.value[k])
    ensures res.Ok? ==> forall a :: a in anc + [n] ==> a in g && res.value[a] == ranks[a]
    ensures res.Ok? && GoodExcept(g, ranks, anc + [n]) ==> GoodExcept(g, res.value, anc)
    ensures res.Ok? && Supported(g, ranks) ==> Supported(g, res.value)
    ensures res.Err? ==> res.error == KeyError && !Closed(g, ProviderAsns)
    decreases |g.Keys| - |anc|, 1, |Succ(g, n, ProviderAsns)| - i, 0
  {
    var p := Succ(g, n, ProviderAsns)[i];
    DescendReady(g, ranks, n, r, i, anc);
    var r2 :- RankVisit(g, ranks, p, r + 1, anc + [n]);
    DescendAdvance(g, ranks, r2, n, r, i, anc);
    var res := RankLoop(g, r2, n, r, i + 1, anc);
    if res.Ok? then LeTrans(ranks, r2, res.value); res else res
  }

  /** The provider about to be pushed may extend the chain. */
  lemma DescendReady(g: Ases, ranks: Ranks, n: nat, r: nat, i: nat, anc: seq<nat>)
    requires n in g && ranks.Keys == g.Keys && Acyclic(g, ProviderAsns)
    requires Path(g, ProviderAsns, anc + [n]) && Distinct(anc + [n])
    requires r == |anc| && ranks[n] == Some(r) && i < |Succ(g, n, ProviderAsns)| && Succ(g, n, ProviderAsns)[i] in g
    ensures var p := Succ(g, n, ProviderAsns)[i];
            var c := anc + [n];
            Path(g, ProviderAsns, c + [p]) && Distinct(c + [p]) && r + 1 == |c|
            && (forall a :: a in c ==> a in g) && ranks[c[|c| - 1]] == Some(r + 1 - 1)
            && |c| + 1 <= |g.Keys|
  {
    var p := Succ(g, n, ProviderAsns)[i];
    var c := anc + [n];
    OffPath(g, ProviderAsns, anc, n, p);
    PathExtend(g, ProviderAsns, c, p);
    DistinctSnoc(c, p);
    ChainFits(g, c + [p]);
    assert c[|c| - 1] == n;
    forall a | a in c ensures a in g {
      var j :| 0 <= j < |c| && c[j] == a;
    }
  }

  /** After the push, every provider up to index `i` ranks above `r`. */
  lemma DescendAdvance(g: Ases, ranks: Ranks, r2: Ranks, n: nat, r: nat, i: nat, anc: seq<nat>)
    requires n in g && ranks.Keys == g.Keys && i < |Succ(g, n, ProviderAsns)|
    requires forall k :: 0 <= k <= i ==> Succ(g, n, ProviderAsns)[k] in g
    requires forall k :: 0 <= k < i ==> Le(Some(r + 1), ranks[Succ(g, n, ProviderAsns)[k]])
    requires r2.Keys == g.Keys && forall k :: k in ranks ==> Le(ranks[k], r2[k])
    requires r2[Succ(g, n, ProviderAsns)[i]].Some? && r2[Succ(g, n, ProviderAsns)[i]].value >= r + 1
    ensures forall k :: 0 <= k < i + 1 ==> Le(Some(r + 1), r2[Succ(g, n, ProviderAsns)[k]])
    ensures LoopReady(g, ranks, n, r, i, anc) && r2[n] == ranks[n] ==> LoopReady(g, r2, n, r, i + 1, anc)
  {
    var provs := Succ(g, n, ProviderAsns);
    forall k | 0 <= k < i + 1 ensures Le(Some(r + 1), r2[provs[k]]) {
      if k < i { assert Le(ranks[provs[k]], r2[provs[k]]); }
    }
  }

  lemma LeTrans(r1: Ranks, r2: Ranks, r3: Ranks)
    requires r1.Keys == r2.Keys == r3.Keys
    requires forall k :: k in r1 ==> Le(r1[k], r2[k])
    requires forall k :: k in r2 ==> Le(r2[k], r3[k])
    ensures forall k :: k in r1 ==> Le(r1[k], r3[k])
  {
  }

  /** The driver loop with the reset hoisted out, from position `i`: rank
      every AS from 0 in table order. */
  function RankAll(g: Ases, order: seq<nat>, i: nat, ranks: Ranks): (res: Result<Ranks>)
    requires KeyOrder(g, order) && i <= |order| && ranks.Keys == g.Keys && Acyclic(g, ProviderAsns)
    requires GoodExcept(g, ranks, []) && Supported(g, ranks)
    requires forall k :: 0 <= k < i ==> ranks[order[k]].Some?
    ensures res.Ok? ==> res.value.Keys == g.Keys && forall k :: k in g ==> res.value[k].Some?
    ensures res.Ok? ==> GoodExcept(g, res.value, []) && Supported(g, res.value)
    ensures res.Err? ==> res.error == KeyError && !Closed(g, ProviderAsns)
    decreases |order| - i
  {
    if i == |order| then
      OrderCovers(g, order, ranks);
      Ok(ranks)
    else
      var n := order[i];
      RootReady(g, order, i);
      var r2 :- RankVisit(g, ranks, n, 0, []);
      RankedSoFar(order, i, ranks, r2);
      RankAll(g, order, i + 1, r2)
  }

  /** Once every position of the order is ranked, every AS is. */
  lemma OrderCovers(g: Ases, order: seq<nat>, ranks: Ranks)
    requires KeyOrder(g, order) && ranks.Keys == g.Keys
    requires forall k :: 0 <= k < |order| ==> ranks[order[k]].Some?
    ensures forall k :: k in g ==> ranks[k].Some?
  {
    forall k | k in g ensures ranks[k].Some? {
      assert k in Elems(order);
      var j :| 0 <= j < |order| && order[j] == k;
    }
  }

  /** Rising ranks keep earlier positions ranked and add position `i`. */
  lemma RankedSoFar(order: seq<nat>, i: nat, ranks: Ranks, r2: Ranks)
    requires i < |order| && Elems(order) <= ranks.Keys && ranks.Keys == r2.Keys
    requires forall k :: 0 <= k < i ==> ranks[order[k]].Some?
    requires forall k :: k in ranks ==> Le(ranks[k], r2[k])
    requires r2[order[i]].Some?
    ensures forall k :: 0 <= k < i + 1 ==> r2[order[k]].Some?
  {
    forall k | 0 <= k < i + 1 ensures r2[order[k]].Some? {
      assert order[k] in Elems(order);
      if k < i { assert Le(ranks[order[k]], r2[order[k]]); }
    }
  }

  /** `assign_as_propagation_rank` with the reset to None done for every AS
      before any ranking. Every AS ends ranked; each provider ranks at
      least one above each of its customers; and a positive rank is exactly
      one above some customer, so an AS that is nobody's provider ranks 0.
      Together: the rank is the length of the longest customer chain below
      the AS. */
  function AssignRanks(g: Ases, order: seq<nat>): (res: Result<Ranks>)
    requires KeyOrder(g, order) && Acyclic(g, ProviderAsns)
    ensures res.Ok? ==> res.value.Keys == g.Keys && forall k :: k in g ==> res.value[k].Some?
    ensures res.Ok? ==> forall c, p :: c in g && p in Succ(g, c, ProviderAsns) ==>
              p in g && res.value[p].value >= res.value[c].value + 1
    ensures res.Ok? ==> forall k :: k in g && res.value[k].value > 0 ==>
              exists c :: c in g && k in Succ(g, c, ProviderAsns) && res.value[c].value + 1 == res.value[k].value
    ensures res.Ok? ==> forall k :: k in g && (forall c :: c in g ==> k !in Succ(g, c, ProviderAsns)) ==>
              res.value[k] == Some(0)
    ensures res.Err? ==> res.error == KeyError && !Closed(g, ProviderAsns)
  {
    var none: Ranks := map k | k in g :: None;
    NoRanks(g, none);
    var res :- RankAll(g, order, 0, none);
    RanksTight(g, res);
    Ok(res)
  }

  /** Before ranking nothing is ranked, so nothing is owed. */
  lemma NoRanks(g: Ases, none: Ranks)
    requires none == map k | k in g :: None
    ensures none.Keys == g.Keys && GoodExcept(g, none, []) && Supported(g, none)
  {
  }

  /** Ordered and backed ranks are tight: each positive rank is exactly
      one above a customer's. */
  lemma RanksTight(g: Ases, ranks: Ranks)
    requires ranks.Keys == g.Keys && (forall k :: k in g ==> ranks[k].Some?)
    requires GoodExcept(g, ranks, []) && Supported(g, ranks)
    ensures forall c, p :: c in g && p in Succ(g, c, ProviderAsns) ==>
              p in g && ranks[p].value >= ranks[c].value + 1
    ensures forall k :: k in g && ranks[k].value > 0 ==>
              exists c :: c in g && k in Succ(g, c, ProviderAsns) && ranks[c].value + 1 == ranks[k].value
    ensures forall k :: k in g && (forall c :: c in g ==> k !in Succ(g, c, ProviderAsns)) ==>
              ranks[k] == Some(0)
  {
    forall c, p | c in g && p in Succ(g, c, ProviderAsns)
      ensures p in g && ranks[p].value >= ranks[c].value + 1
    {
      assert GoodAt(g, ranks, c);
    }
    forall k | k in g && ranks[k].value > 0
      ensures exists c :: c in g && k in Succ(g, c, ProviderAsns) && ranks[c].value + 1 == ranks[k].value
    {
      var c :| Backs(g, ranks, c, k);
      assert GoodAt(g, ranks, c);
    }
  }

  /** What the driver loop as written promises from position `i`: ranked
      ASes stay ranked, every AS visited ends ranked, the AS visited last
      ends at 0, and with nothing left to visit nothing changes. */
  ghost predicate DriverPost(g: Ases, order: seq<nat>, i: nat, ranks: Ranks, res: Result<Ranks>) {
    (res.Ok? ==> res.value.Keys == g.Keys)
    && (res.Ok? ==> forall k :: k in ranks && ranks[k].Some? ==> k in res.value && res.value[k].Some?)
    && (res.Ok? ==> forall k :: i <= k < |order| ==> order[k] in res.value && res.value[order[k]].Some?)
    && (res.Ok? && i < |order| ==> order[|order| - 1] in res.value && res.value[order[|order| - 1]] == Some(0))
    && (i == |order| ==> res == Ok(ranks))
    && (res.Err? ==> res.error == KeyError && !Closed(g, ProviderAsns))
  }

  /** The driver loop as written, from position `i` of the order: each AS
      is reset to None just before it is ranked from 0, so an AS already
      pushed up by a customer earlier in the order falls back to 0. */
  function RankAllAsWritten(g: Ases, order: seq<nat>, i: nat, ranks: Ranks): (res: Result<Ranks>)
    requires i <= |order| && (forall k :: 0 <= k < |order| ==> order[k] in g)
    requires ranks.Keys == g.Keys && Acyclic(g, ProviderAsns)
    ensures DriverPost(g, order, i, ranks, res)
    decreases |order| - i
  {
    if i == |order| then Ok(ranks)
    else
      var r2 :- ResetVisit(g, ranks, order[i]);
      var res := RankAllAsWritten(g, order, i + 1, r2);
      DriverStep(g, order, i, ranks, r2, res);
      res
  }

  /** One step of the driver as written: visiting the AS at `i` and then
      the rest keeps the promise from `i`. */
  lemma DriverStep(g: Ases, order: seq<nat>, i: nat, ranks: Ranks, r2: Ranks, res: Result<Ranks>)
    requires i < |order| && order[i] in g && ranks.Keys == g.Keys
    requires r2.Keys == g.Keys && forall k :: k in ranks && k != order[i] ==> Le(ranks[k], r2[k])
    requires r2[order[i]] == Some(0)
    requires DriverPost(g, order, i + 1, r2, res)
    ensures DriverPost(g, order, i, ranks, res)
  {
    if res.Ok? {
      forall k | k in ranks && ranks[k].Some? ensures k in res.value && res.value[k].Some? {
        if k != order[i] { assert Le(ranks[k], r2[k]); }
      }
      assert order[i] in res.value && res.value[order[i]].Some?;
    }
  }

  /** The body of the driver loop as written for one AS: reset it to None,
      then rank it from 0. It ends at exactly 0 and no other rank falls. */
  function ResetVisit(g: Ases, ranks: Ranks, n: nat): (res: Result<Ranks>)
    requires n in g && ranks.Keys == g.Keys && Acyclic(g, ProviderAsns)
    ensures res.Ok? ==> res.value.Keys == g.Keys && forall k :: k in ranks && k != n ==> Le(ranks[k], res.value[k])
    ensures res.Ok? ==> res.value[n] == Some(0)
    ensures res.Err? ==> res.error == KeyError && !Closed(g, ProviderAsns)
  {
    assert [] + [n] == [n];
    var res := RankVisit(g, ranks[n := None], n, 0, []);
    assert res.Ok? ==> forall k :: k in ranks && k != n ==> ranks[n := None][k] == ranks[k];
    res
  }

  /** An AS of the order may start a chain of its own. */
  lemma RootReady(g: Ases, order: seq<nat>, i: nat)
    requires KeyOrder(g, order) && i < |order|
    ensures order[i] in g && Path(g, ProviderAsns, [] + [order[i]]) && Distinct([] + [order[i]])
  {
    assert order[i] in Elems(order);
    assert [] + [order[i]] == [order[i]];
  }

  /** `assign_as_propagation_rank` as written, starting from the ranks the
      records hold. */
  function AssignRanksAsWritten(g: Ases, order: seq<nat>): (res: Result<Ranks>)
    requires KeyOrder(g, order) && Acyclic(g, ProviderAsns)
    ensures res.Ok? ==> res.value.Keys == g.Keys && forall k :: k in g ==> res.value[k].Some?
    ensures res.Ok? && |order| > 0 ==> res.value[order[|order| - 1]] == Some(0)
    ensures res.Err? ==> res.error == KeyError && !Closed(g, ProviderAsns)
  {
    var stored := map k | k in g :: g[k].propagationRank;
    assert forall k :: 0 <= k < |order| ==> order[k] in Elems(order);
    var res :- RankAllAsWritten(g, order, 0, stored);
    assert forall k :: k in g ==> res[k].Some? by {
      forall k | k in g ensures res[k].Some? {
        assert k in Elems(order);
      }
    }
    Ok(res)
  }

  /** AS 1 buys transit from AS 2 and the table lists AS 1 first. */
  const TwoAses: Ases := map[
    1 := AsJson([2], [], None, None),
    2 := AsJson([], [1], None, None)]

  lemma PathSecond(g: Ases, key: EdgeKey, c: seq<nat>)
    requires Path(g, key, c) && |c| > 0
    ensures |c| > 1 ==> c[0] in g && c[1] in Succ(g, c[0], key)
  {
  }

  lemma TwoAsesAcyclic()
    ensures Acyclic(TwoAses, ProviderAsns)
  {
    forall c | IsCycle(TwoAses, ProviderAsns, c) ensures false {
      PathSecond(TwoAses, ProviderAsns, c);
    }
  }

  /** On TwoAses the written ranking puts AS 2 at rank 0, level with its
      customer AS 1, where the corrected ranking puts it above. */
  lemma RanksAsWrittenCounterexample()
    ensures Acyclic(TwoAses, ProviderAsns) && KeyOrder(TwoAses, [1, 2]) && 2 in Succ(TwoAses, 1, ProviderAsns)
    ensures AssignRanksAsWritten(TwoAses, [1, 2]).Ok?
    ensures var r := AssignRanksAsWritten(TwoAses, [1, 2]).value; r[2] == Some(0) && r[1].Some?
    ensures AssignRanks(TwoAses, [1, 2]).Ok?
    ensures var r := AssignRanks(TwoAses, [1, 2]).value; r[2].value >= r[1].value + 1
  {
    TwoAsesAcyclic();
    assert Elems([1, 2]) == {1, 2};
    assert TwoAses.Keys == {1, 2};
    assert Closed(TwoAses, ProviderAsns);
  }
}
