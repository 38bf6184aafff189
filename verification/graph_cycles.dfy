/** The AS-graph table that the graph utilities work on, and the cycle check
    (`ASGraphUtils.check_for_cycles`). */
module GraphCycles {
  import opened Wrappers
  import opened Seqs

  /** One AS record of the graph table, restricted to the fields the
      utilities read or write. A record is identified by its key. */
  datatype AsJson = AsJson(
    providerAsns: seq<nat>,
    customerAsns: seq<nat>,
    providerCone: Option<set<nat>>,
    propagationRank: Option<nat>)

  /** The `ases` table: ASN to record. */
  type Ases = map<nat, AsJson>

  /** `order` is the table's key order: every key exactly once. */
  predicate KeyOrder(g: Ases, order: seq<nat>) {
    Distinct(order) && Elems(order) == g.Keys
  }

  /** The two relations the cycle check walks. */
  datatype EdgeKey = ProviderAsns | CustomerAsns

  /** The neighbour list a record holds under `key`. */
  function Succ(g: Ases, n: nat, key: EdgeKey): seq<nat>
    requires n in g
  {
    if key == ProviderAsns then g[n].providerAsns else g[n].customerAsns
  }

  /** Every node is in the table and each one is followed by one of its
      `key` neighbours. */
  predicate Path(g: Ases, key: EdgeKey, p: seq<nat>) {
    (forall i :: 0 <= i < |p| ==> p[i] in g)
    && (forall i :: 0 <= i < |p| - 1 ==> p[i + 1] in Succ(g, p[i], key))
  }

  /** A path that closes on itself: its last node lists its first. */
  predicate IsCycle(g: Ases, key: EdgeKey, c: seq<nat>) {
    |c| > 0 && Path(g, key, c) && c[0] in Succ(g, c[|c| - 1], key)
  }

  ghost predicate Acyclic(g: Ases, key: EdgeKey) {
    forall c :: !IsCycle(g, key, c)
  }

  /** Every ASN listed under `key` has a record of its own. */
  predicate Closed(g: Ases, key: EdgeKey) {
    forall n :: n in g ==> forall w :: w in Succ(g, n, key) ==> w in g
  }

  /** The DFS finish order: every `key` neighbour of a finished AS finished
      before it. */
  predicate FinishedBefore(g: Ases, key: EdgeKey, done: seq<nat>) {
    forall j :: 0 <= j < |done| ==> NeighboursBefore(g, key, done, j)
  }

  /** The AS at position `j` of `done` has a record and every neighbour of
      it occurs earlier. */
  predicate NeighboursBefore(g: Ases, key: EdgeKey, done: seq<nat>, j: nat)
    requires j < |done|
  {
    done[j] in g && forall w :: w in Succ(g, done[j], key) ==> w in done[..j]
  }

  /** `d` continues `done`. */
  predicate Extends(d: seq<nat>, done: seq<nat>) {
    |done| <= |d| && d[..|done|] == done
  }

  lemma ExtendsElems(d: seq<nat>, done: seq<nat>)
    requires Extends(d, done)
    ensures forall x :: x in done ==> x in d
  {
    forall x | x in done ensures x in d {
      assert x in d[..|done|];
    }
  }

  lemma ExtendsTrans(d2: seq<nat>, d1: seq<nat>, done: seq<nat>)
    requires Extends(d2, d1) && Extends(d1, done)
    ensures Extends(d2, done)
  {
    assert d2[..|done|] == d2[..|d1|][..|done|];
  }

  /** Finishing an AS whose neighbours have all finished keeps the order a
      finish order. */
  lemma FinishOne(g: Ases, key: EdgeKey, done: seq<nat>, n: nat)
    requires FinishedBefore(g, key, done) && n in g
    requires forall w :: w in Succ(g, n, key) ==> w in done
    ensures FinishedBefore(g, key, done + [n]) && Extends(done + [n], done)
  {
    var d := done + [n];
    forall j | 0 <= j < |d| ensures NeighboursBefore(g, key, d, j) {
      if j < |done| {
        assert NeighboursBefore(g, key, done, j);
        assert d[..j] == done[..j];
      } else {
        assert d[..j] == done;
      }
    }
    assert d[..|done|] == done;
  }

  /** A node on the recursion stack that the top of the stack lists closes a
      cycle. */
  lemma CycleOnStack(g: Ases, key: EdgeKey, stack: seq<nat>, w: nat)
    requires Path(g, key, stack) && |stack| > 0
    requires w in stack && w in Succ(g, stack[|stack| - 1], key)
    ensures exists c :: IsCycle(g, key, c)
  {
    var j :| 0 <= j < |stack| && stack[j] == w;
    var c := stack[j..];
    assert forall i :: 0 <= i < |c| ==> c[i] == stack[j + i];
    assert IsCycle(g, key, c);
  }

  /** On an acyclic relation, a neighbour of the end of a path is not on
      the path. */
  lemma OffPath(g: Ases, key: EdgeKey, stack: seq<nat>, n: nat, w: nat)
    requires Acyclic(g, key) && Path(g, key, stack + [n])
    requires n in g && w in Succ(g, n, key)
    ensures w !in stack + [n]
  {
    if w in stack + [n] {
      CycleOnStack(g, key, stack + [n], w);
      assert false;
    }
  }

  /** A path grows by a neighbour of its last node. */
  lemma PathExtend(g: Ases, key: EdgeKey, p: seq<nat>, w: nat)
    requires Path(g, key, p) && |p| > 0 && w in g && w in Succ(g, p[|p| - 1], key)
    ensures Path(g, key, p + [w])
  {
    var q := p + [w];
    assert forall i :: 0 <= i < |p| ==> q[i] == p[i];
  }

  /** What the walk of an unvisited neighbour leaves for the rest of the
      loop: `n` is still unfinished, the neighbours up to and including the
      walked one have finished, and less of the table is left unvisited. */
  lemma DescentStep(g: Ases, key: EdgeKey, n: nat, i: nat, d: seq<nat>, done: seq<nat>, stack: seq<nat>)
    requires n in g && i < |Succ(g, n, key)| && Succ(g, n, key)[i] in d
    requires forall k :: 0 <= k < i ==> Succ(g, n, key)[k] in done
    requires Extends(d, done) && n !in done && n !in stack
    requires forall x :: x in d ==> x in done || x !in stack + [n]
    ensures n !in d
    ensures forall k :: 0 <= k < i + 1 ==> Succ(g, n, key)[k] in d
    ensures |g.Keys - (Elems(d) + Elems(stack + [n]))| <= |g.Keys - (Elems(done) + Elems(stack + [n]))|
  {
    assert n in stack + [n];
    ExtendsElems(d, done);
    PrefixFinished(Succ(g, n, key), i, d, done);
    VisitedGrows(g.Keys, Elems(done) + Elems(stack + [n]), Elems(d) + Elems(stack + [n]));
  }

  /** Neighbours finished before the descent are still finished after it. */
  lemma PrefixFinished(succ: seq<nat>, i: nat, d: seq<nat>, done: seq<nat>)
    requires i < |succ| && succ[i] in d
    requires forall k :: 0 <= k < i ==> succ[k] in done
    requires forall x :: x in done ==> x in d
    ensures forall k :: 0 <= k < i + 1 ==> succ[k] in d
  {
  }

  /** The finish order after the rest of the loop still continues the one
      before the descent, and still adds nothing from the stack. */
  lemma DescentDone(n: nat, r: seq<nat>, d: seq<nat>, done: seq<nat>, stack: seq<nat>)
    requires Extends(r, d) && Extends(d, done)
    requires forall x :: x in d ==> x in done || x !in stack + [n]
    requires forall x :: x in r ==> x in d || x !in stack
    ensures Extends(r, done)
    ensures forall x :: x in r ==> x in done || x !in stack
  {
    ExtendsTrans(r, d, done);
  }

  /** Removing a fresh table key from the visited set shrinks what is left. */
  lemma VisitShrinks(keys: set<nat>, visited: set<nat>, n: nat)
    requires n in keys && n !in visited
    ensures |keys - (visited + {n})| < |keys - visited|
  {
    assert keys - (visited + {n}) == (keys - visited) - {n};
  }

  /** Growing the visited set never enlarges what is left. */
  lemma VisitedGrows(keys: set<nat>, v1: set<nat>, v2: set<nat>)
    requires v1 <= v2
    ensures |keys - v2| <= |keys - v1|
  {
    SubsetCard(keys - v2, keys - v1);
  }

  /** `_validate_no_cycles_helper` on an AS not yet visited: mark it
      visited and on the recursion stack, then walk its neighbours. `done`
      lists the ASes already finished; the visited set is `done` and `stack`
      together. The result is the finish order extended by this walk. */
  function Visit(g: Ases, key: EdgeKey, n: nat, done: seq<nat>, stack: seq<nat>): (r: Result<seq<nat>>)
    requires n in g && n !in done && n !in stack
    requires Path(g, key, stack + [n]) && FinishedBefore(g, key, done)
    ensures r.Ok? ==> Extends(r.value, done) && n in r.value && FinishedBefore(g, key, r.value)
    ensures r.Ok? ==> forall x :: x in r.value ==> x in done || x !in stack
    ensures r == Err(CycleError) ==> exists c :: IsCycle(g, key, c)
    ensures r == Err(KeyError) ==> !Closed(g, key)
    ensures r.Err? ==> r.error == CycleError || r.error == KeyError
    decreases |g.Keys - (Elems(done) + Elems(stack))|, 0
  {
    assert Elems(done) + Elems(stack + [n]) == (Elems(done) + Elems(stack)) + {n};
    VisitShrinks(g.Keys, Elems(done) + Elems(stack), n);
    Walk(g, key, n, 0, done, stack)
  }

  /** The neighbour loop of `_validate_no_cycles_helper` for `n`, whose
      callers are on `stack`, from index `i`: an unvisited neighbour is
      walked (KeyError when it has no record), a neighbour on the stack
      raises CycleError, a finished one is skipped. On success `n` itself
      finishes. */
  function Walk(g: Ases, key: EdgeKey, n: nat, i: nat, done: seq<nat>, stack: seq<nat>): (r: Result<seq<nat>>)
    requires n in g && i <= |Succ(g, n, key)| && n !in done && n !in stack
    requires Path(g, key, stack + [n]) && FinishedBefore(g, key, done)
    requires forall k :: 0 <= k < i ==> Succ(g, n, key)[k] in done
    ensures r.Ok? ==> Extends(r.value, done) && n in r.value && FinishedBefore(g, key, r.value)
    ensures r.Ok? ==> forall x :: x in r.value ==> x in done || x !in stack
    ensures r == Err(CycleError) ==> exists c :: IsCycle(g, key, c)
    ensures r == Err(KeyError) ==> !Closed(g, key)
    ensures r.Err? ==> r.error == CycleError || r.error == KeyError
    decreases |g.Keys - (Elems(done) + Elems(stack + [n]))|, 1, |Succ(g, n, key)| - i
  {
    var succ := Succ(g, n, key);
    if i == |succ| then
      FinishOne(g, key, done, n);
      Ok(done + [n])
    else
      var w := succ[i];
      var above := stack + [n];
      if w !in done && w !in above then
        if w !in g then Err(KeyError)
        else
          WalkOn(g, key, n, i, done, stack)
      else if w in above then
        CycleOnStack(g, key, above, w);
        Err(CycleError)
      else
        Walk(g, key, n, i + 1, done, stack)
  }

  /** The step of Walk that descends into an unvisited neighbour. */
  function WalkOn(g: Ases, key: EdgeKey, n: nat, i: nat, done: seq<nat>, stack: seq<nat>): (r: Result<seq<nat>>)
    requires n in g && i < |Succ(g, n, key)| && n !in done && n !in stack
    requires Path(g, key, stack + [n]) && FinishedBefore(g, key, done)
    requires forall k :: 0 <= k < i ==> Succ(g, n, key)[k] in done
    requires Succ(g, n, key)[i] in g && Succ(g, n, key)[i] !in done && Succ(g, n, key)[i] !in stack + [n]
    ensures r.Ok? ==> Extends(r.value, done) && n in r.value && FinishedBefore(g, key, r.value)
    ensures r.Ok? ==> forall x :: x in r.value ==> x in done || x !in stack
    ensures r == Err(CycleError) ==> exists c :: IsCycle(g, key, c)
    ensures r == Err(KeyError) ==> !Closed(g, key)
    ensures r.Err? ==> r.error == CycleError || r.error == KeyError
    decreases |g.Keys - (Elems(done) + Elems(stack + [n]))|, 1, |Succ(g, n, key)| - i, 0
  {
    var succ := Succ(g, n, key);
    var w := succ[i];
    var above := stack + [n];
    PathExtend(g, key, above, w);
    var d :- Visit(g, key, w, done, above);
    DescentStep(g, key, n, i, d, done, stack);
    var r := Walk(g, key, n, i + 1, d, stack);
    if r.Ok? then DescentDone(n, r.value, d, done, stack); r else r
  }

  /** The outer loop of `check_for_cycles` for one key, from position `i`
      of the table order: every AS not yet visited starts a walk. */
  function AllFrom(g: Ases, key: EdgeKey, order: seq<nat>, i: nat, done: seq<nat>): (r: Result<seq<nat>>)
    requires KeyOrder(g, order) && i <= |order| && FinishedBefore(g, key, done)
    requires forall k :: 0 <= k < i ==> order[k] in done
    ensures r.Ok? ==> FinishedBefore(g, key, r.value) && forall x :: x in g ==> x in r.value
    ensures r == Err(CycleError) ==> exists c :: IsCycle(g, key, c)
    ensures r == Err(KeyError) ==> !Closed(g, key)
    ensures r.Err? ==> r.error == CycleError || r.error == KeyError
    decreases |order| - i
  {
    if i == |order| then Ok(done)
    else if order[i] in done then AllFrom(g, key, order, i + 1, done)
    else
      assert [] + [order[i]] == [order[i]];
      var d :- Visit(g, key, order[i], done, []);
      ExtendsElems(d, done);
      AllFrom(g, key, order, i + 1, d)
  }

  /** Where `x` first occurs in `s`. */
  function FirstIndex(s: seq<nat>, x: nat): (k: nat)
    requires x in s
    ensures k < |s| && s[k] == x && x !in s[..k]
  {
    if s[0] == x then 0 else
      var k := FirstIndex(s[1..], x);
      assert s[..k + 1] == [s[0]] + s[1..][..k];
      k + 1
  }

  /** In a finish order, a neighbour's first position precedes its lister's. */
  lemma FinishedNeighbourEarlier(g: Ases, key: EdgeKey, done: seq<nat>, x: nat, w: nat)
    requires FinishedBefore(g, key, done) && x in done
    requires x in g && w in Succ(g, x, key)
    ensures w in done && FirstIndex(done, w) < FirstIndex(done, x)
  {
    var j := FirstIndex(done, x);
    assert NeighboursBefore(g, key, done, j);
    var k :| 0 <= k < j && done[..j][k] == w;
    assert done[k] == w;
  }

  /** Along a path through finished nodes, first positions strictly fall. */
  lemma {:induction false} PositionsFall(g: Ases, key: EdgeKey, done: seq<nat>, c: seq<nat>, k: nat)
    requires FinishedBefore(g, key, done) && Path(g, key, c)
    requires forall x :: x in c ==> x in done
    requires 0 < k < |c|
    ensures FirstIndex(done, c[k]) + k <= FirstIndex(done, c[0])
  {
    FinishedNeighbourEarlier(g, key, done, c[k - 1], c[k]);
    if k > 1 {
      PositionsFall(g, key, done, c, k - 1);
    }
  }

  /** A complete finish order only lists ASes with records, so every
      neighbour it met has one. */
  lemma FinishOrderClosed(g: Ases, key: EdgeKey, done: seq<nat>)
    requires FinishedBefore(g, key, done) && forall x :: x in g ==> x in done
    ensures Closed(g, key)
  {
    forall n, w | n in g && w in Succ(g, n, key) ensures w in g {
      var j :| 0 <= j < |done| && done[j] == n;
      assert NeighboursBefore(g, key, done, j);
      assert w in done[..j];
      var i :| 0 <= i < j && done[..j][i] == w;
      assert NeighboursBefore(g, key, done, i);
    }
  }

  /** A finish order that covers the whole table leaves no room for a
      cycle. */
  lemma FinishOrderAcyclic(g: Ases, key: EdgeKey, done: seq<nat>)
    requires FinishedBefore(g, key, done) && forall x :: x in g ==> x in done
    ensures Acyclic(g, key)
  {
    forall c | IsCycle(g, key, c) ensures false {
      var last := |c| - 1;
      FinishedNeighbourEarlier(g, key, done, c[last], c[0]);
      if last > 0 {
        PositionsFall(g, key, done, c, last);
      }
    }
  }

  /** `check_for_cycles`: the DFS over `provider_asns`, then over
      `customer_asns`. Success means neither relation has a cycle; a
      CycleError names a real cycle; a KeyError a listed ASN without a
      record. */
  function CheckForCycles(g: Ases, order: seq<nat>): (r: Result<()>)
    requires KeyOrder(g, order)
    ensures r.Ok? ==> Acyclic(g, ProviderAsns) && Acyclic(g, CustomerAsns)
    ensures r.Ok? ==> Closed(g, ProviderAsns) && Closed(g, CustomerAsns)
    ensures r == Err(CycleError) ==>
              (exists c :: IsCycle(g, ProviderAsns, c)) || (exists c :: IsCycle(g, CustomerAsns, c))
    ensures r == Err(KeyError) ==> !Closed(g, ProviderAsns) || !Closed(g, CustomerAsns)
    ensures r.Err? ==> r.error == CycleError || r.error == KeyError
  {
    var up :- AllFrom(g, ProviderAsns, order, 0, []);
    FinishOrderAcyclic(g, ProviderAsns, up);
    FinishOrderClosed(g, ProviderAsns, up);
    var down :- AllFrom(g, CustomerAsns, order, 0, []);
    FinishOrderAcyclic(g, CustomerAsns, down);
    FinishOrderClosed(g, CustomerAsns, down);
    Ok(())
  }

  /** The check succeeds exactly when every listed ASN has a record and
      both relations are acyclic. */
  lemma CheckForCyclesExact(g: Ases, order: seq<nat>)
    requires KeyOrder(g, order)
    ensures CheckForCycles(g, order).Ok? <==>
              Closed(g, ProviderAsns) && Closed(g, CustomerAsns) && Acyclic(g, ProviderAsns) && Acyclic(g, CustomerAsns)
  {
  }
}
