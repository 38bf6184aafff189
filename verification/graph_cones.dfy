/** Provider cones (`ASGraphUtils.add_provider_cone_asns`): the memoised
    recursion over `provider_asns` and what it computes. */
module GraphCones {
  import opened Wrappers
  import opened Seqs
  import opened GraphCycles

  /** `p` leads from `m` to `x` by one or more provider edges. */
  predicate UpPath(g: Ases, p: seq<nat>, m: nat, x: nat) {
    |p| >= 2 && Path(g, ProviderAsns, p) && p[0] == m && p[|p| - 1] == x
  }

  /** `x` is in the provider cone of `m`. */
  ghost predicate InCone(g: Ases, m: nat, x: nat) {
    exists p :: UpPath(g, p, m, x)
  }

  /** The memo `cone_dict`: ASN to the cone collected so far. */
  type Memo = map<nat, set<nat>>

  /** Everything the memo lists is really in the cone. */
  ghost predicate Sound(g: Ases, memo: Memo) {
    forall m, x :: m in memo && x in memo[m] ==> InCone(g, m, x)
  }

  /** A finished entry: each provider is finished too, listed, and its cone
      is included. */
  predicate SettledAt(g: Ases, memo: Memo, stack: seq<nat>, m: nat)
    requires m in memo
  {
    m in g && forall w :: w in Succ(g, m, ProviderAsns) ==>
      w in memo && w !in stack && w in memo[m] && memo[w] <= memo[m]
  }

  /** Every entry not on the recursion stack is finished. */
  predicate Settled(g: Ases, memo: Memo, stack: seq<nat>) {
    forall m :: m in memo && m !in stack ==> SettledAt(g, memo, stack, m)
  }

  /** A direct provider is in the cone, and so is its own cone. */
  lemma ConeStep(g: Ases, n: nat, w: nat)
    requires n in g && w in g && w in Succ(g, n, ProviderAsns)
    ensures InCone(g, n, w)
    ensures forall x :: InCone(g, w, x) ==> InCone(g, n, x)
  {
    assert UpPath(g, [n, w], n, w);
    forall x | InCone(g, w, x) ensures InCone(g, n, x) {
      var p :| UpPath(g, p, w, x);
      var q := [n] + p;
      assert forall i :: 0 <= i < |p| ==> q[i + 1] == p[i];
      assert UpPath(g, q, n, x);
    }
  }

  /** Adding cone members to one entry keeps the memo sound. */
  lemma SoundAdd(g: Ases, memo: Memo, n: nat, add: set<nat>)
    requires Sound(g, memo) && n in memo
    requires forall x :: x in add ==> InCone(g, n, x)
    ensures Sound(g, memo[n := memo[n] + add])
  {
  }

  /** Growing the entry of an AS on the stack leaves finished entries
      finished. */
  lemma SettledGrow(g: Ases, memo: Memo, stack: seq<nat>, n: nat, s: set<nat>)
    requires Settled(g, memo, stack) && n in memo && n in stack && memo[n] <= s
    ensures Settled(g, memo[n := s], stack)
  {
    var m2 := memo[n := s];
    forall m | m in m2 && m !in stack ensures SettledAt(g, m2, stack, m) {
      assert SettledAt(g, memo, stack, m);
    }
  }

  /** What the loop over the providers of `n` (index below `i`) has
      established. */
  predicate DoneBelow(g: Ases, memo: Memo, stack: seq<nat>, n: nat, i: nat)
    requires n in g && n in memo && i <= |Succ(g, n, ProviderAsns)|
  {
    forall k :: 0 <= k < i ==>
      var w := Succ(g, n, ProviderAsns)[k];
      w in memo && w !in stack + [n] && w in memo[n] && memo[w] <= memo[n]
  }

  /** `_get_cone_helper` on an AS without a memo entry: start it empty,
      then walk its providers. `stack` is the chain of callers. The memo
      only grows, and entries it already had are returned as they were. */
  function ConeVisit(g: Ases, n: nat, memo: Memo, ghost stack: seq<nat>): (r: Result<Memo>)
    requires n in g && n !in memo && memo.Keys <= g.Keys && Elems(stack) <= memo.Keys
    requires Path(g, ProviderAsns, stack + [n]) && Sound(g, memo)
    requires Acyclic(g, ProviderAsns) ==> Settled(g, memo, stack)
    ensures r.Ok? ==> memo.Keys <= r.value.Keys <= g.Keys && n in r.value
    ensures r.Ok? ==> forall k :: k in memo ==> r.value[k] == memo[k]
    ensures r.Ok? ==> Sound(g, r.value)
    ensures r.Ok? && Acyclic(g, ProviderAsns) ==> Settled(g, r.value, stack)
    ensures r.Err? ==> r.error == KeyError && !Closed(g, ProviderAsns)
    decreases |g.Keys - memo.Keys|, 0
  {
    VisitReady(g, n, memo, stack);
    ConeLoop(g, n, 0, memo[n := {}], stack)
  }

  /** Entering `n` sets up its provider loop, and the memo has grown. */
  lemma VisitReady(g: Ases, n: nat, memo: Memo, stack: seq<nat>)
    requires n in g && n !in memo && memo.Keys <= g.Keys && Elems(stack) <= memo.Keys
    requires Path(g, ProviderAsns, stack + [n]) && Sound(g, memo)
    requires Acyclic(g, ProviderAsns) ==> Settled(g, memo, stack)
    ensures LoopReady(g, n, 0, memo[n := {}], stack)
    ensures |g.Keys - memo[n := {}].Keys| < |g.Keys - memo.Keys|
  {
    VisitShrinks(g.Keys, memo.Keys, n);
    SettledPush(g, memo, stack, n);
    assert n !in stack by { assert (stack + [n])[|stack|] == n; }
  }

  /** Entering `n`: a fresh empty entry for it on top of the stack leaves
      the finished entries finished. */
  lemma SettledPush(g: Ases, memo: Memo, stack: seq<nat>, n: nat)
    requires n !in memo
    requires Acyclic(g, ProviderAsns) ==> Settled(g, memo, stack)
    ensures Acyclic(g, ProviderAsns) ==> Settled(g, memo[n := {}], stack + [n])
  {
    if Acyclic(g, ProviderAsns) {
      var m0 := memo[n := {}];
      forall m | m in m0 && m !in stack + [n] ensures SettledAt(g, m0, stack + [n], m) {
        assert SettledAt(g, memo, stack, m);
      }
    }
  }

  /** Leaving `n` once all its providers are done: it is finished, and so
      is everything that was finished while it sat on the stack. */
  lemma SettledPop(g: Ases, memo: Memo, stack: seq<nat>, n: nat)
    requires n in g && n in memo
    requires Acyclic(g, ProviderAsns) ==>
               Settled(g, memo, stack + [n]) && DoneBelow(g, memo, stack, n, |Succ(g, n, ProviderAsns)|)
    ensures Acyclic(g, ProviderAsns) ==> Settled(g, memo, stack)
  {
    if Acyclic(g, ProviderAsns) {
      forall m | m in memo && m !in stack ensures SettledAt(g, memo, stack, m) {
        if m != n { assert SettledAt(g, memo, stack + [n], m); }
      }
    }
  }

  /** The provider loop of `_get_cone_helper` from index `i`: add the
      provider, fill its entry first if it has none (KeyError when it has
      no record), then add its cone. */
  function ConeLoop(g: Ases, n: nat, i: nat, memo: Memo, ghost stack: seq<nat>): (r: Result<Memo>)
    requires LoopReady(g, n, i, memo, stack)
    ensures r.Ok? ==> memo.Keys <= r.value.Keys <= g.Keys
    ensures r.Ok? ==> forall k :: k in memo && k != n ==> r.value[k] == memo[k]
    ensures r.Ok? ==> Sound(g, r.value)
    ensures r.Ok? && Acyclic(g, ProviderAsns) ==> Settled(g, r.value, stack)
    ensures r.Err? ==> r.error == KeyError && !Closed(g, ProviderAsns)
    decreases |g.Keys - memo.Keys|, 1, |Succ(g, n, ProviderAsns)| - i
  {
    var provs := Succ(g, n, ProviderAsns);
    if i == |provs| then
      SettledPop(g, memo, stack, n);
      Ok(memo)
    else
      var w := provs[i];
      if w !in memo then
        if w !in g then Err(KeyError)
        else ConeDescend(g, n, i, memo, stack)
      else
        ConeReuse(g, n, i, memo, stack)
  }

  /** The loop step for a provider that already has an entry. */
  function ConeReuse(g: Ases, n: nat, i: nat, memo: Memo, ghost stack: seq<nat>): (r: Result<Memo>)
    requires n in g && n in memo && n !in stack && i < |Succ(g, n, ProviderAsns)|
    requires memo.Keys <= g.Keys && Elems(stack) <= memo.Keys && Succ(g, n, ProviderAsns)[i] in memo
    requires Path(g, ProviderAsns, stack + [n]) && Sound(g, memo)
    requires Acyclic(g, ProviderAsns) ==> Settled(g, memo, stack + [n]) && DoneBelow(g, memo, stack, n, i)
    ensures r.Ok? ==> memo.Keys <= r.value.Keys <= g.Keys
    ensures r.Ok? ==> forall k :: k in memo && k != n ==> r.value[k] == memo[k]
    ensures r.Ok? ==> Sound(g, r.value)
    ensures r.Ok? && Acyclic(g, ProviderAsns) ==> Settled(g, r.value, stack)
    ensures r.Err? ==> r.error == KeyError && !Closed(g, ProviderAsns)
    decreases |g.Keys - memo.Keys|, 1, |Succ(g, n, ProviderAsns)| - i, 0
  {
    var w := Succ(g, n, ProviderAsns)[i];
    ReuseReady(g, n, i, memo, stack);
    ConeLoop(g, n, i + 1, memo[n := memo[n] + {w} + memo[w]], stack)
  }

  /** Reusing a provider's entry sets up the next loop step without adding
      entries. */
  lemma ReuseReady(g: Ases, n: nat, i: nat, memo: Memo, stack: seq<nat>)
    requires n in g && n in memo && n !in stack && i < |Succ(g, n, ProviderAsns)|
    requires memo.Keys <= g.Keys && Elems(stack) <= memo.Keys && Succ(g, n, ProviderAsns)[i] in memo
    requires Path(g, ProviderAsns, stack + [n]) && Sound(g, memo)
    requires Acyclic(g, ProviderAsns) ==> Settled(g, memo, stack + [n]) && DoneBelow(g, memo, stack, n, i)
    ensures var w := Succ(g, n, ProviderAsns)[i];
            var m1 := memo[n := memo[n] + {w} + memo[w]];
            LoopReady(g, n, i + 1, m1, stack) && m1.Keys == memo.Keys
            && forall k :: k in memo && k != n ==> m1[k] == memo[k]
  {
    var w := Succ(g, n, ProviderAsns)[i];
    ConeStep(g, n, w);
    SoundAdd(g, memo, n, {w} + memo[w]);
    ReuseSettled(g, n, i, memo, stack);
  }

  /** Reusing a provider's entry on an acyclic relation: the loop advances
      by one and finished entries stay finished. */
  lemma ReuseSettled(g: Ases, n: nat, i: nat, memo: Memo, stack: seq<nat>)
    requires n in g && n in memo && n !in stack && i < |Succ(g, n, ProviderAsns)|
    requires Succ(g, n, ProviderAsns)[i] in memo && Path(g, ProviderAsns, stack + [n])
    requires Acyclic(g, ProviderAsns) ==> Settled(g, memo, stack + [n]) && DoneBelow(g, memo, stack, n, i)
    ensures var w := Succ(g, n, ProviderAsns)[i];
            var m1 := memo[n := memo[n] + {w} + memo[w]];
            Acyclic(g, ProviderAsns) ==> Settled(g, m1, stack + [n]) && DoneBelow(g, m1, stack, n, i + 1)
  {
    if Acyclic(g, ProviderAsns) {
      var w := Succ(g, n, ProviderAsns)[i];
      var m1 := memo[n := memo[n] + {w} + memo[w]];
      OffPath(g, ProviderAsns, stack, n, w);
      SettledGrow(g, memo, stack + [n], n, m1[n]);
    }
  }

  /** The loop step for a provider without an entry: fill it first. */
  function ConeDescend(g: Ases, n: nat, i: nat, memo: Memo, ghost stack: seq<nat>): (r: Result<Memo>)
    requires n in g && n in memo && n !in stack && i < |Succ(g, n, ProviderAsns)|
    requires memo.Keys <= g.Keys && Elems(stack) <= memo.Keys
    requires Succ(g, n, ProviderAsns)[i] !in memo && Succ(g, n, ProviderAsns)[i] in g
    requires Path(g, ProviderAsns, stack + [n]) && Sound(g, memo)
    requires Acyclic(g, ProviderAsns) ==> Settled(g, memo, stack + [n]) && DoneBelow(g, memo, stack, n, i)
    ensures r.Ok? ==> memo.Keys <= r.value.Keys <= g.Keys
    ensures r.Ok? ==> forall k :: k in memo && k != n ==> r.value[k] == memo[k]
    ensures r.Ok? ==> Sound(g, r.value)
    ensures r.Ok? && Acyclic(g, ProviderAsns) ==> Settled(g, r.value, stack)
    ensures r.Err? ==> r.error == KeyError && !Closed(g, ProviderAsns)
    decreases |g.Keys - memo.Keys|, 1, |Succ(g, n, ProviderAsns)| - i, 1
  {
    var w := Succ(g, n, ProviderAsns)[i];
    var m1 := memo[n := memo[n] + {w}];
    DescendFirst(g, n, i, memo, stack);
    var m2 :- ConeVisit(g, w, m1, stack + [n]);
    ConeResume(g, n, i, memo, m1, m2, stack)
  }

  /** Back from filling the provider's entry: add its cone to that of `n`
      and go on with the next provider. */
  function ConeResume(g: Ases, n: nat, i: nat, memo: Memo, m1: Memo, m2: Memo, ghost stack: seq<nat>): (r: Result<Memo>)
    requires n in g && n in memo && n !in stack && i < |Succ(g, n, ProviderAsns)|
    requires memo.Keys <= g.Keys && Elems(stack) <= memo.Keys && Path(g, ProviderAsns, stack + [n])
    requires m1 == memo[n := memo[n] + {Succ(g, n, ProviderAsns)[i]}]
    requires m1.Keys <= m2.Keys <= g.Keys && Succ(g, n, ProviderAsns)[i] in m2
    requires (forall k :: k in m1 ==> m2[k] == m1[k]) && Sound(g, m2)
    requires Acyclic(g, ProviderAsns) ==> DoneBelow(g, memo, stack, n, i) && Settled(g, m2, stack + [n])
    ensures r.Ok? ==> memo.Keys <= r.value.Keys <= g.Keys
    ensures r.Ok? ==> forall k :: k in memo && k != n ==> r.value[k] == memo[k]
    ensures r.Ok? ==> Sound(g, r.value)
    ensures r.Ok? && Acyclic(g, ProviderAsns) ==> Settled(g, r.value, stack)
    ensures r.Err? ==> r.error == KeyError && !Closed(g, ProviderAsns)
    decreases |g.Keys - memo.Keys|, 1, |Succ(g, n, ProviderAsns)| - i, 0
  {
    var w := Succ(g, n, ProviderAsns)[i];
    var m3 := m2[n := m2[n] + m2[w]];
    ResumeReady(g, n, i, memo, m1, m2, stack);
    ConeLoop(g, n, i + 1, m3, stack)
  }

  /** Back from the descent: the next loop step is set up, and the memo
      has only grown. */
  lemma ResumeReady(g: Ases, n: nat, i: nat, memo: Memo, m1: Memo, m2: Memo, stack: seq<nat>)
    requires n in g && n in memo && n !in stack && i < |Succ(g, n, ProviderAsns)|
    requires memo.Keys <= g.Keys && Elems(stack) <= memo.Keys && Path(g, ProviderAsns, stack + [n])
    requires m1 == memo[n := memo[n] + {Succ(g, n, ProviderAsns)[i]}]
    requires m1.Keys <= m2.Keys <= g.Keys && Succ(g, n, ProviderAsns)[i] in m2
    requires (forall k :: k in m1 ==> m2[k] == m1[k]) && Sound(g, m2)
    requires Acyclic(g, ProviderAsns) ==> DoneBelow(g, memo, stack, n, i) && Settled(g, m2, stack + [n])
    ensures var m3 := m2[n := m2[n] + m2[Succ(g, n, ProviderAsns)[i]]];
      LoopReady(g, n, i + 1, m3, stack) && |g.Keys - m3.Keys| <= |g.Keys - memo.Keys|
      && memo.Keys <= m3.Keys && forall k :: k in memo && k != n ==> m3[k] == memo[k]
  {
    var w := Succ(g, n, ProviderAsns)[i];
    var m3 := m2[n := m2[n] + m2[w]];
    DescendThen(g, n, i, memo, m2);
    KeepsOthers(memo, m1, m2, n, m3[n]);
    DescendThenSettled(g, n, i, memo, m1, m2, stack);
  }

  /** What the provider loop of `n` needs at index `i`. */
  ghost predicate LoopReady(g: Ases, n: nat, i: nat, memo: Memo, stack: seq<nat>) {
    n in g && n in memo && n !in stack && i <= |Succ(g, n, ProviderAsns)|
    && memo.Keys <= g.Keys && Elems(stack) <= memo.Keys
    && Path(g, ProviderAsns, stack + [n]) && Sound(g, memo)
    && (Acyclic(g, ProviderAsns) ==> Settled(g, memo, stack + [n]) && DoneBelow(g, memo, stack, n, i))
  }

  /** Before the descent: the new entry for `n` is sound and the
      provider's path extends the stack. */
  lemma DescendFirst(g: Ases, n: nat, i: nat, memo: Memo, stack: seq<nat>)
    requires n in g && n in memo && n !in stack && i < |Succ(g, n, ProviderAsns)|
    requires memo.Keys <= g.Keys && Elems(stack) <= memo.Keys
    requires Succ(g, n, ProviderAsns)[i] !in memo && Succ(g, n, ProviderAsns)[i] in g
    requires Path(g, ProviderAsns, stack + [n]) && Sound(g, memo)
    requires Acyclic(g, ProviderAsns) ==> Settled(g, memo, stack + [n])
    ensures var w := Succ(g, n, ProviderAsns)[i];
            var m1 := memo[n := memo[n] + {w}];
            Sound(g, m1) && Path(g, ProviderAsns, (stack + [n]) + [w]) && Elems(stack + [n]) <= m1.Keys
            && (Acyclic(g, ProviderAsns) ==> Settled(g, m1, stack + [n]))
  {
    var w := Succ(g, n, ProviderAsns)[i];
    var m1 := memo[n := memo[n] + {w}];
    ConeStep(g, n, w);
    SoundAdd(g, memo, n, {w});
    PathExtend(g, ProviderAsns, stack + [n], w);
    if Acyclic(g, ProviderAsns) {
      SettledGrow(g, memo, stack + [n], n, m1[n]);
    }
  }

  /** After the descent: adding the provider's cone keeps the memo sound,
      and the memo has only grown. */
  lemma DescendThen(g: Ases, n: nat, i: nat, memo: Memo, m2: Memo)
    requires n in g && n in memo && i < |Succ(g, n, ProviderAsns)|
    requires memo.Keys <= m2.Keys <= g.Keys && Succ(g, n, ProviderAsns)[i] in m2 && Sound(g, m2)
    ensures var w := Succ(g, n, ProviderAsns)[i];
            Sound(g, m2[n := m2[n] + m2[w]])
    ensures |g.Keys - m2.Keys| <= |g.Keys - memo.Keys|
  {
    var w := Succ(g, n, ProviderAsns)[i];
    ConeStep(g, n, w);
    SoundAdd(g, m2, n, m2[w]);
    SubsetCard(g.Keys - m2.Keys, g.Keys - memo.Keys);
  }

  /** The descent changes no entry but that of `n`. */
  lemma KeepsOthers(memo: Memo, m1: Memo, m2: Memo, n: nat, s: set<nat>)
    requires n in memo && n in m1 && m1 == memo[n := m1[n]] && forall k :: k in m1 ==> k in m2 && m2[k] == m1[k]
    ensures forall k :: k in memo && k != n ==> m2[n := s][k] == memo[k]
  {
  }

  /** After the descent on an acyclic relation: the provider is settled
      and the loop has advanced by one. */
  lemma DescendThenSettled(g: Ases, n: nat, i: nat, memo: Memo, m1: Memo, m2: Memo, stack: seq<nat>)
    requires n in g && n in memo && n !in stack && i < |Succ(g, n, ProviderAsns)|
    requires Path(g, ProviderAsns, stack + [n])
    requires m1 == memo[n := memo[n] + {Succ(g, n, ProviderAsns)[i]}]
    requires m1.Keys <= m2.Keys && Succ(g, n, ProviderAsns)[i] in m2
    requires forall k :: k in m1 ==> m2[k] == m1[k]
    requires Acyclic(g, ProviderAsns) ==> DoneBelow(g, memo, stack, n, i) && Settled(g, m2, stack + [n])
    ensures var w := Succ(g, n, ProviderAsns)[i];
            var m3 := m2[n := m2[n] + m2[w]];
            Acyclic(g, ProviderAsns) ==> Settled(g, m3, stack + [n]) && DoneBelow(g, m3, stack, n, i + 1)
  {
    if Acyclic(g, ProviderAsns) { DescendThenSettledAcyclic(g, n, i, memo, m1, m2, stack); }
  }

  /** The acyclic case of `DescendThenSettled`. */
  lemma DescendThenSettledAcyclic(g: Ases, n: nat, i: nat, memo: Memo, m1: Memo, m2: Memo, stack: seq<nat>)
    requires Acyclic(g, ProviderAsns)
    requires n in g && n in memo && n !in stack && i < |Succ(g, n, ProviderAsns)|
    requires Path(g, ProviderAsns, stack + [n]) && DoneBelow(g, memo, stack, n, i)
    requires m1 == memo[n := memo[n] + {Succ(g, n, ProviderAsns)[i]}]
    requires m1.Keys <= m2.Keys && Succ(g, n, ProviderAsns)[i] in m2
    requires (forall k :: k in m1 ==> m2[k] == m1[k]) && Settled(g, m2, stack + [n])
    ensures var w := Succ(g, n, ProviderAsns)[i];
            var m3 := m2[n := m2[n] + m2[w]];
            Settled(g, m3, stack + [n]) && DoneBelow(g, m3, stack, n, i + 1)
  {
    var w := Succ(g, n, ProviderAsns)[i];
    var m3 := m2[n := m2[n] + m2[w]];
    SettledGrow(g, m2, stack + [n], n, m3[n]);
    OffPath(g, ProviderAsns, stack, n, w);
    assert SettledAt(g, m2, stack + [n], w);
    forall k | 0 <= k < i + 1
      ensures var v := Succ(g, n, ProviderAsns)[k];
              v in m3 && v !in stack + [n] && v in m3[n] && m3[v] <= m3[n]
    {
      var v := Succ(g, n, ProviderAsns)[k];
      if k < i {
        assert v in memo && v !in stack + [n] && v in memo[n] && memo[v] <= memo[n];
        assert m3[v] == memo[v];
      }
    }
  }

  /** The outer loop of `add_provider_cone_asns` from position `i` of the
      table order: an AS with an entry reuses it, any other is filled. */
  function ConeAll(g: Ases, order: seq<nat>, i: nat, memo: Memo): (r: Result<Memo>)
    requires KeyOrder(g, order) && i <= |order| && memo.Keys <= g.Keys
    requires forall k :: 0 <= k < i ==> order[k] in memo
    requires Sound(g, memo) && (Acyclic(g, ProviderAsns) ==> Settled(g, memo, []))
    ensures r.Ok? ==> r.value.Keys == g.Keys && Sound(g, r.value)
    ensures r.Ok? && Acyclic(g, ProviderAsns) ==> Settled(g, r.value, [])
    ensures r.Err? ==> r.error == KeyError && !Closed(g, ProviderAsns)
    decreases |order| - i
  {
    if i == |order| then
      MemoCovers(g, order, memo);
      Ok(memo)
    else if order[i] in memo then ConeAll(g, order, i + 1, memo)
    else
      StartReady(g, order, i);
      var m :- ConeVisit(g, order[i], memo, []);
      ConeAll(g, order, i + 1, m)
  }

  /** Once every position of the order has an entry, every AS has. */
  lemma MemoCovers(g: Ases, order: seq<nat>, memo: Memo)
    requires KeyOrder(g, order) && memo.Keys <= g.Keys
    requires forall k :: 0 <= k < |order| ==> order[k] in memo
    ensures memo.Keys == g.Keys
  {
    forall x | x in g ensures x in memo {
      assert x in Elems(order);
      var k :| 0 <= k < |order| && order[k] == x;
    }
  }

  /** An AS of the order starts a provider path of its own. */
  lemma StartReady(g: Ases, order: seq<nat>, i: nat)
    requires KeyOrder(g, order) && i < |order|
    ensures order[i] in g && Path(g, ProviderAsns, [] + [order[i]])
  {
    assert order[i] in Elems(order);
    assert [] + [order[i]] == [order[i]];
  }

  /** In a settled memo every provider path ends inside the start's entry. */
  lemma {:induction false} ReachInMemo(g: Ases, memo: Memo, p: seq<nat>)
    requires Settled(g, memo, []) && |p| >= 2 && Path(g, ProviderAsns, p) && p[0] in memo
    ensures p[1] in memo && p[|p| - 1] in memo[p[0]]
    decreases |p|
  {
    assert SettledAt(g, memo, [], p[0]);
    if |p| > 2 {
      var q := p[1..];
      assert forall i :: 0 <= i < |q| ==> q[i] == p[i + 1];
      ReachInMemo(g, memo, q);
    }
  }

  /** On an acyclic relation no AS reaches itself. */
  lemma NotInOwnCone(g: Ases, m: nat)
    requires Acyclic(g, ProviderAsns)
    ensures !InCone(g, m, m)
  {
    if InCone(g, m, m) {
      var p :| UpPath(g, p, m, m);
      var c := p[..|p| - 1];
      assert forall i :: 0 <= i < |c| ==> c[i] == p[i];
      assert IsCycle(g, ProviderAsns, c);
      assert false;
    }
  }

  /** `add_provider_cone_asns`: one cone per AS. Every listed ASN is
      reachable by provider edges; on an acyclic relation the cone is
      exactly that set and never holds the AS itself. A listed provider
      without a record raises KeyError. */
  function AddProviderConeAsns(g: Ases, order: seq<nat>): (r: Result<Memo>)
    requires KeyOrder(g, order)
    ensures r.Ok? ==> r.value.Keys == g.Keys
    ensures r.Ok? ==> forall m, x :: m in r.value && x in r.value[m] ==> InCone(g, m, x)
    ensures r.Ok? && Acyclic(g, ProviderAsns) ==>
              forall m, x :: m in r.value ==> (x in r.value[m] <==> InCone(g, m, x))
    ensures r.Ok? && Acyclic(g, ProviderAsns) ==> forall m :: m in r.value ==> m !in r.value[m]
    ensures r.Err? ==> r.error == KeyError && !Closed(g, ProviderAsns)
  {
    var memo :- ConeAll(g, order, 0, map[]);
    ConesExact(g, memo);
    Ok(memo)
  }

  /** A sound memo settled with an empty stack lists exactly the cones. */
  lemma ConesExact(g: Ases, memo: Memo)
    requires Sound(g, memo) && (Acyclic(g, ProviderAsns) ==> Settled(g, memo, []))
    ensures Acyclic(g, ProviderAsns) ==>
              forall m, x :: m in memo ==> (x in memo[m] <==> InCone(g, m, x))
    ensures Acyclic(g, ProviderAsns) ==> forall m :: m in memo ==> m !in memo[m]
  {
    if Acyclic(g, ProviderAsns) {
      forall m, x | m in memo && InCone(g, m, x) ensures x in memo[m] {
        var p :| UpPath(g, p, m, x);
        ReachInMemo(g, memo, p);
      }
      forall m | m in memo ensures m !in memo[m] {
        NotInOwnCone(g, m);
      }
    }
  }
}
