/** The data-plane packet propagator: after the control plane has converged,
    every AS traces a packet for the destination hop by hop along the next
    hops of its most specific announcements, and the first AS that decides
    the packet's fate fixes the outcome of every AS on the way. Outcomes are
    stored as they are found and reused. */
module DataPlane {
  import opened Wrappers
  import opened Enums
  import opened Announcements

  /** What the propagator reads from a finished simulation for one
      destination address.
      - `order`: the ASes of the graph in iteration order; the graph's AS
        dictionary holds exactly these.
      - `attackers`, `victims`: the scenario's ASN sets.
      - `best`: each AS's most specific announcement covering the
        destination, when it has one.
      - `savFails`: the ASes whose source-address validation rejects the
        packet together with that announcement. */
  datatype Plane = Plane(
    order: seq<nat>,
    attackers: set<nat>,
    victims: set<nat>,
    best: map<nat, Ann>,
    savFails: set<nat>)

  /** A walk gives up once more than this many ASes have been visited. */
  const MaxVisited := 64

  /** The traceback ends at `asn` without reaching an attacker or a victim:
      no announcement, a path of one AS, an announcement the AS originated,
      a next hop that is the AS itself, or a SAV failure. */
  predicate Dead(pl: Plane, asn: nat) {
    || asn !in pl.best
    || |pl.best[asn].asPath| == 1
    || pl.best[asn].recv == ORIGIN
    || pl.best[asn].nextHop == asn
    || asn in pl.savFails
  }

  /** `asn` settles the packet by itself, whatever was visited before. */
  predicate Terminal(pl: Plane, asn: nat) {
    asn in pl.attackers || asn in pl.victims || Dead(pl, asn)
  }

  /** The outcome of an AS that settles the packet by itself. */
  function TerminalOutcome(pl: Plane, asn: nat): Outcome {
    if asn in pl.attackers then ATTACKER_SUCCESS
    else if asn in pl.victims then VICTIM_SUCCESS
    else DISCONNECTED
  }

  /** Where the packet goes next from an AS that does not settle it. */
  function NextHop(pl: Plane, asn: nat): nat
    requires !Terminal(pl, asn)
  {
    pl.best[asn].nextHop
  }

  /** `_determine_data_plane_outcome`. */
  function Determine(pl: Plane, asn: nat, visited: set<nat>): (o: Outcome)
    ensures Terminal(pl, asn) ==> o == TerminalOutcome(pl, asn)
    ensures !Terminal(pl, asn) ==>
              (o == DATA_PLANE_LOOP <==> asn in visited || |visited| > MaxVisited)
    ensures !Terminal(pl, asn) ==> o == DATA_PLANE_LOOP || o == UNDETERMINED
    ensures o == UNDETERMINED ==> !Terminal(pl, asn) && asn !in visited && |visited| <= MaxVisited
  {
    if asn in pl.attackers then ATTACKER_SUCCESS
    else if asn in pl.victims then VICTIM_SUCCESS
    else if Dead(pl, asn) then DISCONNECTED
    else if asn in visited || |visited| > MaxVisited then DATA_PLANE_LOOP
    else UNDETERMINED
  }

  /** The outcome found for the AS a walk started at, and the outcomes
      stored so far. */
  datatype Walked = Walked(outcome: Outcome, memo: map<nat, Outcome>)

  /** `memo2` keeps every outcome of `memo`. */
  ghost predicate Extends(memo: map<nat, Outcome>, memo2: map<nat, Outcome>) {
    forall k :: k in memo ==> k in memo2 && memo2[k] == memo[k]
  }

  /** Every stored outcome is a final one, belongs to an AS of the graph and
      agrees with the AS's own situation: an AS that settles the packet has
      its own outcome, any other AS either ran into a loop or shares the
      outcome of its next hop. */
  ghost predicate Coherent(pl: Plane, memo: map<nat, Outcome>) {
    forall k :: k in memo ==>
      && k in pl.order
      && memo[k] != UNDETERMINED
      && (Terminal(pl, k) ==> memo[k] == TerminalOutcome(pl, k))
      && (!Terminal(pl, k) ==>
            memo[k] == DATA_PLANE_LOOP || (NextHop(pl, k) in memo && memo[k] == memo[NextHop(pl, k)]))
  }

  /** What `Walk` promises about its result. */
  ghost predicate WalkPost(pl: Plane, asn: nat, memo: map<nat, Outcome>, w: Walked) {
    && asn in w.memo && w.memo[asn] == w.outcome
    && Extends(memo, w.memo)
    && (forall k :: k in w.memo && k !in memo ==> w.memo[k] == w.outcome && k in pl.order)
    && (Coherent(pl, memo) ==> Coherent(pl, w.memo))
  }

  /** `store_as_data_plane_outcomes`: the stored outcome if there is one;
      otherwise the AS's own outcome, or, when that is undetermined, the
      outcome of its next hop, found with the AS added to `visited`. A next
      hop outside the graph is a KeyError. */
  function Walk(pl: Plane, asn: nat, memo: map<nat, Outcome>, visited: set<nat>): (r: Result<Walked>)
    requires asn in pl.order
    ensures r.Ok? ==> WalkPost(pl, asn, memo, r.value)
    ensures r.Ok? && asn !in memo && Determine(pl, asn, visited) == UNDETERMINED ==>
              NextHop(pl, asn) in r.value.memo && r.value.memo[NextHop(pl, asn)] == r.value.outcome
    ensures r.Err? ==> r.error == KeyError
    decreases MaxVisited + 1 - |visited|
  {
    if asn in memo then Ok(Walked(memo[asn], memo))
    else
      var o := Determine(pl, asn, visited);
      if o != UNDETERMINED then
        var w := Walked(o, memo[asn := o]);
        StoredDecided(pl, asn, memo, w);
        Ok(w)
      else
        var hop := NextHop(pl, asn);
        if hop !in pl.order then Err(KeyError)
        else
          var inner :- Walk(pl, hop, memo, visited + {asn});
          var w := Walked(inner.outcome, inner.memo[asn := inner.outcome]);
          StoredFollowed(pl, asn, memo, inner, w);
          Ok(w)
  }

  /** Storing an AS's own final outcome. */
  lemma StoredDecided(pl: Plane, asn: nat, memo: map<nat, Outcome>, w: Walked)
    requires asn in pl.order && asn !in memo
    requires w.outcome != UNDETERMINED
    requires Terminal(pl, asn) ==> w.outcome == TerminalOutcome(pl, asn)
    requires !Terminal(pl, asn) ==> w.outcome == DATA_PLANE_LOOP
    requires w.memo == memo[asn := w.outcome]
    ensures WalkPost(pl, asn, memo, w)
  {
    if Coherent(pl, memo) {
      forall k | k in w.memo && !Terminal(pl, k) && w.memo[k] != DATA_PLANE_LOOP
        ensures NextHop(pl, k) in w.memo && w.memo[k] == w.memo[NextHop(pl, k)]
      {
        assert k in memo;
      }
    }
  }

  /** Storing the outcome that the next hop's walk found. */
  lemma StoredFollowed(pl: Plane, asn: nat, memo: map<nat, Outcome>, inner: Walked, w: Walked)
    requires asn in pl.order && asn !in memo && !Terminal(pl, asn)
    requires WalkPost(pl, NextHop(pl, asn), memo, inner)
    requires w == Walked(inner.outcome, inner.memo[asn := inner.outcome])
    ensures WalkPost(pl, asn, memo, w)
    ensures NextHop(pl, asn) in w.memo && w.memo[NextHop(pl, asn)] == w.outcome
  {
    var hop := NextHop(pl, asn);
    assert hop != asn;
    if Coherent(pl, memo) {
      assert Coherent(pl, inner.memo);
      forall k | k in w.memo
        ensures && k in pl.order && w.memo[k] != UNDETERMINED
                && (Terminal(pl, k) ==> w.memo[k] == TerminalOutcome(pl, k))
                && (!Terminal(pl, k) ==>
                      w.memo[k] == DATA_PLANE_LOOP
                      || (NextHop(pl, k) in w.memo && w.memo[k] == w.memo[NextHop(pl, k)]))
      {
        if k != asn {
          assert k in inner.memo;
          if !Terminal(pl, k) && w.memo[k] != DATA_PLANE_LOOP && NextHop(pl, k) == asn && asn in inner.memo {
            assert inner.memo[asn] == inner.outcome;
          }
        }
      }
    }
  }

  /** The outcome of the walk from `asn` without any stored outcomes: follow
      next hops until an AS decides. */
  function Follow(pl: Plane, asn: nat, visited: set<nat>): (r: Result<Outcome>)
    ensures r.Ok? ==> r.value != UNDETERMINED
    decreases MaxVisited + 1 - |visited|
  {
    var o := Determine(pl, asn, visited);
    if o != UNDETERMINED then Ok(o)
    else
      var hop := NextHop(pl, asn);
      if hop !in pl.order then Err(KeyError)
      else Follow(pl, hop, visited + {asn})
  }

  /** Without stored outcomes the memoised walk finds what following the
      next hops finds, and fails exactly when that does. */
  lemma {:induction false} WalkFollows(pl: Plane, asn: nat, visited: set<nat>)
    requires asn in pl.order
    ensures Walk(pl, asn, map[], visited).Ok? <==> Follow(pl, asn, visited).Ok?
    ensures Walk(pl, asn, map[], visited).Ok? ==>
              Walk(pl, asn, map[], visited).value.outcome == Follow(pl, asn, visited).value
    decreases MaxVisited + 1 - |visited|
  {
    if Determine(pl, asn, visited) == UNDETERMINED && NextHop(pl, asn) in pl.order {
      WalkFollows(pl, NextHop(pl, asn), visited + {asn});
    }
  }

  /** The loop of `get_as_outcomes_for_data_plane_packet` from position `i`
      on, each AS walked with an empty `visited` set. */
  function OutcomesFrom(pl: Plane, i: nat, memo: map<nat, Outcome>): (r: Result<map<nat, Outcome>>)
    requires i <= |pl.order|
    ensures r.Ok? ==> Extends(memo, r.value)
    ensures r.Ok? ==> forall j :: i <= j < |pl.order| ==> pl.order[j] in r.value
    ensures r.Ok? ==> forall k :: k in r.value ==> k in memo || k in pl.order
    ensures r.Ok? && Coherent(pl, memo) ==> Coherent(pl, r.value)
    ensures r.Err? ==> r.error == KeyError
    decreases |pl.order| - i
  {
    if i == |pl.order| then Ok(memo)
    else
      var w :- Walk(pl, pl.order[i], memo, {});
      var r := OutcomesFrom(pl, i + 1, w.memo);
      if r.Ok? then
        assert forall j :: i <= j < |pl.order| ==> pl.order[j] in r.value by {
          assert pl.order[i] in w.memo;
        }
        r
      else r
  }

  /** `get_as_outcomes_for_data_plane_packet`: an outcome for every AS of
      the graph and for nothing else, each final and coherent with the AS's
      own situation and its next hop's outcome. */
  function Outcomes(pl: Plane): (r: Result<map<nat, Outcome>>)
    ensures r.Ok? ==> forall k :: k in r.value <==> k in pl.order
    ensures r.Ok? ==> Coherent(pl, r.value)
    ensures r.Err? ==> r.error == KeyError
  {
    OutcomesFrom(pl, 0, map[])
  }

  /** An attacker's outcome is always ATTACKER_SUCCESS, and a victim that is
      not an attacker always gets VICTIM_SUCCESS. */
  lemma OutcomesOfEndpoints(pl: Plane, k: nat)
    requires Outcomes(pl).Ok? && k in pl.order
    ensures k in pl.attackers ==> Outcomes(pl).value[k] == ATTACKER_SUCCESS
    ensures k !in pl.attackers && k in pl.victims ==> Outcomes(pl).value[k] == VICTIM_SUCCESS
  {
    assert k in Outcomes(pl).value;
  }

  /* ---------------------------------------------------------------------
     As written, the third test reads `Relationships.ORIGIN`, a name the
     module never imports: the test raises NameError whenever it is reached
     with an announcement whose path has more than one AS.
     --------------------------------------------------------------------- */

  function DetermineAsWritten(pl: Plane, asn: nat, visited: set<nat>): (r: Result<Outcome>)
    ensures r.Err? <==>
              && asn !in pl.attackers && asn !in pl.victims
              && asn in pl.best && |pl.best[asn].asPath| != 1
    ensures r.Err? ==> r.error == NameError
    ensures r.Ok? ==> r.value == Determine(pl, asn, visited) && r.value != UNDETERMINED
  {
    if asn in pl.attackers then Ok(ATTACKER_SUCCESS)
    else if asn in pl.victims then Ok(VICTIM_SUCCESS)
    else if asn !in pl.best || |pl.best[asn].asPath| == 1 then Ok(DISCONNECTED)
    else Err(NameError)
  }

  /** As written, an AS that has to forward the packet raises NameError
      instead, while the corrected test forwards it. */
  lemma ForwardingRaises(pl: Plane, asn: nat, visited: set<nat>)
    requires Determine(pl, asn, visited) == UNDETERMINED
    ensures DetermineAsWritten(pl, asn, visited) == Err(NameError)
  {
  }
}
