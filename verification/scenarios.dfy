/** Two attack scenarios: what they seed before propagation, which ROAs they
    publish, the destination their packets go to, and how the accidental
    route leak reseeds the attacker after the first round.

    The prefixes and timestamps come from the `CommonPrefixes` and
    `Timestamps` enumerations, which are not part of this model: they are
    passed in as `Constants`. */
module Scenarios {
  import opened Wrappers
  import opened Enums
  import opened Prefixes
  import opened Announcements
  import opened IpAddrs

  /** `CommonPrefixes.PREFIX`, `CommonPrefixes.SUBPREFIX` and the
      `Timestamps` values a scenario stamps on its announcements. */
  datatype Constants = Constants(
    prefix: Prefix,
    subprefix: Prefix,
    victimTs: int,
    attackerTs: int,
    legitTs: int)

  /** A scenario's seed: the announcements each ASN originates. */
  type Seeds = map<nat, seq<Ann>>

  /** A route-origin authorisation: `origin` may originate `prefix`. */
  datatype Roa = Roa(prefix: Prefix, origin: nat)

  /** `Announcement(prefix=..., as_path=(asn,), next_hop_asn=asn,
      recv_relationship=ORIGIN, timestamp=ts)`. */
  function Originated(prefix: Prefix, asn: nat, ts: int): (a: Ann)
    ensures a.prefix == prefix && a.asPath == [asn] && a.nextHop == asn
    ensures a.recv == ORIGIN && a.timestamp == ts
    ensures WellFormed(a)
  {
    New(prefix, [asn], Some(asn), ORIGIN, ts, None, None, None, false).value
  }

  /** The announcement `asn` originates itself. */
  predicate OriginatedBy(a: Ann, asn: nat) {
    a.asPath == [asn] && a.nextHop == asn && a.recv == ORIGIN
  }

  /** The address every AS sends its packet to: `1.2.3.4`. */
  function DestAddress(): (d: Prefix)
    ensures IpAddr(V4Text(0x0102_0304, 32)) == Ok(d)
    ensures NumAddresses(d) == 1
  {
    IpAddrExamples();
    IpAddr(V4Text(0x0102_0304, 32)).value
  }

  /* ---------------------------------------------------------------------
     Subprefix hijack
     --------------------------------------------------------------------- */

  /** `SubprefixHijack._get_announcements`: each victim originates the
      prefix, then each attacker originates the subprefix, replacing the
      victim's entry when an ASN is both. */
  function SubprefixSeeds(c: Constants, victims: set<nat>, attackers: set<nat>): (s: Seeds)
    ensures s.Keys == victims + attackers
    ensures forall k :: k in attackers ==> s[k] == [Originated(c.subprefix, k, c.attackerTs)]
    ensures forall k :: k in victims && k !in attackers ==> s[k] == [Originated(c.prefix, k, c.victimTs)]
  {
    var fromVictims := map k | k in victims :: [Originated(c.prefix, k, c.victimTs)];
    var fromAttackers := map k | k in attackers :: [Originated(c.subprefix, k, c.attackerTs)];
    fromVictims + fromAttackers
  }

  /** Every seeded ASN originates exactly one announcement, its own, for
      the subprefix if it is an attacker and the prefix otherwise. */
  lemma SubprefixSeedsOriginated(c: Constants, victims: set<nat>, attackers: set<nat>, k: nat)
    requires k in SubprefixSeeds(c, victims, attackers)
    ensures var s := SubprefixSeeds(c, victims, attackers)[k];
            && |s| == 1 && OriginatedBy(s[0], k)
            && s[0].prefix == (if k in attackers then c.subprefix else c.prefix)
  {
  }

  /** `SubprefixHijack._get_roas`: the prefix, authorised for each victim. */
  function SubprefixRoas(c: Constants, victims: set<nat>, attackers: set<nat>): (r: set<Roa>)
    ensures forall roa :: roa in r <==> roa.prefix == c.prefix && roa.origin in victims
  {
    set v | v in victims :: Roa(c.prefix, v)
  }

  /** No ROA authorises an attacker that is not also a victim, and none
      covers the subprefix unless it equals the prefix. */
  lemma SubprefixRoasExcludeAttackers(c: Constants, victims: set<nat>, attackers: set<nat>, roa: Roa)
    requires roa in SubprefixRoas(c, victims, attackers)
    ensures roa.origin in attackers ==> roa.origin in victims
    ensures roa.prefix == c.prefix
  {
  }

  /** As written, line 35 reads `Relationships.ATTACKER`, which the
      `Relationships` enumeration does not have: any attacker raises
      AttributeError. */
  function SubprefixSeedsAsWritten(c: Constants, victims: set<nat>, attackers: set<nat>): (r: Result<Seeds>)
    ensures r.Err? <==> attackers != {}
    ensures r.Err? ==> r.error == AttributeError
    ensures r.Ok? ==> r.value == SubprefixSeeds(c, victims, attackers)
  {
    if attackers != {} then Err(AttributeError)
    else
      var s := map k | k in victims :: [Originated(c.prefix, k, c.victimTs)];
      assert s == SubprefixSeeds(c, victims, attackers);
      Ok(s)
  }

  /** As written, the scenario cannot seed a single attacker. */
  lemma SubprefixAsWrittenNoAttack(c: Constants, victims: set<nat>, a: nat)
    ensures SubprefixSeedsAsWritten(c, victims, {a}) == Err(AttributeError)
    ensures SubprefixSeeds(c, victims, {a})[a] == [Originated(c.subprefix, a, c.attackerTs)]
  {
  }

  /* ---------------------------------------------------------------------
     Accidental route leak
     --------------------------------------------------------------------- */

  /** `AccidentalRouteLeak.min_propagation_rounds`. */
  const LeakMinRounds := 2

  /** `warning_asn_groups`: the attacker groups that cannot leak. */
  const LeakWarningGroups: set<AsnGroup> := {STUBS_OR_MH, STUBS, ALL_WOUT_IXPS}

  /** `_validate_attacker_asn_group`: whether the constructor warns that
      the chosen attackers cannot leak. */
  function LeakWarns(group: AsnGroup, overrideAttackers: Option<set<nat>>): (w: bool)
    ensures w <==> group in LeakWarningGroups && (overrideAttackers.None? || overrideAttackers.value == {})
  {
    group in LeakWarningGroups && (overrideAttackers.None? || overrideAttackers.value == {})
  }

  /** As written, line 38 calls `warning.warn`, but the module imports no
      `warning`: where a warning is due, the constructor raises NameError. */
  function LeakValidateAsWritten(group: AsnGroup, overrideAttackers: Option<set<nat>>): (r: Result<()>)
    ensures r.Err? <==> LeakWarns(group, overrideAttackers)
    ensures r.Err? ==> r.error == NameError
  {
    if LeakWarns(group, overrideAttackers) then Err(NameError) else Ok(())
  }

  /** With the configuration defaults (attackers drawn from stubs and
      multihomed ASes, no override), the warning is due, so as written the
      scenario cannot be constructed. */
  lemma LeakDefaultGroupRaises()
    ensures LeakWarns(STUBS_OR_MH, None)
    ensures LeakValidateAsWritten(STUBS_OR_MH, None) == Err(NameError)
    ensures !LeakWarns(MULTIHOMED, None) && !LeakWarns(STUBS, Some({7}))
  {
  }

  /** `_get_seed_asn_ann_dict`: each legitimate origin originates the
      prefix. */
  function LeakSeeds(c: Constants, legit: set<nat>): (s: Seeds)
    ensures s.Keys == legit
    ensures forall k :: k in s ==> |s[k]| == 1 && OriginatedBy(s[k][0], k) && s[k][0].prefix == c.prefix
  {
    map k | k in legit :: [Originated(c.prefix, k, c.legitTs)]
  }

  /** `AccidentalRouteLeak._get_roas`: the prefix, authorised for each
      legitimate origin. */
  function LeakRoas(c: Constants, legit: set<nat>): (r: set<Roa>)
    ensures forall roa :: roa in r <==> roa.prefix == c.prefix && roa.origin in legit
  {
    set x | x in legit :: Roa(c.prefix, x)
  }

  /** The copy of a local-RIB announcement the attacker reseeds: received
      from nobody and stamped with the attacker timestamp. */
  function Leaked(c: Constants, a: Ann): (l: Ann)
    requires WellFormed(a)
    ensures l == a.(recv := ORIGIN, timestamp := c.attackerTs)
  {
    var o := NoOverrides.(recv := Some(ORIGIN), timestamp := Some(c.attackerTs));
    CopyKeepingPathSucceeds(a, o);
    Copy(a, o).value
  }

  /** The copies of every announcement of a local RIB, in RIB order. */
  function LeakedAll(c: Constants, rib: seq<Ann>): (r: seq<Ann>)
    requires forall i :: 0 <= i < |rib| ==> WellFormed(rib[i])
    ensures |r| == |rib|
    ensures forall i :: 0 <= i < |rib| ==> r[i] == rib[i].(recv := ORIGIN, timestamp := c.attackerTs)
  {
    if |rib| == 0 then [] else [Leaked(c, rib[0])] + LeakedAll(c, rib[1..])
  }

  /** The attackers' local RIBs after the first round, each in insertion
      order. Every announcement in them was built by the constructor. */
  ghost predicate RibsWellFormed(ribs: map<nat, seq<Ann>>) {
    forall k, i :: k in ribs && 0 <= i < |ribs[k]| ==> WellFormed(ribs[k][i])
  }

  /** An attacker with something to leak but no seed list of its own:
      `seed_asn_ann_dict[attacker_asn]` raises KeyError. */
  predicate Unseeded(seeds: Seeds, ribs: map<nat, seq<Ann>>, a: nat) {
    a !in ribs || (|ribs[a]| > 0 && a !in seeds)
  }

  /** The round-0 reseeding: every attacker's seed list gains the leaked
      copies of its local RIB. */
  function Reseed(c: Constants, seeds: Seeds, attackers: set<nat>, ribs: map<nat, seq<Ann>>): (r: Result<Seeds>)
    requires RibsWellFormed(ribs)
    ensures r.Err? <==> exists a :: a in attackers && Unseeded(seeds, ribs, a)
    ensures r.Err? ==> r.error == KeyError
    ensures r.Ok? ==> r.value.Keys == seeds.Keys
    ensures r.Ok? ==> forall k :: k in seeds && k !in attackers ==> r.value[k] == seeds[k]
    ensures r.Ok? ==> forall k :: k in seeds && k in attackers ==>
                        |r.value[k]| == |seeds[k]| + |ribs[k]| && r.value[k][..|seeds[k]|] == seeds[k]
                        && forall i :: 0 <= i < |ribs[k]| ==>
                             r.value[k][|seeds[k]| + i] == ribs[k][i].(recv := ORIGIN, timestamp := c.attackerTs)
  {
    if exists a :: a in attackers && Unseeded(seeds, ribs, a) then Err(KeyError)
    else
      Ok(map k | k in seeds :: if k in attackers then seeds[k] + LeakedAll(c, ribs[k]) else seeds[k])
  }

  /** An AS's seed list, or a fresh empty one. */
  function SeedsOf(seeds: Seeds, k: nat): seq<Ann> {
    if k in seeds then seeds[k] else []
  }

  /** The attackers that have something to leak. */
  function Leakers(attackers: set<nat>, ribs: map<nat, seq<Ann>>): set<nat> {
    set a | a in attackers && a in ribs && |ribs[a]| > 0
  }

  /** The reseeding as evidently meant: an attacker without a seed list gets
      a fresh one, as `setdefault(attacker_asn, [])` would give it. Only an
      attacker outside the graph raises KeyError. */
  function ReseedCorrected(c: Constants, seeds: Seeds, attackers: set<nat>, ribs: map<nat, seq<Ann>>): (r: Result<Seeds>)
    requires RibsWellFormed(ribs)
    ensures r.Err? <==> exists a :: a in attackers && a !in ribs
    ensures r.Err? ==> r.error == KeyError
    ensures r.Ok? ==> r.value.Keys == seeds.Keys + Leakers(attackers, ribs)
    ensures r.Ok? ==> forall k :: k in seeds && k !in attackers ==> r.value[k] == seeds[k]
    ensures r.Ok? ==> forall k :: k in r.value && k in attackers ==>
                        |r.value[k]| == |SeedsOf(seeds, k)| + |ribs[k]| && r.value[k][..|SeedsOf(seeds, k)|] == SeedsOf(seeds, k)
                        && forall i :: 0 <= i < |ribs[k]| ==>
                             r.value[k][|SeedsOf(seeds, k)| + i] == ribs[k][i].(recv := ORIGIN, timestamp := c.attackerTs)
  {
    if exists a :: a in attackers && a !in ribs then Err(KeyError)
    else
      Ok(map k | k in seeds.Keys + Leakers(attackers, ribs) ::
           if k in attackers then SeedsOf(seeds, k) + LeakedAll(c, ribs[k]) else seeds[k])
  }

  /** Wherever the written reseeding succeeds, the corrected one gives the
      same seeds. */
  lemma ReseedCorrectedAgrees(c: Constants, seeds: Seeds, attackers: set<nat>, ribs: map<nat, seq<Ann>>)
    requires RibsWellFormed(ribs) && Reseed(c, seeds, attackers, ribs).Ok?
    ensures ReseedCorrected(c, seeds, attackers, ribs) == Reseed(c, seeds, attackers, ribs)
  {
    assert !exists a :: a in attackers && Unseeded(seeds, ribs, a);
    var r := ReseedCorrected(c, seeds, attackers, ribs).value;
    var w := Reseed(c, seeds, attackers, ribs).value;
    assert Leakers(attackers, ribs) <= seeds.Keys by {
      forall a | a in Leakers(attackers, ribs)
        ensures a in seeds
      {
        assert !Unseeded(seeds, ribs, a);
      }
    }
    assert r.Keys == w.Keys;
    forall k | k in r
      ensures r[k] == w[k]
    {
      if k in attackers {
        assert SeedsOf(seeds, k) == seeds[k];
      }
    }
    assert r == w;
  }

  /** `post_propagation_hook` with the corrected reseeding: round 0
      reseeds the attackers through ReseedCorrected, where the written
      line 98 is Reseed and raises KeyError for an attacker without a seed
      list; round 1 and negative rounds leave the seeds alone, later rounds
      are not implemented. Resetting the engine afterwards is not
      modelled. */
  function PostPropagationHook(c: Constants, seeds: Seeds, attackers: set<nat>,
                               ribs: map<nat, seq<Ann>>, round: int): (r: Result<Seeds>)
    requires RibsWellFormed(ribs)
    ensures round > 1 ==> r == Err(NotImplementedError)
    ensures round == 1 || round < 0 ==> r == Ok(seeds)
    ensures round == 0 ==> r == ReseedCorrected(c, seeds, attackers, ribs)
  {
    if round == 0 then ReseedCorrected(c, seeds, attackers, ribs)
    else if round > 1 then Err(NotImplementedError)
    else Ok(seeds)
  }

  /** Seeded by the scenario itself, round 0 keeps each legitimate
      announcement first in its list and adds the attacker's leaks after
      it; an attacker that is not a legitimate origin seeds exactly its
      leaks. */
  lemma LeakKeepsLegitimateFirst(c: Constants, legit: set<nat>, attackers: set<nat>,
                                 ribs: map<nat, seq<Ann>>, a: nat)
    requires RibsWellFormed(ribs) && attackers <= ribs.Keys
    requires a in attackers
    ensures var r := PostPropagationHook(c, LeakSeeds(c, legit), attackers, ribs, 0);
            && r.Ok?
            && (a in legit ==> r.value[a][0] == Originated(c.prefix, a, c.legitTs) && |r.value[a]| == 1 + |ribs[a]|)
            && (a !in legit && |ribs[a]| > 0 ==> r.value[a] == LeakedAll(c, ribs[a]))
  {
    var seeds := LeakSeeds(c, legit);
    var r := ReseedCorrected(c, seeds, attackers, ribs).value;
    if a in legit {
      assert r[a][..1] == seeds[a];
    } else if |ribs[a]| > 0 {
      assert a in Leakers(attackers, ribs);
      assert SeedsOf(seeds, a) == [];
    }
  }

  /** As written, the ordinary leak fails: an attacker that is not a
      legitimate origin has no seed list, so appending its first leaked
      route raises KeyError, where the corrected hook seeds the leaks. */
  lemma LeakByOutsiderRaises(c: Constants, legit: set<nat>, attackers: set<nat>,
                             ribs: map<nat, seq<Ann>>, a: nat)
    requires RibsWellFormed(ribs) && attackers <= ribs.Keys
    requires a in attackers && a !in legit && |ribs[a]| > 0
    ensures Reseed(c, LeakSeeds(c, legit), attackers, ribs) == Err(KeyError)
    ensures ReseedCorrected(c, LeakSeeds(c, legit), attackers, ribs).Ok?
  {
    assert Unseeded(LeakSeeds(c, legit), ribs, a);
  }

  /** With the rounds the configuration resolves by default, the hook is
      called only for rounds 0 and 1 and never raises NotImplementedError;
      a third round always does. */
  lemma LeakRoundsHandled(c: Constants, seeds: Seeds, attackers: set<nat>, ribs: map<nat, seq<Ann>>, round: int)
    requires RibsWellFormed(ribs)
    ensures 0 <= round < LeakMinRounds ==> PostPropagationHook(c, seeds, attackers, ribs, round) != Err(NotImplementedError)
    ensures round == LeakMinRounds ==> PostPropagationHook(c, seeds, attackers, ribs, round) == Err(NotImplementedError)
  {
  }

  /* ---------------------------------------------------------------------
     As written, line 89 copies the seed dictionary shallowly: the lists
     are shared, so the appends also change the dictionary the scenario
     held before the hook.
     --------------------------------------------------------------------- */

  /** The new dictionary, and what the previous one holds afterwards. */
  datatype Reseeded = Reseeded(seeds: Seeds, previous: Seeds)

  function ReseedAsWritten(c: Constants, seeds: Seeds, attackers: set<nat>, ribs: map<nat, seq<Ann>>): (r: Result<Reseeded>)
    requires RibsWellFormed(ribs)
    ensures r.Ok? ==> r.value.previous == r.value.seeds
    ensures r.Ok? <==> Reseed(c, seeds, attackers, ribs).Ok?
    ensures r.Ok? ==> r.value.seeds == Reseed(c, seeds, attackers, ribs).value
  {
    var s :- Reseed(c, seeds, attackers, ribs);
    Ok(Reseeded(s, s))
  }

  /** As written, a leak changes the previous seed dictionary as well; the
      corrected hook leaves it as it was and only the new one gains the
      leaks. */
  lemma ShallowCopyChangesPrevious(c: Constants, seeds: Seeds, attackers: set<nat>,
                                   ribs: map<nat, seq<Ann>>, a: nat)
    requires RibsWellFormed(ribs) && Reseed(c, seeds, attackers, ribs).Ok?
    requires a in attackers && a in seeds && |ribs[a]| > 0
    ensures ReseedAsWritten(c, seeds, attackers, ribs).value.previous != seeds
    ensures Reseed(c, seeds, attackers, ribs).value[a] != seeds[a]
  {
    var r := Reseed(c, seeds, attackers, ribs).value;
    assert |r[a]| > |seeds[a]|;
  }
}
