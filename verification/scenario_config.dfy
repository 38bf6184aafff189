/** `ScenarioConfig`: the settings reused across trials to set up one
    scenario. Construction fills in defaults and resolves the number of
    propagation rounds, failing when it is below what the scenario class
    needs. */
module ScenarioConfigs {
  import opened Wrappers
  import opened Enums

  /** What the configuration reads from the scenario class: its
      `min_propagation_rounds`, and whether it is a subclass of
      `ShortestPathPrefixHijack`. */
  datatype ScenarioClass = ScenarioClass(minRounds: int, shortestPath: bool)

  /** The constructor's arguments; `None` is the Python `None`. The label,
      the policy class and the override announcements, ROAs and destination
      are stored unchanged and are not represented. */
  datatype ConfigArgs = ConfigArgs(
    rounds: Option<int>,
    attackerSettings: Option<Settings>,
    legitSettings: Option<Settings>,
    overrideAdoption: Option<map<nat, Settings>>,
    overrideBase: Option<map<nat, Settings>>,
    defaultAdoption: Option<Settings>,
    defaultBase: Option<Settings>,
    numAttackers: int,
    numLegit: int,
    attackerGroup: AsnGroup,
    legitGroup: AsnGroup,
    adoptionGroups: Option<seq<AsnGroup>>,
    overrideAttackers: Option<set<nat>>,
    overrideLegit: Option<set<nat>>,
    overrideAdopting: Option<set<nat>>)

  /** The resolved configuration. */
  datatype Config = Config(
    rounds: int,
    attackerSettings: Settings,
    legitSettings: Settings,
    overrideAdoption: map<nat, Settings>,
    overrideBase: map<nat, Settings>,
    defaultAdoption: Settings,
    defaultBase: Settings,
    numAttackers: int,
    numLegit: int,
    attackerGroup: AsnGroup,
    legitGroup: AsnGroup,
    adoptionGroups: seq<AsnGroup>,
    overrideAttackers: Option<set<nat>>,
    overrideLegit: Option<set<nat>>,
    overrideAdopting: Option<set<nat>>)

  /** A call that passes only the required arguments. */
  function Defaults(): ConfigArgs {
    ConfigArgs(None, None, None, None, None, None, None, 1, 1, STUBS_OR_MH, STUBS_OR_MH,
               None, None, None, None)
  }

  /** `x or dict()`: `None` and the empty dictionary both become empty. */
  function OrEmpty<K, V>(x: Option<map<K, V>>): (m: map<K, V>)
    ensures x.Some? ==> m == x.value
    ensures x.None? ==> m == map[]
  {
    if x.Some? then x.value else map[]
  }

  /** Every setting switched off. */
  function AllOff(): (s: Settings)
    ensures s.Keys == AllSettings
    ensures forall k :: k in s ==> !s[k]
  {
    map k | k in AllSettings :: false
  }

  /** `default_base_settings or {x: False for x in Settings}`. */
  function BaseOrAllOff(x: Option<Settings>): (s: Settings)
    ensures x.Some? && |x.value| > 0 ==> s == x.value
    ensures x.None? || |x.value| == 0 ==> s == AllOff()
  {
    if x.Some? && |x.value| > 0 then x.value else AllOff()
  }

  const DefaultAdoptionGroups: seq<AsnGroup> := [STUBS_OR_MH, ETC, TIER_1]

  /** `adoption_asn_groups or [...]`: `None` and the empty list both become
      the default groups. */
  function GroupsOrDefault(x: Option<seq<AsnGroup>>): (g: seq<AsnGroup>)
    ensures |g| > 0
    ensures x.Some? && |x.value| > 0 ==> g == x.value
  {
    if x.Some? && |x.value| > 0 then x.value else DefaultAdoptionGroups
  }

  /** A flat settings dictionary turns a BGP-iSec setting on. */
  predicate FlatISec(d: Settings) {
    Enabled(d, BGP_I_SEC) || Enabled(d, BGP_I_SEC_TRANSITIVE)
  }

  /** A per-AS override dictionary turns a BGP-iSec setting on for some AS. */
  predicate OverrideISec(m: map<nat, Settings>) {
    exists asn :: asn in m && FlatISec(m[asn])
  }

  /** The dictionaries as stored, in the order line 102 lists them. */
  function Flat(args: ConfigArgs): seq<Settings> {
    [OrEmpty(args.attackerSettings), OrEmpty(args.legitSettings),
     OrEmpty(args.defaultAdoption), BaseOrAllOff(args.defaultBase)]
  }

  /** Some dictionary of the configuration turns a BGP-iSec setting on:
      a flat one directly, or a per-AS override for some AS. */
  predicate ISecRequested(args: ConfigArgs) {
    || (exists i :: 0 <= i < |Flat(args)| && FlatISec(Flat(args)[i]))
    || OverrideISec(OrEmpty(args.overrideAdoption))
    || OverrideISec(OrEmpty(args.overrideBase))
  }

  /** The round count before the minimum is checked: an explicit count is
      kept whatever it is; otherwise a BGP-iSec configuration gets 2 rounds
      for a shortest-path hijack and the class minimum for anything else,
      and every other configuration gets the class minimum. */
  function ResolvedRounds(cls: ScenarioClass, rounds: Option<int>, iSec: bool): (n: int)
    ensures rounds.Some? ==> n == rounds.value
    ensures rounds.None? && iSec && cls.shortestPath ==> n == 2
    ensures rounds.None? && !(iSec && cls.shortestPath) ==> n == cls.minRounds
  {
    if rounds.Some? then rounds.value
    else if iSec && cls.shortestPath then 2
    else cls.minRounds
  }

  /** The constructor, given whether the BGP-iSec test fired. */
  function Resolve(cls: ScenarioClass, args: ConfigArgs, iSec: bool): (r: Result<Config>)
    ensures r.Err? <==> cls.minRounds > ResolvedRounds(cls, args.rounds, iSec)
    ensures r.Err? ==> r.error == ValueError
    ensures r.Ok? ==> r.value.rounds == ResolvedRounds(cls, args.rounds, iSec) >= cls.minRounds
    ensures r.Ok? ==> r.value.defaultBase == BaseOrAllOff(args.defaultBase)
    ensures r.Ok? ==> r.value.adoptionGroups == GroupsOrDefault(args.adoptionGroups)
    ensures r.Ok? ==> r.value.numAttackers == args.numAttackers && r.value.numLegit == args.numLegit
  {
    var n := ResolvedRounds(cls, args.rounds, iSec);
    if cls.minRounds > n then Err(ValueError)
    else
      Ok(Config(n, OrEmpty(args.attackerSettings), OrEmpty(args.legitSettings),
                OrEmpty(args.overrideAdoption), OrEmpty(args.overrideBase),
                OrEmpty(args.defaultAdoption), BaseOrAllOff(args.defaultBase),
                args.numAttackers, args.numLegit, args.attackerGroup, args.legitGroup,
                GroupsOrDefault(args.adoptionGroups),
                args.overrideAttackers, args.overrideLegit, args.overrideAdopting))
  }

  /** `ScenarioConfig(...)`, with every dictionary searched for BGP-iSec. */
  function Make(cls: ScenarioClass, args: ConfigArgs): Result<Config> {
    Resolve(cls, args, ISecRequested(args))
  }

  /** An explicit round count is kept, and is rejected exactly when it is
      below the class minimum. */
  lemma ExplicitRoundsKept(cls: ScenarioClass, args: ConfigArgs, n: int)
    requires args.rounds == Some(n)
    ensures Make(cls, args).Err? <==> n < cls.minRounds
    ensures Make(cls, args).Ok? ==> Make(cls, args).value.rounds == n
  {
  }

  /** Without an explicit count the configuration never fails unless it is a
      BGP-iSec shortest-path hijack whose class needs more than 2 rounds. */
  lemma ImplicitRounds(cls: ScenarioClass, args: ConfigArgs)
    requires args.rounds.None?
    ensures Make(cls, args).Err? <==> ISecRequested(args) && cls.shortestPath && cls.minRounds > 2
    ensures Make(cls, args).Ok? ==>
              Make(cls, args).value.rounds == (if ISecRequested(args) && cls.shortestPath then 2 else cls.minRounds)
  {
  }

  /** Only the required arguments: one attacker, one legitimate origin, both
      drawn from stubs and multihomed ASes, adoption over the three default
      groups, every base setting off and the class minimum of rounds. */
  lemma DefaultConfig(cls: ScenarioClass)
    ensures Make(cls, Defaults()).Ok?
    ensures var c := Make(cls, Defaults()).value;
            && c.rounds == cls.minRounds
            && c.numAttackers == 1 && c.numLegit == 1
            && c.attackerGroup == STUBS_OR_MH && c.legitGroup == STUBS_OR_MH
            && c.adoptionGroups == [STUBS_OR_MH, ETC, TIER_1]
            && c.defaultBase.Keys == AllSettings && (forall s :: s in c.defaultBase ==> !c.defaultBase[s])
            && c.attackerSettings == map[] && c.overrideAdoption == map[]
  {
    var d := Defaults();
    assert !FlatISec(AllOff());
    assert forall i :: 0 <= i < |Flat(d)| ==> !FlatISec(Flat(d)[i]);
  }

  /* ---------------------------------------------------------------------
     As written, line 102 calls `.get(setting)` on all six dictionaries, but
     the two override dictionaries are keyed by ASN, so a BGP-iSec setting
     given only per AS is never seen.
     --------------------------------------------------------------------- */

  /** The test of line 102 as written: the override dictionaries contribute
      nothing. */
  predicate ISecRequestedAsWritten(args: ConfigArgs) {
    exists i :: 0 <= i < |Flat(args)| && FlatISec(Flat(args)[i])
  }

  function MakeAsWritten(cls: ScenarioClass, args: ConfigArgs): Result<Config> {
    Resolve(cls, args, ISecRequestedAsWritten(args))
  }

  /** The written test fires only when the intended one does. */
  lemma AsWrittenISecWeaker(args: ConfigArgs)
    ensures ISecRequestedAsWritten(args) ==> ISecRequested(args)
  {
  }

  /** A shortest-path hijack class with a minimum of one round, BGP-iSec
      switched on only for AS 5 through `override_adoption_settings`: as
      written the configuration gets 1 round, the intended test gives 2. */
  lemma OverrideISecMissed()
    ensures var cls := ScenarioClass(1, true);
            var args := Defaults().(overrideAdoption := Some(map[5 := map[BGP_I_SEC := true]]));
            && MakeAsWritten(cls, args).Ok? && MakeAsWritten(cls, args).value.rounds == 1
            && Make(cls, args).Ok? && Make(cls, args).value.rounds == 2
  {
    var args := Defaults().(overrideAdoption := Some(map[5 := map[BGP_I_SEC := true]]));
    assert !FlatISec(AllOff());
    assert forall i :: 0 <= i < |Flat(args)| ==> !FlatISec(Flat(args)[i]);
    assert FlatISec(OrEmpty(args.overrideAdoption)[5]);
  }
}
