/** Enumerations shared by the engine, the policies and the scenarios. */
module Enums {
  import opened Wrappers

  /** Business relationship over which an announcement was received.
      The numeric value is the announcement's local preference: higher wins. */
  datatype Relationship = PROVIDERS | PEERS | CUSTOMERS | ORIGIN | UNKNOWN

  /** The integer value of each member of the `Relationships` enum. */
  function Value(r: Relationship): nat {
    match r
    case PROVIDERS => 1
    case PEERS => 2
    case CUSTOMERS => 3
    case ORIGIN => 4
    case UNKNOWN => 5
  }

  /** `Relationships(n)`: the member with value `n`, or None when the enum has
      no such member (the original raises ValueError). */
  function FromValue(n: int): (r: Option<Relationship>)
    ensures r.Some? <==> 1 <= n <= 5
    ensures r.Some? ==> Value(r.value) == n
  {
    if n == 1 then Some(PROVIDERS)
    else if n == 2 then Some(PEERS)
    else if n == 3 then Some(CUSTOMERS)
    else if n == 4 then Some(ORIGIN)
    else if n == 5 then Some(UNKNOWN)
    else None
  }

  /** Relationships over which a neighbour can send an announcement. */
  predicate IsNeighborRel(r: Relationship) {
    r == PROVIDERS || r == PEERS || r == CUSTOMERS
  }

  /** The values are pairwise distinct, so `Value` is injective and
      `FromValue` inverts it. */
  lemma ValueInjective(a: Relationship, b: Relationship)
    ensures Value(a) == Value(b) <==> a == b
  {
  }

  lemma FromValueInvertsValue(r: Relationship)
    ensures FromValue(Value(r)) == Some(r)
  {
  }

  /** The priority order of the enum: PROVIDERS < PEERS < CUSTOMERS < ORIGIN <
      UNKNOWN, starting at 1. */
  lemma PriorityOrder()
    ensures Value(PROVIDERS) == 1
    ensures Value(PROVIDERS) < Value(PEERS) < Value(CUSTOMERS) < Value(ORIGIN) < Value(UNKNOWN)
  {
  }

  /** Every announcement a neighbour can send ranks strictly below a seeded
      (ORIGIN) one, but UNKNOWN ranks above ORIGIN. */
  lemma OriginOutranksNeighborRels(r: Relationship)
    ensures IsNeighborRel(r) ==> Value(r) < Value(ORIGIN)
    ensures Value(UNKNOWN) > Value(ORIGIN)
  {
  }

  /** Keys of the `Settings` enum that the policy code reads. */
  datatype Setting =
    | ASPA
    | ASPA_W_N
    | ASRA
    | AS_PATH_EDGE_FILTER
    | EDGE_FILTER
    | ENFORCE_FIRST_AS
    | ONLY_TO_CUSTOMERS
    | ROV
    | PEER_ROV
    | PATH_END
    | PEERLOCK_LITE
    | ROVPP_V1_LITE
    | ROVPP_V2_LITE
    | ROVPP_V2I_LITE
    | BGPSEC
    | BGP_I_SEC
    | BGP_I_SEC_TRANSITIVE
    | PROVIDER_CONE_ID
    | ORIGIN_PREFIX_HIJACK_CUSTOMERS
    | FIRST_ASN_STRIPPING_PREFIX_HIJACK_CUSTOMERS

  /** Every member of `Settings`, as a set. */
  const AllSettings: set<Setting> := {
    ASPA, ASPA_W_N, ASRA, AS_PATH_EDGE_FILTER, EDGE_FILTER, ENFORCE_FIRST_AS,
    ONLY_TO_CUSTOMERS, ROV, PEER_ROV, PATH_END, PEERLOCK_LITE, ROVPP_V1_LITE,
    ROVPP_V2_LITE, ROVPP_V2I_LITE, BGPSEC, BGP_I_SEC, BGP_I_SEC_TRANSITIVE,
    PROVIDER_CONE_ID, ORIGIN_PREFIX_HIJACK_CUSTOMERS,
    FIRST_ASN_STRIPPING_PREFIX_HIJACK_CUSTOMERS
  }

  lemma AllSettingsComplete(s: Setting)
    ensures s in AllSettings
  {
  }

  /** A settings dictionary: `settings.get(s, False)`. */
  type Settings = map<Setting, bool>

  predicate Enabled(settings: Settings, s: Setting) {
    s in settings && settings[s]
  }

  /** Outcome of route-origin validation for a (prefix, origin) pair. */
  datatype Validity = VALID | UNKNOWN_VALIDITY | INVALID

  /** `ROAValidity.is_invalid`. */
  predicate IsInvalid(v: Validity) {
    v == INVALID
  }

  /** Data-plane outcome of a packet sent from an AS. */
  datatype Outcome = ATTACKER_SUCCESS | VICTIM_SUCCESS | DISCONNECTED | DATA_PLANE_LOOP | UNDETERMINED

  /** ASN groups from which attackers, origins and adopters are drawn. */
  datatype AsnGroup = STUBS | MULTIHOMED | STUBS_OR_MH | ALL_WOUT_IXPS | ETC | TIER_1 | INPUT_CLIQUE | IXPS
}
