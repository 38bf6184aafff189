/** BGP announcements: an immutable record with copy-with-overrides
    semantics, and its JSON form. */
module Announcements {
  import opened Wrappers
  import opened Enums
  import opened Prefixes

  /** An announcement. Absent optional attributes are `None`; `bgpsec_as_path`
      defaults to the empty path. */
  datatype Ann = Ann(
    prefix: Prefix,
    asPath: seq<nat>,
    nextHop: nat,
    recv: Relationship,
    timestamp: int,
    bgpsecNextAsn: Option<nat>,
    bgpsecPath: seq<nat>,
    otc: Option<nat>,
    blackhole: bool)

  /** The Python `or` on an optional integer: `None` and `0` are both falsy. */
  predicate Truthy(x: Option<nat>) {
    x.Some? && x.value != 0
  }

  /** What the constructor guarantees about `next_hop_asn`: a zero next hop
      can only come from an AS path that ends in 0. */
  predicate WellFormed(a: Ann) {
    a.nextHop == 0 ==> |a.asPath| > 0 && a.asPath[|a.asPath| - 1] == 0
  }

  /** `Announcement(...)`: `next_hop_asn` defaults to the last ASN of the path
      (failing on an empty path) and `bgpsec_as_path` to the empty path. */
  function New(
    prefix: Prefix, asPath: seq<nat>, nextHop: Option<nat>, recv: Relationship,
    timestamp: int, bgpsecNextAsn: Option<nat>, bgpsecPath: Option<seq<nat>>,
    otc: Option<nat>, blackhole: bool): (r: Result<Ann>)
    ensures r.Ok? <==> Truthy(nextHop) || |asPath| > 0
    ensures r.Err? ==> r.error == IndexError
    ensures r.Ok? ==> WellFormed(r.value)
    ensures r.Ok? ==> r.value.nextHop == (if Truthy(nextHop) then nextHop.value else asPath[|asPath| - 1])
    ensures r.Ok? ==> r.value.prefix == prefix && r.value.asPath == asPath && r.value.recv == recv
                      && r.value.timestamp == timestamp && r.value.bgpsecNextAsn == bgpsecNextAsn
                      && r.value.otc == otc && r.value.blackhole == blackhole
    ensures r.Ok? ==> r.value.bgpsecPath == (if bgpsecPath.Some? then bgpsecPath.value else [])
  {
    if !Truthy(nextHop) && |asPath| == 0 then Err(IndexError)
    else
      var hop := if Truthy(nextHop) then nextHop.value else asPath[|asPath| - 1];
      var bpath := if bgpsecPath.Some? then bgpsecPath.value else [];
      Ok(Ann(prefix, asPath, hop, recv, timestamp, bgpsecNextAsn, bpath, otc, blackhole))
  }

  /** `Announcement(prefix, as_path)`: the constructor with every optional
      argument left at its default. */
  function NewDefaults(prefix: Prefix, asPath: seq<nat>): (r: Result<Ann>)
    ensures r.Ok? <==> |asPath| > 0
    ensures r.Err? ==> r.error == IndexError
    ensures r.Ok? ==> r.value.prefix == prefix && r.value.asPath == asPath
    ensures r.Ok? ==> r.value.recv == ORIGIN && r.value.timestamp == 0 && r.value.bgpsecPath == []
                      && !r.value.blackhole && r.value.otc == None && r.value.bgpsecNextAsn == None
    ensures r.Ok? ==> r.value.nextHop == asPath[|asPath| - 1]
  {
    New(prefix, asPath, None, ORIGIN, 0, None, None, None, false)
  }

  /** A route built with the defaults is sent towards its own origin. */
  lemma DefaultsRouteToOrigin(prefix: Prefix, asPath: seq<nat>)
    requires NewDefaults(prefix, asPath).Ok?
    ensures Origin(NewDefaults(prefix, asPath).value) == Ok(NewDefaults(prefix, asPath).value.nextHop)
  {
  }

  /** The arguments of `copy`: `None` keeps the original attribute. */
  datatype Overrides = Overrides(
    prefix: Option<Prefix>,
    asPath: Option<seq<nat>>,
    nextHop: Option<nat>,
    recv: Option<Relationship>,
    timestamp: Option<int>,
    bgpsecNextAsn: Option<nat>,
    bgpsecPath: Option<seq<nat>>,
    otc: Option<nat>,
    blackhole: Option<bool>)

  const NoOverrides: Overrides := Overrides(None, None, None, None, None, None, None, None, None)

  function Pick<T>(o: Option<T>, keep: T): T {
    if o.Some? then o.value else keep
  }

  /** The same for an attribute that may itself be `None`. */
  function PickOpt<T>(o: Option<T>, keep: Option<T>): Option<T> {
    if o.Some? then o else keep
  }

  /** `ann.copy(...)`: every supplied attribute replaces the original, the
      rest are kept; the result goes through the constructor again. */
  function Copy(a: Ann, o: Overrides): (r: Result<Ann>)
    ensures r.Ok? <==> Pick(o.nextHop, a.nextHop) != 0 || |Pick(o.asPath, a.asPath)| > 0
    ensures r.Ok? ==> r.value.prefix == Pick(o.prefix, a.prefix)
    ensures r.Ok? ==> r.value.asPath == Pick(o.asPath, a.asPath)
    ensures r.Ok? ==> r.value.recv == Pick(o.recv, a.recv)
    ensures r.Ok? ==> r.value.timestamp == Pick(o.timestamp, a.timestamp)
    ensures r.Ok? ==> r.value.bgpsecNextAsn == PickOpt(o.bgpsecNextAsn, a.bgpsecNextAsn)
    ensures r.Ok? ==> r.value.bgpsecPath == Pick(o.bgpsecPath, a.bgpsecPath)
    ensures r.Ok? ==> r.value.otc == PickOpt(o.otc, a.otc)
    ensures r.Ok? ==> r.value.blackhole == Pick(o.blackhole, a.blackhole)
    ensures r.Ok? && Pick(o.nextHop, a.nextHop) != 0 ==> r.value.nextHop == Pick(o.nextHop, a.nextHop)
    ensures r.Ok? && Pick(o.nextHop, a.nextHop) == 0 ==>
              r.value.nextHop == Pick(o.asPath, a.asPath)[|Pick(o.asPath, a.asPath)| - 1]
  {
    New(Pick(o.prefix, a.prefix), Pick(o.asPath, a.asPath), Some(Pick(o.nextHop, a.nextHop)),
        Pick(o.recv, a.recv), Pick(o.timestamp, a.timestamp),
        PickOpt(o.bgpsecNextAsn, a.bgpsecNextAsn), Some(Pick(o.bgpsecPath, a.bgpsecPath)),
        PickOpt(o.otc, a.otc), Pick(o.blackhole, a.blackhole))
  }

  /** `copy()` with no arguments reproduces every attribute. */
  lemma CopyNothing(a: Ann)
    requires WellFormed(a)
    ensures Copy(a, NoOverrides) == Ok(a)
  {
  }

  /** `copy` cannot clear an optional attribute: a set attribute stays set
      whatever is passed. */
  lemma CopyNeverClears(a: Ann, o: Overrides)
    requires Copy(a, o).Ok?
    ensures a.otc.Some? ==> Copy(a, o).value.otc.Some?
    ensures a.bgpsecNextAsn.Some? ==> Copy(a, o).value.bgpsecNextAsn.Some?
  {
  }

  /** A copy of a well-formed announcement succeeds when only the
      relationship, timestamp, next hop or security attributes change. */
  lemma CopyKeepingPathSucceeds(a: Ann, o: Overrides)
    requires WellFormed(a) && o.asPath.None?
    requires o.nextHop.Some? ==> o.nextHop.value != 0 || |a.asPath| > 0
    ensures Copy(a, o).Ok?
    ensures WellFormed(Copy(a, o).value)
  {
  }

  /** `origin`: the last ASN of the path; IndexError on an empty path. */
  function Origin(a: Ann): (r: Result<nat>)
    ensures r.Ok? <==> |a.asPath| > 0
    ensures r.Ok? ==> r.value == a.asPath[|a.asPath| - 1] && r.value in a.asPath
    ensures r.Err? ==> r.error == IndexError
  {
    if |a.asPath| == 0 then Err(IndexError) else Ok(a.asPath[|a.asPath| - 1])
  }

  /** The JSON object produced by `to_json`: the prefix as its string and the
      relationship as its integer value. */
  datatype AnnJson = AnnJson(
    prefix: PrefixText,
    asPath: seq<nat>,
    nextHop: nat,
    recv: int,
    timestamp: int,
    bgpsecNextAsn: Option<nat>,
    bgpsecPath: seq<nat>,
    otc: Option<nat>,
    blackhole: bool)

  function ToJson(a: Ann): (j: AnnJson)
    requires Valid(a.prefix)
    ensures j.recv == Value(a.recv)
    ensures Parse(j.prefix) == Ok(a.prefix)
  {
    ParseStr(a.prefix);
    AnnJson(Str(a.prefix), a.asPath, a.nextHop, Value(a.recv), a.timestamp,
            a.bgpsecNextAsn, a.bgpsecPath, a.otc, a.blackhole)
  }

  /** `from_json`: parse the prefix, look the relationship up by value and
      call the constructor. */
  function FromJson(j: AnnJson): (r: Result<Ann>)
    ensures Parse(j.prefix).Err? ==> r == Err(ValueError)
    ensures Parse(j.prefix).Ok? && FromValue(j.recv).None? ==> r == Err(ValueError)
    ensures r.Err? <==> Parse(j.prefix).Err? || FromValue(j.recv).None? || (j.nextHop == 0 && |j.asPath| == 0)
    ensures Parse(j.prefix).Ok? && FromValue(j.recv).Some? && j.nextHop == 0 && |j.asPath| == 0 ==>
              r == Err(IndexError)
    ensures r.Ok? ==> r.value.recv == FromValue(j.recv).value && r.value.prefix == Parse(j.prefix).value
    ensures r.Ok? ==> r.value.nextHop == (if j.nextHop != 0 then j.nextHop else j.asPath[|j.asPath| - 1])
    ensures r.Ok? ==> r.value.asPath == j.asPath && r.value.timestamp == j.timestamp
                      && r.value.bgpsecNextAsn == j.bgpsecNextAsn && r.value.bgpsecPath == j.bgpsecPath
                      && r.value.otc == j.otc && r.value.blackhole == j.blackhole
  {
    var prefix :- Parse(j.prefix);
    var recv := FromValue(j.recv);
    if recv.None? then Err(ValueError)
    else
      New(prefix, j.asPath, Some(j.nextHop), recv.value, j.timestamp,
          j.bgpsecNextAsn, Some(j.bgpsecPath), j.otc, j.blackhole)
  }

  /** `from_json(to_json(a))` gives back `a`. */
  lemma JsonRoundTrip(a: Ann)
    requires Valid(a.prefix) && WellFormed(a)
    ensures FromJson(ToJson(a)) == Ok(a)
  {
    FromValueInvertsValue(a.recv);
  }
}
