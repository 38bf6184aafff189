# A Dafny model of the BGP simulator's core

`bgpsimulator` simulates BGP route propagation over an AS-level Internet
topology. Announcements are seeded at attacker and victim ASes and
propagated in rank order. Each AS keeps one best route per prefix, chosen by
its routing policy (plain BGP, ROV, ASPA, Path-End, Only-To-Customers, ...).
After propagation, a data-plane pass traces where a packet for a
destination address ends up.

This project models that core in Dafny and proves properties of the model:

- **Prefixes** (`prefix.dfy`, `ip_addr.dfy`, `bits.dfy`): every prefix is
  stored in IPv6 space, with IPv4 networks mapped into `::ffff:0:0/96`. The
  model covers parsing and printing, ordering, containment and the
  address-count arithmetic. A prefix is an immutable Dafny value, so the
  `__setattr__` and `__delattr__` guards that make the Python object
  read-only need no model of their own.
- **Announcements** (`announcement.dfy`): construction, copying with
  overrides, the origin, and the JSON round trip.
- **Adj-RIBs-In** (`ribs_in.dfy`): the per-neighbour, per-prefix store.
- **AS records** (`topology.dfy`, `legacy_as.dfy`): the newer set-based AS
  and the older list-based AS, with their stub, multihomed and transit
  classification.
- **Route filters** (`filters.dfy`, `aspa.dfy`): BGP loop prevention, ROV,
  peer-ROV, Enforce-First-AS, Only-To-Customers (RFC 9234), Path-End, the
  AS-path edge filter, PeerLock-lite and ASPA's upstream and downstream
  verification.
- **Policy** (`selection.dfy`, `policy.dfy`, `routing_policy.dfy`,
  `propagate_hooks.dfy`): Gao-Rexford best-route selection, the incoming
  queue fold, valley-free export, the most-specific-route lookup and its
  cache (`lookup_cache.dfy`), and the older `RoutingPolicy` stack next to the
  newer `Policy`.
- **Graph set-up** (`graph_cycles.dfy`, `graph_cones.dfy`,
  `graph_ranks.dfy`, `graph_buckets.dfy`, `graph_setup.dfy`): the cycle
  check, provider cones, propagation ranks and rank buckets that
  `add_extra_setup` writes into the AS-graph JSON.
- **CAIDA converter** (`caida.dfy`, `text.dfy`): the line-level half of the
  CAIDA serial-2 converter, together with the string operations it relies on.
- **Data plane** (`data_plane.dfy`): the packet propagator.
- **Scenarios** (`scenario_config.dfy`, `scenarios.dfy`): scenario
  configuration, the subprefix hijack and the accidental route leak.

Python exceptions are values of a `Result` type whose error names the
Python exception class (`IndexError`, `KeyError`, `ValueError`,
`NameError`, `AttributeError`, `AssertionError`, `CycleError`, ...). Python
dictionaries are Dafny `map`s. Where iteration order matters, an explicit
`seq` of keys stands in for insertion order.

## Model

Source paths are relative to the repository root.

| member | source | states |
|---|---|---|
| Enums.FromValue | bgpsimulator/shared/enums.py:4-16 | `Relationships(n)` succeeds exactly for 1..5, and the member it returns has value `n` |
| Enums.ValueInjective | bgpsimulator/shared/enums.py:4-16 | two relationships have the same value only if they are the same member |
| Enums.FromValueInvertsValue | bgpsimulator/shared/enums.py:4-16 | looking a relationship up by its value gives it back |
| Enums.PriorityOrder | bgpsimulator/shared/enums.py:4-16 | PROVIDERS is 1, and the values rise strictly through PEERS, CUSTOMERS, ORIGIN and UNKNOWN, which is the local-preference order |
| Enums.OriginOutranksNeighborRels | bgpsimulator/shared/enums.py:8-16 | every neighbour relationship ranks below ORIGIN, and UNKNOWN ranks above it |
| Prefixes.MapV4Inverse | bgpsimulator/shared/prefix.py:26-31 | mapping an IPv4 address adds the `::ffff:0:0` base, and masking the result with `0xffffffff` recovers the address |
| Prefixes.Parse | bgpsimulator/shared/prefix.py:35-56 | parsing succeeds iff the address and length fit their family; otherwise it raises ValueError; a parsed prefix is a valid network of the written family and length |
| Prefixes.ParseV4 | bgpsimulator/shared/prefix.py:41-49 | an IPv4 prefix has its host bits cleared in IPv4 space, is mapped, and gets length 96 plus the written length |
| Prefixes.MappedValid | bgpsimulator/shared/prefix.py:41-49 | a mapped, aligned IPv4 network is a valid IPv6 network |
| Prefixes.ParseV6 | bgpsimulator/shared/prefix.py:52-54 | an IPv6 prefix has its host bits cleared and keeps its length |
| Prefixes.Str | bgpsimulator/shared/prefix.py:157-167 | the printed form uses the family the prefix was parsed from |
| Prefixes.ParseStr | bgpsimulator/shared/prefix.py:157-167 | parsing the printed form of any valid prefix gives the same prefix back |
| Prefixes.ParseCoversAddress | bgpsimulator/shared/prefix.py:42-53 | the parsed network contains the address that was written |
| Prefixes.Version | bgpsimulator/shared/prefix.py:219-222 | the version is 4 or 6, and it is 4 exactly for a prefix written in IPv4 form |
| Prefixes.ParseVersion | bgpsimulator/shared/prefix.py:219-222 | a parsed prefix reports version 4 iff its text was IPv4 |
| Prefixes.Version4IsMapped | bgpsimulator/shared/prefix.py:219-222 | a version-4 prefix lies inside `::ffff:0:0/96` |
| Prefixes.NumAddressesFamilyIndependent | bgpsimulator/shared/prefix.py:231-237 | the address count is 2^(128 - stored length) in both families; it is at most 2^32 for IPv4; it is 1 exactly for a full-length network |
| Prefixes.EqIgnoresFamily | bgpsimulator/shared/prefix.py:174-178 | `1.2.3.0/24` and `::ffff:102:300/120` are equal although their versions and `prefixlen` differ |
| Prefixes.LessIsStrictTotalOrder | bgpsimulator/shared/prefix.py:194-198 | `<` is irreflexive, asymmetric, transitive and total up to equality, and equal prefixes compare alike |
| Prefixes.SubnetOfIsInclusion | bgpsimulator/shared/prefix.py:239-243 | `subnet_of` holds exactly when every address of the first network is in the second |
| Prefixes.ContainsIsPreorder | bgpsimulator/shared/prefix.py:257-266 | containment is reflexive and transitive, and it coincides with `supernet_of` |
| Prefixes.ContainsLonger | bgpsimulator/shared/prefix.py:257-266 | a network contains only networks at least as long as itself |
| IpAddrs.IpAddr | bgpsimulator/shared/ip_addr.py:14-17 | an address is accepted iff it parses with `prefixlen` 32 or 128, and it then equals the parsed prefix; otherwise it raises InvalidIPAddressError |
| IpAddrs.IpAddrCorrected | bgpsimulator/shared/ip_addr.py:14-17 | an address is accepted iff it parses to exactly one address |
| IpAddrs.IpAddrExamples | bgpsimulator/shared/ip_addr.py:14-17 | `1.2.3.4/32` is accepted and is a single address, while `1.2.3.0/24` is rejected |
| IpAddrs.IpAddrAcceptsV6Slash32 | bgpsimulator/shared/ip_addr.py:16 | `2001:db8::/32` is accepted as written although it spans 2^96 addresses, and the corrected check rejects it |
| IpAddrs.IpAddrDiffersOnlyOnV6Slash32 | bgpsimulator/shared/ip_addr.py:16 | the written and the corrected checks disagree exactly on well-formed IPv6 `/32` text |
| Announcements.New | bgpsimulator/simulation_engine/announcement.py:24-62 | construction fails with IndexError exactly when there is neither a truthy next hop nor an AS path; otherwise it keeps every argument, defaults the BGPsec path to empty, and takes the next hop from the path's last AS when none is given |
| Announcements.NewDefaults | bgpsimulator/simulation_engine/announcement.py:24-45 | `Announcement(prefix, as_path)` fails with IndexError iff the path is empty; otherwise it is an ORIGIN route at time 0 that keeps the prefix and path, has no OTC, BGPsec data or blackhole, and whose next hop is the path's last AS |
| Announcements.DefaultsRouteToOrigin | bgpsimulator/simulation_engine/announcement.py:24-45 | such a route's next hop is its origin, as `origin` reports it |
| Announcements.Copy | bgpsimulator/simulation_engine/announcement.py:64-100 | every field of the copy other than the next hop is the override when one is given and the original otherwise; the next hop is the override or the original when that is truthy, and otherwise the last AS of the resulting path; the copy fails only when that fallback is needed and the path is empty |
| Announcements.CopyNothing | bgpsimulator/simulation_engine/announcement.py:64-100 | copying with no overrides gives an equal announcement |
| Announcements.CopyNeverClears | bgpsimulator/simulation_engine/announcement.py:64-100 | a copy never clears a set OTC or BGPsec next ASN, because `None` means "keep" |
| Announcements.CopyKeepingPathSucceeds | bgpsimulator/simulation_engine/announcement.py:64-100 | a copy that keeps the AS path of a well-formed announcement succeeds and is well-formed |
| Announcements.Origin | bgpsimulator/simulation_engine/announcement.py:105-109 | the origin is the last AS on the path; an empty path raises IndexError |
| Announcements.ToJson | bgpsimulator/simulation_engine/announcement.py:111-123 | the JSON holds the relationship's value and prefix text that parses back to the prefix |
| Announcements.FromJson | bgpsimulator/simulation_engine/announcement.py:125-137 | decoding fails iff the prefix text is bad or the relationship value unknown (both ValueError), or the next hop is 0 with an empty path (IndexError); otherwise the prefix is the parsed one, the relationship is the one with that value, the next hop is the given one unless it is 0 and then the path's last AS, and every other field is taken over unchanged |
| Announcements.JsonRoundTrip | bgpsimulator/simulation_engine/announcement.py:111-137 | decoding the JSON of a well-formed announcement gives it back |
| RibsIn.Get | bgpsimulator/simulation_engine/policy/ribs_in.py:48-53 | the entry is returned iff the neighbour has one for that prefix |
| RibsIn.Add | bgpsimulator/simulation_engine/policy/ribs_in.py:55-73 | adding succeeds exactly when the path is non-empty (IndexError otherwise) and keeps the store well-formed |
| RibsIn.AddThenGet | bgpsimulator/simulation_engine/policy/ribs_in.py:55-73 | after an add, the first AS's entry for the prefix is the new one, and every other entry is unchanged |
| RibsIn.Remove | bgpsimulator/simulation_engine/policy/ribs_in.py:85-95 | removal keeps the store well-formed and keeps its neighbours and their order |
| RibsIn.RemoveThenGet | bgpsimulator/simulation_engine/policy/ribs_in.py:85-95 | after a removal the entry is gone and every other entry is unchanged; removing a missing entry changes nothing |
| RibsIn.GetAnnInfos | bgpsimulator/simulation_engine/policy/ribs_in.py:75-83 | the result lists, in neighbour order, the entry of each neighbour holding the prefix |
| RibsIn.CollectMatchesHolders | bgpsimulator/simulation_engine/policy/ribs_in.py:75-83 | the collected entries line up one-to-one with the neighbours holding the prefix |
| RibsIn.HoldersExact | bgpsimulator/simulation_engine/policy/ribs_in.py:75-83 | the holders are exactly the listed neighbours with an entry for the prefix, each once |
| RibsIn.GetAnnInfosOnePerNeighbor | bgpsimulator/simulation_engine/policy/ribs_in.py:75-83 | there is one entry per holding neighbour, and every holding neighbour's entry is present |
| Topology.ClassificationPartition | bgpsimulator/as_graphs/as_graph/base_as.py:94-126 | on disjoint relation sets, stub, multihomed and transit exclude each other, and together they cover exactly the ASes with a neighbour |
| Topology.OverlapBreaksExclusivity | bgpsimulator/as_graphs/as_graph/base_as.py:94-126 | an AS listing the same ASN as peer and provider is both stub and multihomed |
| Topology.SetRelations | bgpsimulator/as_graphs/as_graph/base_as.py:58-65 | looking neighbours up through the graph's `as_dict`, as `ASGraph.__getitem__` evidently means: with no graph it raises ValueError; otherwise it succeeds iff every neighbour ASN is in the graph, and it raises KeyError if one is not |
| Topology.SetRelationsResolvesListedAsns | bgpsimulator/as_graphs/as_graph/base_as.py:58-65 | the resolved peer, provider and customer objects carry exactly the listed ASNs |
| Topology.SetRelationsAsWritten | bgpsimulator/as_graphs/as_graph/base_as.py:58-65 | as written, with a non-empty graph it raises AttributeError iff the AS has a neighbour, and whenever it succeeds it agrees with the corrected resolution |
| Topology.SetRelationsAsWrittenRaises | bgpsimulator/as_graphs/as_graph.py:48-49 | an AS whose neighbours are all in the graph, which the corrected resolution handles, raises AttributeError as written |
| Topology.GetNeighbor | bgpsimulator/as_graphs/as_graph/base_as.py:67-77 | each neighbour relationship returns its own set, and any other relationship raises ValueError |
| Topology.OrderAndHashByAsn | bgpsimulator/as_graphs/as_graph/base_as.py:79-92 | hash and ordering depend on the ASN alone, and the ordering is irreflexive and total on distinct ASNs |
| LegacyAs.NeighborAsns | bgpsimulator/as_graphs/base_as.py:97-107 | the neighbour ASNs are exactly the union of the customer, peer and provider lists |
| LegacyAs.OrderAndHashByAsn | bgpsimulator/as_graphs/base_as.py:55-68 | hash and ordering depend on the ASN alone |
| LegacyAs.AgreesWithSetRecord | bgpsimulator/as_graphs/base_as.py:70-89 | without duplicates or overlaps, the list-length classification agrees with the set-based one |
| LegacyAs.DuplicateNeighborDiverges | bgpsimulator/as_graphs/base_as.py:70-89 | a peer listed twice makes the legacy AS multihomed and not a stub, while the set-based AS is a stub and not multihomed |
| Filters.Bgp | bgpsimulator/simulation_engine/policy/custom_policies/bgp.py:10-14 | a route passes iff neither the AS's own ASN nor AS 0 is on its path |
| Filters.Rov | bgpsimulator/simulation_engine/policy/custom_policies/rov.py:10-14 | a route passes iff its ROA validity is VALID or UNKNOWN |
| Filters.PeerRov | bgpsimulator/simulation_engine/policy/custom_policies/peer_rov.py:11-15 | routes from non-peers always pass, and routes from peers pass iff ROV passes them |
| Filters.PeerRovWeakerThanRov | bgpsimulator/simulation_engine/policy/custom_policies/peer_rov.py:11-15 | whatever ROV accepts, peer-ROV accepts; peer-ROV rejects exactly the ROA-invalid routes from peers |
| Filters.EnforceFirstAs | bgpsimulator/simulation_engine/routing_policy/custom_policies/enforce_first_as.py:9-21 | an accepted route's first AS is a neighbour of the receiving AS and is the route's next hop |
| Filters.OtcValid | bgpsimulator/simulation_engine/routing_policy/custom_policies/only_to_customers.py:9-22 | routes without OTC and routes from providers pass; OTC routes from customers fail; OTC routes from peers pass iff the OTC is the sending peer |
| Filters.PathEndVerdict | bgpsimulator/simulation_engine/routing_policy/custom_policies/path_end.py:12-33 | Path-End rejects every ROV-invalid route; it equals ROV for one-hop paths and non-adopting origins; otherwise it also requires the second-to-last AS to be a neighbour of the origin |
| Filters.EdgeFilterVerdict | bgpsimulator/simulation_engine/routing_policy/custom_policies/edge_filter.py:9-20 | routes from non-neighbours and transit neighbours pass; a stub or multihomed neighbour passes only when every hop is that neighbour |
| Filters.Tier1Scan | bgpsimulator/simulation_engine/policy/custom_policies/peerlock_lite.py:10-20 | when every path AS is in the graph the scan succeeds and reports whether some path AS is tier-1; a missing AS raises KeyError |
| Filters.PeerLockLite | bgpsimulator/simulation_engine/policy/custom_policies/peerlock_lite.py:10-20 | non-customer routes always pass; a customer route passes iff no AS on its path is tier-1 |
| Filters.PeerLockLiteAsWritten | bgpsimulator/simulation_engine/routing_policy/custom_policies/peerlock_lite.py:9-19 | the older filter fails on every non-empty customer route |
| Filters.PeerLockLiteAsWrittenRaises | bgpsimulator/simulation_engine/routing_policy/custom_policies/peerlock_lite.py:17 | reading `.tier` raises AttributeError where the newer filter gives a verdict |
| Filters.FromRelIrrelevant | bgpsimulator/simulation_engine/policy/custom_policies/bgp.py:10-14 | BGP, ROV, Enforce-First-AS, Path-End and the edge filter ignore the relationship the route came from |
| Aspa.ProviderCheckMeaning | bgpsimulator/simulation_engine/routing_policy/custom_policies/aspa.py:121-141 | the provider check fails exactly when `asn1` is an ASPA adopter in the graph and `asn2` is not one of its providers; ASes outside the graph never fail it |
| Aspa.ProviderCheckAsWritten | bgpsimulator/simulation_engine/routing_policy/custom_policies/aspa.py:136 | as written, the check succeeds (true) only for ASes outside the graph and raises NameError otherwise |
| Aspa.ProviderCheckAsWrittenRaises | bgpsimulator/simulation_engine/routing_policy/custom_policies/aspa.py:121-141 | where the intended check would report "not a provider", the written one raises NameError |
| Aspa.UpRampFrom | bgpsimulator/simulation_engine/routing_policy/custom_policies/aspa.py:63-80 | the up-ramp scan stops at the first hop that is not customer-to-provider |
| Aspa.DownRampFrom | bgpsimulator/simulation_engine/routing_policy/custom_policies/aspa.py:97-119 | the down-ramp scan stops at the first hop, going backwards, that is not provider-to-customer |
| Aspa.MaxUpRamp | bgpsimulator/simulation_engine/routing_policy/custom_policies/aspa.py:63-80 | the up-ramp is the longest run of customer-to-provider hops from the origin, at least 1 on a non-empty path |
| Aspa.MaxDownRamp | bgpsimulator/simulation_engine/routing_policy/custom_policies/aspa.py:97-119 | the down-ramp is the longest run of provider-to-customer hops from the receiver's end, at least 1 on a non-empty path |
| Aspa.UpstreamIffEveryHopUp | bgpsimulator/simulation_engine/routing_policy/custom_policies/aspa.py:44-60 | upstream verification accepts a path iff every hop goes from customer to provider |
| Aspa.DownstreamIffApex | bgpsimulator/simulation_engine/routing_policy/custom_policies/aspa.py:82-94 | downstream verification accepts a path iff it climbs, then descends, meeting at an apex |
| Aspa.UpstreamImpliesDownstream | bgpsimulator/simulation_engine/routing_policy/custom_policies/aspa.py:44-94 | every path upstream verification accepts, downstream verification accepts too |
| Aspa.AspaValid | bgpsimulator/simulation_engine/routing_policy/custom_policies/aspa.py:18-42 | an empty path raises IndexError; a bad next hop is rejected; otherwise provider routes get downstream verification, customer and peer routes get upstream verification, and other relationships raise NotImplementedError |
| Aspa.ProvidersJudgedMoreLeniently | bgpsimulator/simulation_engine/routing_policy/custom_policies/aspa.py:18-42 | a route accepted from a customer would be accepted from a provider, and peers are judged like customers |
| Aspa.UpRampAsWrittenFrom | bgpsimulator/simulation_engine/routing_policy/custom_policies/aspa.py:63-80 | as written, the up-ramp scan raises NameError iff it reaches a hop whose first AS is in the graph, and otherwise runs to the path's end |
| Aspa.DownRampAsWrittenFrom | bgpsimulator/simulation_engine/routing_policy/custom_policies/aspa.py:97-119 | as written, the down-ramp scan raises NameError iff it reaches a hop whose first AS is in the graph, and otherwise runs to the start |
| Aspa.AspaValidAsWritten | bgpsimulator/simulation_engine/routing_policy/custom_policies/aspa.py:18-141 | as written, ASPA raises NameError only on paths of two or more ASes with one in the graph; wherever it answers, it answers as the intended filter; with no path AS in the graph it equals the intended filter; a customer or peer route with a valid next hop and its second AS in the graph raises |
| Aspa.AllHopsUp | bgpsimulator/simulation_engine/routing_policy/custom_policies/aspa.py:44-94 | when no AS scanned is in the graph, the up-ramp spans the whole path and both verifications accept it |
| Selection.ByLocalPref | bgpsimulator/simulation_engine/policy/policy.py:268-274 | it decides iff the relationship values differ, and then it picks the route with the higher value |
| Selection.ByAsPath | bgpsimulator/simulation_engine/policy/policy.py:276-282 | it decides iff the path lengths differ, and then it picks the shorter path |
| Selection.ByNeighborAsn | bgpsimulator/simulation_engine/policy/policy.py:284-296 | it needs two hops on both paths (IndexError otherwise) and keeps the current route iff its neighbour ASN is not larger |
| Selection.Best | bgpsimulator/simulation_engine/policy/policy.py:238-266 | with no current route the candidate wins; the result is always one of the two routes |
| Selection.BetterIsStrictOrder | bgpsimulator/simulation_engine/policy/policy.py:238-296 | the Gao-Rexford preference is a strict partial order |
| Selection.BestIsLexicographic | bgpsimulator/simulation_engine/policy/policy.py:238-266 | the best route is the lexicographically better one under (local preference, shorter path, lower neighbour ASN) |
| Selection.BestFailsOnlyOnShortTies | bgpsimulator/simulation_engine/policy/policy.py:284-296 | selection fails exactly when preference and length tie and a path has fewer than two ASes |
| Selection.OriginNeverDisplaced | bgpsimulator/simulation_engine/policy/policy.py:268-274 | no route from a neighbour displaces an originated route |
| Selection.NoErrorOnSelectable | bgpsimulator/simulation_engine/policy/policy.py:238-266 | selection among routes learned from neighbours never fails and stays among such routes |
| Policies.InitSettings | bgpsimulator/simulation_engine/policy/policy.py:62-67 | a setting is on iff the given dictionary turns it on; without a dictionary every setting is present |
| Policies.Clear | bgpsimulator/simulation_engine/policy/policy.py:77-81 | the local RIB and the receive queue are empty afterwards |
| Policies.SeedAnn | bgpsimulator/simulation_engine/policy/policy.py:87-98 | seeding fails with AssertionError iff the prefix is already in the local RIB; otherwise it stores the route under its prefix and leaves every other prefix and the queue alone |
| Policies.SeedOncePerPrefix | bgpsimulator/simulation_engine/policy/policy.py:87-98 | a second seed for the same prefix fails, and seeding after `clear` always succeeds |
| Policies.ReceiveAnn | bgpsimulator/simulation_engine/policy/policy.py:100-103 | the route is appended to its prefix's queue, and every other queue and the local RIB are unchanged |
| Policies.ValidAnn | bgpsimulator/simulation_engine/policy/policy.py:171-226 | a route that BGP loop prevention rejects is invalid; the only errors are IndexError, NotImplementedError and KeyError |
| Policies.ValidAnnIsConjunction | bgpsimulator/simulation_engine/policy/policy.py:171-226 | when validation decides, it accepts iff every enabled filter accepts; it always decides for routes from neighbours whose path ASes are all in the graph |
| Policies.ValidAnnPlainBgp | bgpsimulator/simulation_engine/policy/policy.py:171-177 | with no settings, validation is BGP loop prevention alone |
| Policies.AspaSkippedUnderSupersets | bgpsimulator/simulation_engine/policy/policy.py:178-185 | when ASRA or ASPAwN is on, the ASPA setting has no effect |
| Policies.LaterFiltersIgnoreAspa | bgpsimulator/simulation_engine/policy/policy.py:186-226 | the filters after ASPA do not read the ASPA setting |
| Policies.ProcessAnn | bgpsimulator/simulation_engine/policy/policy.py:152-169 | the processed route has the own ASN prepended and the receiving relationship set; every other field is unchanged |
| Policies.NewBest | bgpsimulator/simulation_engine/policy/policy.py:141-150 | an invalid route leaves the best route as it was; a change of best route is always to the processed form of a valid route |
| Policies.FoldResultIsInput | bgpsimulator/simulation_engine/policy/policy.py:105-139 | the best route after a prefix's queue is the old one or the processed form of some valid queued route |
| Policies.FoldIgnoresInvalid | bgpsimulator/simulation_engine/policy/policy.py:105-150 | removing an invalid route from the queue does not change the outcome |
| Policies.FoldKeepsOrigin | bgpsimulator/simulation_engine/policy/policy.py:105-139 | an originated route survives any queue of neighbour routes |
| Policies.FoldFailsOnlyInFilters | bgpsimulator/simulation_engine/policy/policy.py:105-139 | when every queued route validates without error, processing the queue succeeds and keeps a selectable best route |
| Policies.FoldIsMaximal | bgpsimulator/simulation_engine/policy/policy.py:105-139 | no valid queued route, and not the previous best, is preferred over the resulting best route |
| Policies.ProcessIncoming | bgpsimulator/simulation_engine/policy/policy.py:105-139 | it succeeds iff every queued prefix's fold succeeds; the queue is emptied, untouched prefixes keep their routes, and each queued prefix gets its fold's result |
| Policies.SendRels | bgpsimulator/simulation_engine/policy/policy.py:298-319 | originated and customer routes are sent to every neighbour, and UNKNOWN routes to none |
| Policies.SendRelsAreValleyFree | bgpsimulator/simulation_engine/policy/policy.py:298-319 | a route is exported iff the export is valley-free; peer and provider routes go only to customers |
| Policies.SentCopy | bgpsimulator/simulation_engine/policy/policy.py:335-336 | the copy sent differs from the best route only in its next hop, which is the sender, or the path's last AS when the sender's ASN is 0 |
| Policies.SendToAll | bgpsimulator/simulation_engine/policy/policy.py:340-348 | each target neighbour receives the route, and every other neighbour is unchanged |
| Policies.PropagateTo | bgpsimulator/simulation_engine/policy/policy.py:321-348 | non-target neighbours are unchanged; each target's local RIB is unchanged, and each of its prefix queues grows by exactly the exportable routes for that prefix, each sent with the sender (or, for ASN 0, the path's last AS) as next hop |
| Policies.MostSpecificKey | bgpsimulator/simulation_engine/policy/policy.py:481-487 | no key is chosen iff no key covers the destination; a chosen key covers it, no covering key is longer by `prefixlen`, and every covering key before it is strictly shorter, so the stable descending sort keeps the first inserted of equal lengths |
| Policies.FirstLongestUnique | bgpsimulator/simulation_engine/policy/policy.py:481-487 | at most one position is the first of the longest covering keys |
| Policies.TieKeepsFirstInserted | bgpsimulator/simulation_engine/policy/policy.py:481-487 | of two covering keys of equal length, the later inserted is never chosen |
| Policies.MostSpecificPrefix | bgpsimulator/simulation_engine/policy/policy.py:481-487 | the chosen prefix is the RIB key object at the chosen position, or none when no key covers the destination |
| Policies.MostSpecific | bgpsimulator/simulation_engine/policy/policy.py:464-498 | the route returned is the RIB entry stored under the first longest covering key, and there is none iff no key covers the destination |
| Policies.CoveringNetworkUnique | bgpsimulator/simulation_engine/policy/policy.py:482-487 | two covering networks of the same family and length are the same network, so the lookup's choice is determined |
| Policies.MixedFamiliesRankByFamilyLength | bgpsimulator/simulation_engine/policy/policy.py:482-487 | ranking by family-relative length prefers an IPv6 /112 inserted second over an IPv4 /24 inserted first, although the /24 is the longer network in IPv6 space |
| LookupCache.Get | bgpsimulator/simulation_engine/policy/policy.py:476-479 | a lookup in a sound cache finds nothing or the answer the uncached lookup gives |
| LookupCache.Put | bgpsimulator/simulation_engine/policy/policy.py:490-493 | storing keeps the keys distinct, grows the cache only for a new key, and keeps it sound when the stored value is the uncached answer |
| LookupCache.CachedLookupAsWritten | bgpsimulator/simulation_engine/policy/policy.py:464-498 | as written, the cache keeps distinct keys and stays sound, and an answer from a sound cache is the uncached answer; the lookup raises TypeError iff the RIB has fewer than 10 keys and the cache has grown past 10 entries |
| LookupCache.AsWrittenOverflowRaises | bgpsimulator/simulation_engine/policy/policy.py:494-496 | the eleventh distinct key looked up from a small RIB, and every small-RIB lookup after it, raises TypeError and leaves more than 10 entries |
| LookupCache.CachedLookup | bgpsimulator/simulation_engine/policy/policy.py:464-498 | evicting the oldest entry, the lookup always answers, the answer from a sound cache is the uncached answer, the cache stays sound, and it never grows past 10 entries |
| LookupCache.AsWrittenAgreesWhenItAnswers | bgpsimulator/simulation_engine/policy/policy.py:464-498 | wherever the written lookup answers, its answer and cache equal the corrected lookup's |
| RoutingPolicies.OldLaterFilters | bgpsimulator/simulation_engine/routing_policy/routing_policy.py:152-171 | with ASPA and PeerLock-lite corrected, an accepted route passes every enabled later filter, including ROV, the edge filter and, when plain ASPA is on, ASPA |
| RoutingPolicies.OldLaterFiltersAsWritten | bgpsimulator/simulation_engine/routing_policy/routing_policy.py:152-171 | with the filters as written, wherever the chain answers it answers as the corrected chain; when plain ASPA is on and the written ASPA raises, the chain raises the same error; with ASPA and PeerLock-lite off it equals the corrected chain |
| RoutingPolicies.LoopedRouteRaisesAsWritten | bgpsimulator/simulation_engine/routing_policy/routing_policy.py:149-153 | a looped customer route of two or more ASes, with a valid next hop and its second AS in the graph, raises NameError in the written check under plain ASPA, while the corrected check rejects it |
| RoutingPolicies.OldValidAnnAsWritten | bgpsimulator/simulation_engine/routing_policy/routing_policy.py:144-171 | as written, every loop-free route is rejected, and only a looped path can be accepted |
| RoutingPolicies.OldValidAnn | bgpsimulator/simulation_engine/routing_policy/routing_policy.py:144-171 | with the missing `not` restored, a looped route is rejected, and every accepted path is loop-free |
| RoutingPolicies.AsWrittenAcceptsOnlyWhatIntendedRejects | bgpsimulator/simulation_engine/routing_policy/routing_policy.py:149 | whatever the written check accepts the intended check rejects, and the other way round |
| RoutingPolicies.OldValidAnnMatchesNew | bgpsimulator/simulation_engine/routing_policy/routing_policy.py:144-171 | on the settings both stacks read, the corrected old check equals the newer `Policy.valid_ann` |
| RoutingPolicies.OldNewBestAsWritten | bgpsimulator/simulation_engine/routing_policy/routing_policy.py:130-142 | as written, a loop-free route never replaces the best route |
| RoutingPolicies.OldFoldAsWrittenLearnsNothing | bgpsimulator/simulation_engine/routing_policy/routing_policy.py:104-142 | as written, a queue of loop-free routes leaves the best route unchanged |
| RoutingPolicies.OldPolicyPropagateError | bgpsimulator/simulation_engine/routing_policy/routing_policy.py:284-305 | the older hook always raises: NameError (`policy_propagate` undefined) unless Only-To-Customers is on, and then NameError toward peers and AttributeError otherwise |
| RoutingPolicies.OldPropagateAsWritten | bgpsimulator/simulation_engine/routing_policy/routing_policy.py:259-265 | every call raises AttributeError at the neighbour lookup, because the `AS` class the older policy is built with has no `get_neighbor` |
| RoutingPolicies.OldPropagateNeighborsFixed | bgpsimulator/simulation_engine/routing_policy/routing_policy.py:259-305 | with the neighbour lookup resolved, the older propagation still sends nothing: it changes no neighbour, or raises the hook's error as soon as a route is due |
| RoutingPolicies.OldPropagateFailsWhenExportDue | bgpsimulator/simulation_engine/routing_policy/routing_policy.py:265-305 | with the lookup resolved, it succeeds iff no route is due for export to a target neighbour |
| RoutingPolicies.OldPropagateNeverSucceeds | bgpsimulator/simulation_engine/routing_policy/routing_policy.py:259-305 | where Policies.PropagateTo delivers a route to a neighbour, the written propagation raises AttributeError, and with the lookup repaired it raises the hook's error |
| RoutingPolicies.OldLookupMatchesSameEntries | bgpsimulator/simulation_engine/routing_policy/routing_policy.py:323-353 | the older lookup's containment test picks the same candidate routes as the newer lookup |
| PropagateHooks.OtcHookAsWritten | bgpsimulator/simulation_engine/routing_policy/custom_policies/only_to_customers.py:24-41 | as written, the hook always raises: NameError toward peers and AttributeError toward customers and providers |
| PropagateHooks.OtcHookNamesFixed | bgpsimulator/simulation_engine/routing_policy/custom_policies/only_to_customers.py:24-41 | with the names fixed, a route to a customer or provider gets OTC set to the sender, is sent once by the hook and is reported as handled and to be sent; a route to a peer is not handled and nothing is sent |
| PropagateHooks.PolicyPropagateNamesFixed | bgpsimulator/simulation_engine/routing_policy/routing_policy.py:293-302 | with Only-To-Customers on, a route to a customer or provider is delivered twice, once by the hook and once more by `policy_propagate` itself (lines 301-302), after which line 305 still raises NameError; otherwise nothing is delivered here |
| PropagateHooks.NamesFixedSendsTwice | bgpsimulator/simulation_engine/routing_policy/routing_policy.py:293-302 | the marked route reaches a customer or provider neighbour twice |
| PropagateHooks.OtcHookRfc9234 | bgpsimulator/simulation_engine/routing_policy/custom_policies/only_to_customers.py:24-41 | following section 5 of RFC 9234, the sender adds its OTC toward customers and peers only when none is set, and changes nothing else |
| PropagateHooks.NamesFixedHookDeviatesFromRfc | bgpsimulator/simulation_engine/routing_policy/custom_policies/only_to_customers.py:28-31 | the name-fixed hook marks routes to providers, overwrites an existing OTC, and leaves peer routes unmarked, all contrary to RFC 9234 |
| PropagateHooks.Rfc9234MarkStopsLeaks | bgpsimulator/simulation_engine/routing_policy/custom_policies/only_to_customers.py:9-41 | a route marked on its way to a peer is accepted by that peer, and a marked route is rejected when it comes back up from a customer |
| PropagateHooks.SuppressWithdrawals | bgpsimulator/simulation_engine/policy/policy_extensions/suppress_withdrawals.py:17-31 | given the withdrawal flag the announcement lacks, withdrawals are handled and not sent, and other routes are sent unchanged |
| PropagateHooks.SuppressWithdrawalsAsWritten | bgpsimulator/simulation_engine/policy/policy_extensions/suppress_withdrawals.py:24 | every call raises AttributeError, because the announcement has no `withdraw` slot |
| PropagateHooks.SuppressWithdrawalsAsWrittenRaises | bgpsimulator/simulation_engine/policy/policy_extensions/suppress_withdrawals.py:17-31 | on every announcement the written hook raises, while the hook with the flag supplied suppresses exactly the withdrawals |
| GraphCycles.Visit | bgpsimulator/as_graphs/as_graph_utils.py:43-64 | a successful visit extends the finish order with the AS and keeps it a finish order; CycleError means a cycle exists; KeyError means a listed ASN has no record |
| GraphCycles.Walk | bgpsimulator/as_graphs/as_graph_utils.py:52-64 | the same guarantees for the neighbour loop of the depth-first search |
| GraphCycles.WalkOn | bgpsimulator/as_graphs/as_graph_utils.py:57-60 | the same guarantees for the descent into an unvisited neighbour |
| GraphCycles.AllFrom | bgpsimulator/as_graphs/as_graph_utils.py:25-41 | a successful outer loop yields a finish order covering the whole table; its errors mean a cycle or a missing record |
| GraphCycles.FinishOrderClosed | bgpsimulator/as_graphs/as_graph_utils.py:25-64 | a complete finish order implies every listed ASN has a record |
| GraphCycles.FinishOrderAcyclic | bgpsimulator/as_graphs/as_graph_utils.py:25-64 | a complete finish order implies the relation has no cycle |
| GraphCycles.CheckForCycles | bgpsimulator/as_graphs/as_graph_utils.py:25-64 | success means both relations are closed and acyclic; CycleError means a cycle in one of them; KeyError means a dangling ASN |
| GraphCycles.CheckForCyclesExact | bgpsimulator/as_graphs/as_graph_utils.py:25-64 | the check succeeds iff both relations are closed and acyclic |
| GraphCones.ConeVisit | bgpsimulator/as_graphs/as_graph_utils.py:83-101 | memoised entries are never changed; every recorded ASN is really in the cone; on an acyclic graph the memo is complete for what it settled; KeyError means a dangling provider |
| GraphCones.ConeLoop | bgpsimulator/as_graphs/as_graph_utils.py:90-101 | the same guarantees for the provider loop of one AS |
| GraphCones.ConeAll | bgpsimulator/as_graphs/as_graph_utils.py:70-81 | the outer loop records a sound cone for every AS, and a complete one on an acyclic graph |
| GraphCones.AddProviderConeAsns | bgpsimulator/as_graphs/as_graph_utils.py:70-101 | every AS gets a cone; on an acyclic graph each cone is exactly the set of ASes reachable through providers, excluding the AS itself |
| GraphCones.ConesExact | bgpsimulator/as_graphs/as_graph_utils.py:70-101 | a sound and settled memo on an acyclic graph is exactly the provider-reachability relation |
| GraphCones.NotInOwnCone | bgpsimulator/as_graphs/as_graph_utils.py:70-101 | on an acyclic graph no AS is in its own provider cone |
| GraphRanks.RankVisit | bgpsimulator/as_graphs/as_graph_utils.py:115-126 | ranks only rise; the visited AS gets at least the offered rank; ancestors keep their ranks; KeyError means a dangling provider |
| GraphRanks.RankAll | bgpsimulator/as_graphs/as_graph_utils.py:107-114 | every AS gets a rank; each provider ranks above its customers, and each positive rank is supported by a customer one below |
| GraphRanks.AssignRanks | bgpsimulator/as_graphs/as_graph_utils.py:107-126 | with the reset done once, before the loop, every provider ranks at least one above each of its customers; a positive rank has a customer exactly one below; an AS that is nobody's provider has rank 0 |
| GraphRanks.RanksTight | bgpsimulator/as_graphs/as_graph_utils.py:107-126 | a complete, supported, good ranking has exactly those three properties |
| GraphRanks.AssignRanksAsWritten | bgpsimulator/as_graphs/as_graph_utils.py:111-114 | as written, every AS gets a rank, and the last AS in table order is reset to 0 |
| GraphRanks.RanksAsWrittenCounterexample | bgpsimulator/as_graphs/as_graph_utils.py:111-114 | AS 1 buys from AS 2 with table order [1, 2]: the written code leaves the provider at rank 0, while the corrected code ranks it above its customer |
| GraphBuckets.Insert | bgpsimulator/as_graphs/as_graph_utils.py:137-141 | inserting into an ascending list keeps it ascending and adds exactly the new element |
| GraphBuckets.Sort | bgpsimulator/as_graphs/as_graph_utils.py:137-141 | the sorted list is ascending, with the same length and the same elements |
| GraphBuckets.SortIsTheAscendingArrangement | bgpsimulator/as_graphs/as_graph_utils.py:137-141 | any strictly ascending list with the input's elements is the sort's result |
| GraphBuckets.AtRank | bgpsimulator/as_graphs/as_graph_utils.py:133-136 | the rank-k list holds exactly the ASes of rank k, each once |
| GraphBuckets.MaxRank | bgpsimulator/as_graphs/as_graph_utils.py:130-132 | an empty table raises ValueError and an unranked AS raises TypeError; otherwise the result is the greatest rank |
| GraphBuckets.Buckets | bgpsimulator/as_graphs/as_graph_utils.py:128-141 | bucket k holds only ASes of rank k, sorted ascending; every AS is in the bucket of its rank; the top bucket is non-empty |
| GraphBuckets.BucketsCount | bgpsimulator/as_graphs/as_graph_utils.py:128-141 | there is one bucket per rank from 0 to the greatest |
| GraphBuckets.BucketsPartition | bgpsimulator/as_graphs/as_graph_utils.py:128-141 | each AS is in exactly one bucket, the one of its rank |
| GraphSetup.Annotate | bgpsimulator/as_graphs/as_graph_utils.py:10-18 | each record gets its cone and rank written in, and nothing else changes |
| GraphSetup.ConesOf | bgpsimulator/as_graphs/as_graph_utils.py:15 | the cones written are exactly provider reachability |
| GraphSetup.RanksOf | bgpsimulator/as_graphs/as_graph_utils.py:16 | with the corrected ranking, every AS is ranked and each provider above its customers |
| GraphSetup.Complete | bgpsimulator/as_graphs/as_graph_utils.py:10-18 | the completed graph keeps its relations, holds the cones, ranks and rank buckets, and is flagged as set up; an empty table raises ValueError |
| GraphSetup.SetUpHolds | bgpsimulator/as_graphs/as_graph_utils.py:10-18 | the annotated graph meets every part of the set-up promise |
| GraphSetup.AddExtraSetup | bgpsimulator/as_graphs/as_graph_utils.py:10-18 | a graph already set up is returned as it is; otherwise the result is set up, or the error is CycleError (a cycle exists), KeyError (a dangling ASN) or ValueError (an empty table) |
| GraphSetup.AddExtraSetupIdempotent | bgpsimulator/as_graphs/as_graph_utils.py:10-18 | setting up a set-up graph again changes nothing |
| GraphSetup.AddExtraSetupSucceeds | bgpsimulator/as_graphs/as_graph_utils.py:10-18 | set-up succeeds iff both relations are closed and acyclic |
| GraphSetup.CompleteAsWritten | bgpsimulator/as_graphs/as_graph_utils.py:10-18 | with the ranking as written, an empty table raises ValueError; otherwise the graph keeps its relations, holds the cones and rank buckets, every AS is ranked, and the last AS in table order has rank 0 |
| GraphSetup.AddExtraSetupAsWritten | bgpsimulator/as_graphs/as_graph_utils.py:10-18 | as written, a graph already set up is returned as it is; it succeeds exactly when the corrected set-up does, fails with the same error, and otherwise gives a graph set up except for the rank order |
| GraphSetup.SetUpWeakens | bgpsimulator/as_graphs/as_graph_utils.py:10-18 | whatever the corrected set-up promises, the written set-up's weaker promise holds too |
| GraphSetup.SetupAsWrittenCounterexample | bgpsimulator/as_graphs/as_graph_utils.py:111-114 | for AS 1 buying from AS 2 in table order [1, 2], the written set-up succeeds with the provider at rank 0 and ranks that do not hold, while the corrected set-up ranks it above its customer |
| Text.Contains | bgpsimulator/as_graphs/caida_as_graph_json_converter.py:44 | `t in s` holds iff `t` occurs at some position of `s` |
| Text.IndexOf | bgpsimulator/as_graphs/caida_as_graph_json_converter.py:84 | the position returned holds the first occurrence of the character |
| Text.Split | bgpsimulator/as_graphs/caida_as_graph_json_converter.py:84 | the pieces contain no separator and join back to the input |
| Text.SplitJoin | bgpsimulator/as_graphs/caida_as_graph_json_converter.py:84 | splitting the join of separator-free pieces gives the pieces back |
| Text.StripSpec | bgpsimulator/as_graphs/caida_as_graph_json_converter.py:69 | `strip` keeps one contiguous piece, drops only whitespace on either side, and the piece neither starts nor ends with whitespace; whitespace is Python's `str.isspace` set, including the separators U+001C to U+001F |
| Text.ParseInt | bgpsimulator/as_graphs/caida_as_graph_json_converter.py:69 | `int()` succeeds iff the stripped text is an optional sign followed by ASCII digits, and raises ValueError otherwise |
| Text.ParseShowInt | bgpsimulator/as_graphs/caida_as_graph_json_converter.py:69 | `int(str(n)) == n` for every integer |
| Caida.Classify | bgpsimulator/as_graphs/caida_as_graph_json_converter.py:34-48 | the clique header, then the IXP header, then other comments are recognised first; any other line is provider-customer iff it contains `-1`, and a peering line otherwise |
| Caida.EndPoints | bgpsimulator/as_graphs/caida_as_graph_json_converter.py:84-86 | a relationship line is read iff it has four `\|`-separated fields whose first two are integers; ValueError otherwise |
| Caida.AddCustomer | bgpsimulator/as_graphs/caida_as_graph_json_converter.py:81-90 | the customer is added to the provider's customers and the provider to the customer's providers, creating records as needed, and nothing else changes |
| Caida.AddPeer | bgpsimulator/as_graphs/caida_as_graph_json_converter.py:92-101 | each AS is added to the other's peers, creating records as needed, and nothing else changes |
| Caida.ExtractProviderCustomers | bgpsimulator/as_graphs/caida_as_graph_json_converter.py:81-90 | the line succeeds iff its end points parse, and then the customer link is added |
| Caida.ExtractPeers | bgpsimulator/as_graphs/caida_as_graph_json_converter.py:92-101 | the line succeeds iff its end points parse, and then the peering is added |
| Caida.CustomerAddedConsistent | bgpsimulator/as_graphs/caida_as_graph_json_converter.py:81-90 | adding a customer link keeps the records keyed, mirrored and symmetric |
| Caida.PeerAddedConsistent | bgpsimulator/as_graphs/caida_as_graph_json_converter.py:92-101 | adding a peering keeps the records keyed, mirrored and symmetric |
| Caida.MarkAll | bgpsimulator/as_graphs/caida_as_graph_json_converter.py:65-79 | marking succeeds iff every listed token is an integer, and then it sets the flag on exactly the listed ASes, creating records as needed |
| Caida.MarkedConsistent | bgpsimulator/as_graphs/caida_as_graph_json_converter.py:65-79 | marking keeps the records consistent |
| Caida.ProcessLine | bgpsimulator/as_graphs/caida_as_graph_json_converter.py:34-48 | comments change nothing; existing records are kept under their ASNs; the only error is ValueError |
| Caida.Convert | bgpsimulator/as_graphs/caida_as_graph_json_converter.py:34-48 | converting a file never drops a record |
| Caida.ProcessLineConsistent | bgpsimulator/as_graphs/caida_as_graph_json_converter.py:34-48 | every line keeps the records consistent |
| Caida.ConvertConsistent | bgpsimulator/as_graphs/caida_as_graph_json_converter.py:34-48 | a whole file keeps the records consistent |
| Caida.ProcessLineTier1 | bgpsimulator/as_graphs/caida_as_graph_json_converter.py:36-37 | an input-clique line creates its ASes and marks exactly them tier-1; other lines leave tier-1 alone |
| Caida.ConvertTier1 | bgpsimulator/as_graphs/caida_as_graph_json_converter.py:34-48 | after the file, the tier-1 ASes are exactly those tier-1 before and those on an input-clique line |
| Caida.ProviderCustomerLine | bgpsimulator/as_graphs/caida_as_graph_json_converter.py:81-90 | the line `p\|c\|-1\|src` is read as "c is a customer of p" |
| Caida.PeeringLine | bgpsimulator/as_graphs/caida_as_graph_json_converter.py:92-101 | the line `a\|b\|0\|src` is read as "a and b peer" |
| Caida.ProcessLineAsWritten | bgpsimulator/as_graphs/caida_as_graph_json_converter.py:37 | as written, an input-clique line raises AttributeError, and every other line is processed as intended |
| Caida.AsWrittenNeverTier1 | bgpsimulator/as_graphs/caida_as_graph_json_converter.py:37 | as written, any file that converts has no input-clique line and marks no AS tier-1 |
| Caida.AddCustomerShared | bgpsimulator/as_graphs/base_as.py:15-20 | with the shared default lists, one customer link lands in the one list every fresh record shares |
| Caida.SharedDefaultsCounterexample | bgpsimulator/as_graphs/base_as.py:15-20 | after `1\|2\|-1\|src`, the shared defaults make AS 1 its own provider and AS 2 its own customer, whereas per-record sets give AS 1 customer {2} and AS 2 provider {1} |
| DataPlane.Determine | bgpsimulator/simulation_framework/data_plane_packet_propagator.py:43-62 | an attacker, a victim or a dead end settles the outcome; otherwise it is a loop iff the AS was already visited or more than 64 ASes were, and undetermined otherwise |
| DataPlane.Walk | bgpsimulator/simulation_framework/data_plane_packet_propagator.py:19-41 | the walk stores the outcome for the AS and for each AS it passed through, and the next hop's stored outcome is the AS's own |
| DataPlane.Follow | bgpsimulator/simulation_framework/data_plane_packet_propagator.py:19-41 | following next hops ends in a decided outcome |
| DataPlane.WalkFollows | bgpsimulator/simulation_framework/data_plane_packet_propagator.py:19-41 | the memoised walk from an empty memo gives the outcome of simply following next hops |
| DataPlane.OutcomesFrom | bgpsimulator/simulation_framework/data_plane_packet_propagator.py:7-17 | the loop keeps earlier outcomes, covers every AS from its position on, and keeps the stored outcomes coherent |
| DataPlane.Outcomes | bgpsimulator/simulation_framework/data_plane_packet_propagator.py:7-17 | every AS of the graph gets an outcome, and the outcomes are coherent along next hops |
| DataPlane.OutcomesOfEndpoints | bgpsimulator/simulation_framework/data_plane_packet_propagator.py:7-62 | attackers get ATTACKER_SUCCESS, and victims that are not attackers get VICTIM_SUCCESS |
| DataPlane.DetermineAsWritten | bgpsimulator/simulation_framework/data_plane_packet_propagator.py:54 | as written, any AS that would forward raises NameError (`Relationships` is not imported); all others agree with the intended outcome |
| DataPlane.ForwardingRaises | bgpsimulator/simulation_framework/data_plane_packet_propagator.py:54 | exactly where the intended code forwards the packet, the written code raises NameError |
| ScenarioConfigs.OrEmpty | bgpsimulator/simulation_framework/scenarios/scenario_config.py:63-75 | `None` becomes the empty dictionary, and a dictionary is kept |
| ScenarioConfigs.AllOff | bgpsimulator/simulation_framework/scenarios/scenario_config.py:72-75 | every setting is present and off |
| ScenarioConfigs.BaseOrAllOff | bgpsimulator/simulation_framework/scenarios/scenario_config.py:72-75 | a non-empty base dictionary is kept, and `None` or an empty one becomes all-off |
| ScenarioConfigs.GroupsOrDefault | bgpsimulator/simulation_framework/scenarios/scenario_config.py:86 | the adoption groups are never empty; a given non-empty list is kept |
| ScenarioConfigs.ResolvedRounds | bgpsimulator/simulation_framework/scenarios/scenario_config.py:99-110 | an explicit round count is kept; otherwise a BGP-iSec shortest-path hijack gets 2 rounds and anything else the class minimum |
| ScenarioConfigs.Resolve | bgpsimulator/simulation_framework/scenarios/scenario_config.py:99-118 | construction fails with ValueError exactly when the rounds fall below the class minimum; otherwise the defaults are filled in |
| ScenarioConfigs.ExplicitRoundsKept | bgpsimulator/simulation_framework/scenarios/scenario_config.py:99-118 | an explicit count is kept, and rejected exactly when it is below the minimum |
| ScenarioConfigs.ImplicitRounds | bgpsimulator/simulation_framework/scenarios/scenario_config.py:99-118 | without an explicit count, only a BGP-iSec shortest-path class needing more than 2 rounds fails; the rounds are 2 for BGP-iSec shortest-path and the class minimum otherwise |
| ScenarioConfigs.DefaultConfig | bgpsimulator/simulation_framework/scenarios/scenario_config.py:63-118 | with only the required arguments there is one attacker and one legitimate origin from stubs or multihomed ASes, adoption over the three default groups, all base settings off and the minimum rounds |
| ScenarioConfigs.AsWrittenISecWeaker | bgpsimulator/simulation_framework/scenarios/scenario_config.py:102 | the written BGP-iSec test fires only when the intended one does |
| ScenarioConfigs.OverrideISecMissed | bgpsimulator/simulation_framework/scenarios/scenario_config.py:102 | BGP-iSec enabled only for AS 5 by override gives 1 round as written and 2 as intended |
| Scenarios.Originated | bgpsimulator/simulation_framework/scenarios/custom_scenarios/subprefix_hijack.py:20-26 | a seeded route is an ORIGIN route whose path and next hop are the originating AS |
| Scenarios.DestAddress | bgpsimulator/simulation_framework/scenarios/custom_scenarios/subprefix_hijack.py:52-55 | the destination `1.2.3.4` is a valid single address |
| Scenarios.SubprefixSeeds | bgpsimulator/simulation_framework/scenarios/custom_scenarios/subprefix_hijack.py:15-40 | victims originate the prefix and attackers the subprefix, each with its own timestamp; an AS in both sets seeds the attacker's route |
| Scenarios.SubprefixSeedsOriginated | bgpsimulator/simulation_framework/scenarios/custom_scenarios/subprefix_hijack.py:15-40 | each seeding AS seeds exactly one route, originated by itself |
| Scenarios.SubprefixRoas | bgpsimulator/simulation_framework/scenarios/custom_scenarios/subprefix_hijack.py:42-50 | the ROAs authorise exactly the victims for the prefix |
| Scenarios.SubprefixRoasExcludeAttackers | bgpsimulator/simulation_framework/scenarios/custom_scenarios/subprefix_hijack.py:42-50 | no ROA authorises an attacker that is not also a victim, and none covers the subprefix |
| Scenarios.SubprefixSeedsAsWritten | bgpsimulator/simulation_framework/scenarios/custom_scenarios/subprefix_hijack.py:35 | as written, any attacker makes seeding raise AttributeError (`Relationships.ATTACKER` does not exist) |
| Scenarios.SubprefixAsWrittenNoAttack | bgpsimulator/simulation_framework/scenarios/custom_scenarios/subprefix_hijack.py:35 | with one attacker the written code raises, while the intended code seeds the hijack |
| Scenarios.LeakWarns | bgpsimulator/simulation_framework/scenarios/custom_scenarios/accidental_route_leak.py:23-50 | the warning is due exactly when the attacker group is STUBS_OR_MH, STUBS or ALL_WOUT_IXPS and no attacker ASNs are overridden |
| Scenarios.LeakValidateAsWritten | bgpsimulator/simulation_framework/scenarios/custom_scenarios/accidental_route_leak.py:38 | as written, the check raises NameError exactly where it should warn |
| Scenarios.LeakDefaultGroupRaises | bgpsimulator/simulation_framework/scenarios/custom_scenarios/accidental_route_leak.py:23-50 | the default attacker group triggers the NameError, while multihomed or overridden attackers do not |
| Scenarios.LeakSeeds | bgpsimulator/simulation_framework/scenarios/custom_scenarios/accidental_route_leak.py:109-121 | every legitimate origin seeds one route for the prefix, originated by itself |
| Scenarios.LeakRoas | bgpsimulator/simulation_framework/scenarios/custom_scenarios/accidental_route_leak.py:123-133 | the ROAs authorise exactly the legitimate origins for the prefix |
| Scenarios.Leaked | bgpsimulator/simulation_framework/scenarios/custom_scenarios/accidental_route_leak.py:95-103 | a leaked route is the learned route relabelled as originated, with the attacker's timestamp |
| Scenarios.LeakedAll | bgpsimulator/simulation_framework/scenarios/custom_scenarios/accidental_route_leak.py:96-103 | every route in the attacker's RIB is leaked, in order |
| Scenarios.Reseed | bgpsimulator/simulation_framework/scenarios/custom_scenarios/accidental_route_leak.py:88-107 | as written: KeyError iff some attacker is outside the graph, or holds a non-empty RIB and has no seed list; otherwise non-attackers keep their seeds, and each attacker's seeds are followed by its leaked routes |
| Scenarios.ReseedCorrected | bgpsimulator/simulation_framework/scenarios/custom_scenarios/accidental_route_leak.py:88-107 | with a fresh list for an attacker that has none: KeyError iff some attacker is outside the graph; otherwise the keys are the seeded ASes plus the attackers with something to leak, non-attackers keep their seeds, and each attacker's list is its seeds, if any, followed by its leaked routes |
| Scenarios.ReseedCorrectedAgrees | bgpsimulator/simulation_framework/scenarios/custom_scenarios/accidental_route_leak.py:88-107 | wherever the written reseeding succeeds, the corrected one gives the same seeds |
| Scenarios.PostPropagationHook | bgpsimulator/simulation_framework/scenarios/custom_scenarios/accidental_route_leak.py:88-107 | round 0 reseeds with a fresh list for an unseeded attacker; round 1 and negative rounds change nothing; later rounds raise NotImplementedError |
| Scenarios.LeakKeepsLegitimateFirst | bgpsimulator/simulation_framework/scenarios/custom_scenarios/accidental_route_leak.py:88-121 | with every attacker in the graph, round 0 succeeds; an attacker that is a legitimate origin keeps its route first, followed by its RIB, and any other attacker with a route seeds exactly its leaks |
| Scenarios.LeakByOutsiderRaises | bgpsimulator/simulation_framework/scenarios/custom_scenarios/accidental_route_leak.py:98 | as written, an attacker that is not a legitimate origin and holds a route makes the reseeding raise KeyError, where the corrected one succeeds |
| Scenarios.LeakRoundsHandled | bgpsimulator/simulation_framework/scenarios/custom_scenarios/accidental_route_leak.py:16 | every round below the scenario's minimum of 2 is handled, and round 2 raises NotImplementedError |
| Scenarios.ReseedAsWritten | bgpsimulator/simulation_framework/scenarios/custom_scenarios/accidental_route_leak.py:89 | as written, the saved "previous" seeds are the reseeded ones, because the copy shares the lists |
| Scenarios.ShallowCopyChangesPrevious | bgpsimulator/simulation_framework/scenarios/custom_scenarios/accidental_route_leak.py:89 | whenever an attacker leaks something, the saved "previous" seeds differ from the seeds before the leak |

## Left out

- Reading and writing files, the JSON cache, the CAIDA collector, and diagram and chart output are left out. They are I/O.
- The engine loop that propagates rank by rank, `setup_engine`, and the engine reset are left out. They wire the modelled steps together over mutable objects.
- Wiring defects that stop whole modules from loading are noted, not modelled:
  - line 11 of the CAIDA converter lacks a colon;
  - `bgpsimulator/as_graphs/base_as.py` uses `RoutingPolicy` without importing it (line 46), and its `to_json` reads an undefined `asn` and `.policy` (lines 118-125);
  - the data-plane propagator never sets `self.scenario` (line 46) and passes the graph as `engine` (line 16);
  - several imports name things their packages do not export: `bgpsimulator/shared/__init__.py` exports only the constants, `CycleError`, `NoCAIDAURLError` and `Relationships`, yet `policy.py` imports `Settings`, `ROAValidity`, `Prefix` and `IPAddr` from it (lines 9-10), `routing_policy.py` imports `RoutingPolicySettings`, `Prefix` and `IPAddr` (lines 9-10), and the scenarios import `CommonPrefixes`, `Timestamps`, `Settings` and `ASNGroups` (`subprefix_hijack.py` line 7, `accidental_route_leak.py` lines 7 and 9);
  - `bgpsimulator/shared/__init__.py` (line 2) imports `GaoRexfordError` and `AnnouncementNotFoundError`, which `bgpsimulator/shared/exceptions.py` does not define (it defines only `CycleError` and `NoCAIDAURLError`), so importing the package itself fails; `policy.py` and `routing_policy.py` import `GaoRexfordError` too (line 6 of each);
  - `ip_addr.py` (line 2) imports `InvalidIPAddressError`, which is not defined either; IpAddrs.IpAddr names that error as if it resolved;
  - `path_end.py` (line 2) imports `RoutingPolicySettings` from `bgpsimulator.shared.enums`, which does not define it;
  - the graph constructor reads `graph_data["propagation_ranks"]` (`as_graph.py` line 35), while the ranking utility writes the key `propagation_rank_asns` (`as_graph_utils.py` line 141);
  - the older `RoutingPolicy` is built by `bgpsimulator/as_graphs/base_as.py` (line 46), whose `AS` has no `get_neighbor`, so `_propagate` raises AttributeError at `routing_policy.py` line 265; only the newer `as_graph/base_as.py` defines it (lines 67-75);
  - `ribs_in.py` imports `Prefix`, `Ann` and `Relationships` only for type checking (lines 6-8) and has no postponed annotations, so the annotation at line 24 and the base class `UserDict[int, dict[Prefix, AnnInfo]]` at line 42 raise NameError when the module loads; the RibsIn members model the module as if those names resolved;
  - `aspa.py` (line 3) and `only_to_customers.py` (line 3) import from `bgpsimulator.as_graph`, a package that does not exist.
  The model takes every one of these names to resolve to the class it evidently means.
- The newer `Policy` imports its filters from a `policy_extensions` package (`policy.py` lines 12-32) that is not part of this model. Its filters are modelled from the `policy/custom_policies` and `routing_policy/custom_policies` classes of the same names.
- `Settings`, `ASNGroups`, `Timestamps`, `CommonPrefixes` and `Outcomes` are modelled as Dafny enumerations or as parameters.
- The scenario configuration's label, policy class, override announcements, ROAs and destination are stored unchanged, so they are not represented.
- Text.ParseInt: accepts ASCII digits only. The digit-group underscores and the non-ASCII decimal digits that `int()` also accepts are left out; its whitespace is the full `str.isspace` set.
- ROA validation, SAV (`passes_sav`, which always returns true) and the choice of best route are oracles. They are parameters of `View` and `Plane`.
- BGPsec, BGP-iSec, ROV++, ASPAwN, ASRA, ProviderConeID and the hijack-customer extension are left out. Where they sit inside `valid_ann` they enter through an oracle. Elsewhere the members require them to be off (`SecOff`, `RovppOff`, `PropagateHooksOff`).
- LookupCache: cache keys compare prefixes together with their family, while Python's key equality compares networks only. Two RIBs whose keys differ only in family share a cache entry in Python, and the model does not reproduce that sharing.
- `untracked_asns` of the route leak (lines 140-149) is left out. It reads a misspelt attribute.
- `_get_attacker_asns` and `_get_legitimate_origin_asns` of the route leak (lines 151-154) are left out. Both only raise NotImplementedError.
- The data plane's dependence on the order in which outcomes are memoised is left out. The model proves each walk against its own memo.
- Policies.SentCopy: an AS numbered 0 sending a route with an empty path raises IndexError in `copy`; the model requires a non-empty path in that case, because RFC 7607 reserves AS 0 and no route is sent from it.
- Policies.PropagateTo: requires, for an AS numbered 0, that every route in its local RIB has a non-empty path, for the reason given for Policies.SentCopy.
- PropagateHooks.SuppressWithdrawals: takes the withdrawal flag as a field of its input, because the announcement has no `withdraw` slot and the written hook raises AttributeError (PropagateHooks.SuppressWithdrawalsAsWritten).
- Scenarios.PostPropagationHook: round 0 uses the corrected reseeding (Scenarios.ReseedCorrected), so it does not raise KeyError for an attacker that is not a legitimate origin and holds a route. The written round 0 is Scenarios.Reseed.
- Filters.EnforceFirstAs: states only the "accepted only if" direction of the check. It also requires a non-empty path, because the policy rejects empty paths with IndexError before this filter runs.
- Policies.ValidAnn: states only the loop check and the error kinds. The full verdict is stated by Policies.ValidAnnIsConjunction.
- Policies.MixedFamiliesRankByFamilyLength records how the lookup ranks mixed families as written. No corrected lookup is modelled, because the intended ranking across families is not evident.
- GraphSetup.AddExtraSetup: composes the corrected ranking, so its promise that providers rank above customers is not what the written code gives. The written composition is GraphSetup.AddExtraSetupAsWritten, with its weaker promise.
- RoutingPolicies.OldValidAnn: uses the corrected ASPA and PeerLock-lite filters. The chain with the filters as written is RoutingPolicies.OldLaterFiltersAsWritten.

## Findings

| source | as written | input that shows it | evidently intended | confidence | as-written member | corrected member |
|---|---|---|---|---|---|---|
| bgpsimulator/simulation_engine/routing_policy/routing_policy.py:149 | `if BGP.valid_ann(...): return False` | any loop-free route | reject the route when BGP validation fails (`if not ...`) | not executed | RoutingPolicies.AsWrittenAcceptsOnlyWhatIntendedRejects | RoutingPolicies.OldValidAnn |
| bgpsimulator/simulation_engine/routing_policy/routing_policy.py:265 | `self.as_.get_neighbor(propagate_to)` on an `AS` that defines no `get_neighbor` | any call of `_propagate` | the neighbour lookup of the newer AS class | not executed | RoutingPolicies.OldPropagateNeverSucceeds | RoutingPolicies.OldPropagateNeighborsFixed |
| bgpsimulator/simulation_engine/routing_policy/routing_policy.py:305 | `return policy_propagate`, an undefined name | any route due for export, once the lookup at line 265 resolves | return `False` so that the default export runs | not executed | RoutingPolicies.OldPropagateFailsWhenExportDue | Policies.PropagateTo |
| bgpsimulator/simulation_engine/routing_policy/custom_policies/aspa.py:136 | reads `RoutingPolicySettings`, which is not imported | `asn1` in the graph and adopting ASPA | look the setting up in the imported `Settings` | not executed | Aspa.ProviderCheckAsWrittenRaises | Aspa.ProviderCheckMeaning |
| bgpsimulator/simulation_engine/routing_policy/custom_policies/only_to_customers.py:28-31 | sets OTC toward customers and providers, overwriting any existing OTC | a route with OTC from AS 7, sent by AS 1 to a customer | set OTC toward customers and peers, only when it is absent (section 5 of RFC 9234) | not executed | PropagateHooks.NamesFixedHookDeviatesFromRfc | PropagateHooks.OtcHookRfc9234 |
| bgpsimulator/simulation_engine/routing_policy/custom_policies/peerlock_lite.py:17 | reads `.tier` on an AS object | a customer route with a non-empty path | read the tier-1 flag, as the newer filter does | not executed | Filters.PeerLockLiteAsWrittenRaises | Filters.PeerLockLite |
| bgpsimulator/as_graphs/as_graph_utils.py:111-114 | resets every rank inside the per-AS loop | AS 1 buys from AS 2, table order [1, 2] | reset once, before the loop | not executed | GraphRanks.RanksAsWrittenCounterexample | GraphRanks.AssignRanks |
| bgpsimulator/shared/ip_addr.py:16 | accepts `prefixlen` 32 in either family | `2001:db8::/32` | accept exactly single addresses (IPv4 /32, IPv6 /128) | not executed | IpAddrs.IpAddrAcceptsV6Slash32 | IpAddrs.IpAddrCorrected |
| bgpsimulator/as_graphs/caida_as_graph_json_converter.py:37 | calls the undefined `_extract_tier_1_asns` | any file with a `# input clique` line | call `_extract_input_clique_asns` (line 65) | not executed | Caida.AsWrittenNeverTier1 | Caida.ConvertTier1 |
| bgpsimulator/as_graphs/base_as.py:15-20 | default `set()` and `list()` arguments shared by every AS | the line `1\|2\|-1\|src` | a fresh collection per AS | not executed | Caida.SharedDefaultsCounterexample | Caida.AddCustomer |
| bgpsimulator/simulation_framework/data_plane_packet_propagator.py:54 | uses `Relationships`, which is not imported | any AS that forwards the packet | import the enumeration and forward | not executed | DataPlane.ForwardingRaises | DataPlane.Determine |
| bgpsimulator/simulation_framework/scenarios/scenario_config.py:102 | calls `.get(setting)` on the ASN-keyed override dictionaries | BGP-iSec enabled only for AS 5 by override | search each AS's override settings | not executed | ScenarioConfigs.OverrideISecMissed | ScenarioConfigs.ImplicitRounds |
| bgpsimulator/simulation_framework/scenarios/custom_scenarios/accidental_route_leak.py:38 | calls `warning.warn`, an undefined name | the default attacker group | `warnings.warn` | not executed | Scenarios.LeakDefaultGroupRaises | Scenarios.LeakWarns |
| bgpsimulator/simulation_framework/scenarios/custom_scenarios/accidental_route_leak.py:89 | takes a shallow copy of the seed dictionary, then appends to its lists | an attacker whose RIB holds a route | copy the lists as well | not executed | Scenarios.ShallowCopyChangesPrevious | Scenarios.ReseedCorrected |
| bgpsimulator/simulation_framework/scenarios/custom_scenarios/accidental_route_leak.py:98 | appends to `seed_asn_ann_dict[attacker_asn]`, which only legitimate origins have | an attacker that is not a legitimate origin and holds a route | create the attacker's list first | not executed | Scenarios.LeakByOutsiderRaises | Scenarios.ReseedCorrected |
| bgpsimulator/as_graphs/as_graph.py:49 | `return self.ases[index]`, an attribute the graph never sets | any AS with a neighbour in the graph | `return self.as_dict[index]` | not executed | Topology.SetRelationsAsWrittenRaises | Topology.SetRelations |
| bgpsimulator/simulation_engine/policy/policy.py:496 | calls `pop()` on the cache dictionary without a key; `routing_policy.py` line 351 does the same | eleven lookups of distinct destinations from ASes with fewer than 10 RIB entries | evict one entry, so the cache keeps at most 10 | not executed | LookupCache.AsWrittenOverflowRaises | LookupCache.CachedLookup |
| bgpsimulator/simulation_engine/policy/policy_extensions/suppress_withdrawals.py:24 | reads `ann.withdraw`, which the announcement's slots do not include | any announcement | a `withdraw` flag on the announcement | not executed | PropagateHooks.SuppressWithdrawalsAsWrittenRaises | PropagateHooks.SuppressWithdrawals |
| bgpsimulator/simulation_framework/scenarios/custom_scenarios/subprefix_hijack.py:35 | uses `Relationships.ATTACKER`, which does not exist | any attacker | `Relationships.ORIGIN` | not executed | Scenarios.SubprefixAsWrittenNoAttack | Scenarios.SubprefixSeeds |
