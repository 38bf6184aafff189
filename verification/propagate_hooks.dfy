/** Export hooks (`get_policy_propagate_vals`): a hook may take over the
    sending of an announcement, rewrite it, or suppress it. */
module PropagateHooks {
  import opened Wrappers
  import opened Enums
  import opened Announcements
  import opened Topology
  import opened Filters

  /** `PolicyPropagateInfo`: whether the hook handled the announcement, the
      announcement to use, and whether it should still be sent. */
  datatype PropagateInfo = PropagateInfo(handled: bool, ann: Ann, send: bool)

  /** Only-To-Customers on export as written: toward customers and
      providers the hook reads `routing_policy.as_obj`, an attribute the
      policy does not have; toward peers it builds `PolicyPropagateInfo`,
      a name the module does not import. */
  function OtcHookAsWritten(own: nat, a: Ann, to: Relationship): (r: Result<PropagateInfo>)
    requires IsNeighborRel(to)
    ensures r.Err?
    ensures to == PEERS ==> r.error == NameError
    ensures to == CUSTOMERS || to == PROVIDERS ==> r.error == AttributeError
  {
    if to == CUSTOMERS || to == PROVIDERS then Err(AttributeError) else Err(NameError)
  }

  /** What a hook returns, together with the announcements it delivered to
      the neighbour itself before returning. */
  datatype HookOutcome = HookOutcome(info: PropagateInfo, sent: seq<Ann>)

  /** The same hook with its two names repaired: toward customers and
      providers the copy carries our ASN as OTC, replacing any earlier
      value, and the hook itself hands that copy to the neighbour (line 30)
      before returning it; toward peers nothing happens. */
  function OtcHookNamesFixed(own: nat, a: Ann, to: Relationship): (r: HookOutcome)
    requires IsNeighborRel(to) && WellFormed(a)
    ensures to == CUSTOMERS || to == PROVIDERS ==>
              r.info == PropagateInfo(true, a.(otc := Some(own)), true) && r.sent == [a.(otc := Some(own))]
    ensures to == PEERS ==> r == HookOutcome(PropagateInfo(false, a, false), [])
  {
    if to == CUSTOMERS || to == PROVIDERS then
      var marked := Copy(a, NoOverrides.(otc := Some(own))).value;
      HookOutcome(PropagateInfo(true, marked, true), [marked])
    else HookOutcome(PropagateInfo(false, a, false), [])
  }

  /** What lines 293-302 of `policy_propagate` deliver to the neighbour
      once the hook's names are repaired: the hook's own sends, then the
      returned announcement again when the hook handled it and asked for it
      to be sent. */
  function PolicyPropagateNamesFixed(own: nat, a: Ann, to: Relationship, otcOn: bool): (r: seq<Ann>)
    requires IsNeighborRel(to) && WellFormed(a)
    ensures otcOn && (to == CUSTOMERS || to == PROVIDERS) ==> r == [a.(otc := Some(own)), a.(otc := Some(own))]
    ensures !otcOn || to == PEERS ==> r == []
  {
    if !otcOn then []
    else
      var h := OtcHookNamesFixed(own, a, to);
      if h.info.handled && h.info.send then h.sent + [h.info.ann] else h.sent
  }

  /** With Only-To-Customers on, the repaired stack hands every customer and
      provider the same marked route twice, where section 5 of RFC 9234
      marks it (toward customers) and sends it once. */
  lemma NamesFixedSendsTwice(own: nat, a: Ann, to: Relationship)
    requires WellFormed(a) && (to == CUSTOMERS || to == PROVIDERS)
    ensures var r := PolicyPropagateNamesFixed(own, a, to, true);
            |r| == 2 && r[0] == r[1] && r[0] == OtcHookNamesFixed(own, a, to).info.ann
    ensures to == CUSTOMERS && a.otc.None? ==> OtcHookNamesFixed(own, a, to).info.ann == OtcHookRfc9234(own, a, to).ann
  {
  }

  /** Only-To-Customers on export per section 5 of RFC 9234: a route sent
      to a customer or a peer gets our ASN as OTC when it has none; an
      existing OTC is kept and routes to providers are left alone. */
  function OtcHookRfc9234(own: nat, a: Ann, to: Relationship): (r: PropagateInfo)
    requires IsNeighborRel(to)
    ensures r.send
    ensures r.handled <==> (to == CUSTOMERS || to == PEERS) && a.otc.None?
    ensures r.ann.otc == (if r.handled then Some(own) else a.otc)
    ensures r.ann == a.(otc := r.ann.otc)
  {
    if (to == CUSTOMERS || to == PEERS) && a.otc.None? then PropagateInfo(true, a.(otc := Some(own)), true)
    else PropagateInfo(false, a, true)
  }

  /** Where the repaired hook departs from section 5 of RFC 9234: it marks
      routes sent up to providers, it overwrites an OTC set further along
      the path, and it leaves routes to peers unmarked. */
  lemma NamesFixedHookDeviatesFromRfc(own: nat, a: Ann, other: nat)
    requires WellFormed(a) && own != 0 && other != own && a.otc == Some(other)
    ensures OtcHookNamesFixed(own, a.(otc := None), PROVIDERS).info.ann.otc == Some(own)
    ensures OtcHookRfc9234(own, a.(otc := None), PROVIDERS).ann.otc == None
    ensures OtcHookNamesFixed(own, a, CUSTOMERS).info.ann.otc == Some(own)
    ensures OtcHookRfc9234(own, a, CUSTOMERS).ann.otc == Some(other)
    ensures OtcHookNamesFixed(own, a.(otc := None), PEERS).info.ann.otc == None
    ensures OtcHookRfc9234(own, a.(otc := None), PEERS).ann.otc == Some(own)
  {
  }

  /** What RFC 9234 export marking buys on import: a route we send to a peer
      passes that peer's OTC check, since we are its next hop, and once
      marked it is rejected by anyone receiving it from a customer, which
      is the route leak the attribute exists to stop. */
  lemma Rfc9234MarkStopsLeaks(v: View, own: nat, a: Ann, to: Relationship)
    requires IsNeighborRel(to) && own != 0
    ensures var sent := OtcHookRfc9234(own, a, to).ann;
            (to == PEERS && sent.nextHop == own && a.otc.None? ==> OtcValid(v, sent, PEERS))
            && (Truthy(sent.otc) ==> !OtcValid(v, sent, CUSTOMERS))
  {
  }

  /** `SuppressWithdrawals.get_policy_propagate_vals` as written: it reads
      `ann.withdraw`, and the announcement's slots have no `withdraw`, so
      every call raises AttributeError. */
  function SuppressWithdrawalsAsWritten(a: Ann): (r: Result<PropagateInfo>)
    ensures r.Err? && r.error == AttributeError
  {
    Err(AttributeError)
  }

  /** An outgoing announcement together with the withdrawal flag it would
      carry (the announcement record itself has no such slot). */
  datatype Outgoing = Outgoing(ann: Ann, withdraw: bool)

  /** `SuppressWithdrawals.get_policy_propagate_vals`: a withdrawal is
      handled and not sent; anything else is left to normal sending. */
  function SuppressWithdrawals(o: Outgoing): (r: PropagateInfo)
    ensures r.ann == o.ann
    ensures r.handled <==> o.withdraw
    ensures r.send <==> !o.withdraw
    ensures r.handled == !r.send
  {
    if o.withdraw then PropagateInfo(true, o.ann, false)
    else PropagateInfo(false, o.ann, true)
  }

  /** Where the written hook raises on every announcement, the hook with the
      flag supplied decides each one: a withdrawal is suppressed, anything
      else is sent unchanged. */
  lemma SuppressWithdrawalsAsWrittenRaises(o: Outgoing)
    ensures SuppressWithdrawalsAsWritten(o.ann) == Err(AttributeError)
    ensures SuppressWithdrawals(o).handled == o.withdraw
    ensures !o.withdraw ==> SuppressWithdrawals(o) == PropagateInfo(false, o.ann, true)
  {
  }
}
