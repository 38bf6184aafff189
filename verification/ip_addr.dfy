/** Host addresses: prefixes that must name exactly one address. */
module IpAddrs {
  import opened Wrappers
  import opened Bits
  import opened Prefixes

  /** `IPAddr(address)` as written: parse as a prefix, then reject unless the
      family-relative prefix length is 32 or 128. */
  function IpAddr(t: PrefixText): (r: Result<Prefix>)
    ensures r.Ok? <==> Parse(t).Ok? && (PrefixLen(Parse(t).value) == 32 || PrefixLen(Parse(t).value) == 128)
    ensures r.Ok? ==> r.value == Parse(t).value
    ensures r.Err? && Parse(t).Ok? ==> r.error == InvalidIPAddressError
  {
    var p :- Parse(t);
    if PrefixLen(p) != 32 && PrefixLen(p) != 128 then Err(InvalidIPAddressError)
    else Ok(p)
  }

  /** The length check as intended: an IPv4 `/32` or an IPv6 `/128`. */
  function IpAddrCorrected(t: PrefixText): (r: Result<Prefix>)
    ensures r.Ok? <==> Parse(t).Ok? && NumAddresses(Parse(t).value) == 1
    ensures r.Ok? ==> r.value == Parse(t).value
  {
    var p :- Parse(t);
    NumAddressesFamilyIndependent(p);
    if (p.isV4 && PrefixLen(p) == 32) || (!p.isV4 && PrefixLen(p) == 128) then Ok(p)
    else Err(InvalidIPAddressError)
  }

  /** A bare IPv4 address (implicitly `/32`) is accepted and names a single
      address; an IPv4 `/24` is rejected. */
  lemma IpAddrExamples()
    ensures IpAddr(V4Text(0x0102_0304, 32)).Ok?
    ensures NumAddresses(IpAddr(V4Text(0x0102_0304, 32)).value) == 1
    ensures IpAddr(V4Text(0x0102_0300, 24)) == Err(InvalidIPAddressError)
  {
    Pow2Values();
  }

  /** As written, an IPv6 `/32` network is accepted as an address although it
      spans 2^96 addresses; the corrected check rejects it. */
  lemma IpAddrAcceptsV6Slash32()
    ensures IpAddr(V6Text(0x2001_0db8_0000_0000_0000_0000_0000_0000, 32)).Ok?
    ensures NumAddresses(IpAddr(V6Text(0x2001_0db8_0000_0000_0000_0000_0000_0000, 32)).value) == Pow2(96)
    ensures IpAddrCorrected(V6Text(0x2001_0db8_0000_0000_0000_0000_0000_0000, 32)) == Err(InvalidIPAddressError)
  {
    Pow2Values();
  }

  /** On every input the two checks agree except for IPv6 `/32` networks. */
  lemma IpAddrDiffersOnlyOnV6Slash32(t: PrefixText)
    ensures IpAddr(t) != IpAddrCorrected(t) <==> t.V6Text? && Parse(t).Ok? && t.len == 32
  {
  }
}
