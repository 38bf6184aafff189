/** IP prefixes. Every prefix is stored as an IPv6 network; an IPv4 prefix
    `a.b.c.d/n` is stored as the IPv4-mapped network `::ffff:a.b.c.d/(96+n)`
    (section 2.5.5.2 of RFC 4291) together with a flag remembering that it
    came from IPv4. */
module Prefixes {
  import opened Wrappers
  import opened Bits

  /** `::ffff:0:0`, the base of the IPv4-mapped block. */
  const MappedBase: nat := 0xffff_0000_0000
  /** The low 32 bits. */
  const V4Mask: nat := 0xffff_ffff

  /** An IPv6 prefix length. */
  type Length = n: nat | n <= 128

  /** An IPv6 network: its network address as an integer and its length. */
  datatype Network = Network(addr: nat, len: Length)

  /** A well-formed IPv6 network: address within 128 bits and no host bits
      set. */
  predicate ValidNetwork(n: Network) {
    n.addr < Two128 && n.addr % Pow2(128 - n.len) == 0
  }

  /** A prefix: the stored IPv6 network and whether it was written as IPv4. */
  datatype Prefix = Prefix(net: Network, isV4: bool)

  /** The invariant every constructed prefix satisfies: an IPv4 prefix lies
      inside `::ffff:0:0/96`. */
  predicate Valid(p: Prefix) {
    ValidNetwork(p.net)
    && (p.isV4 ==> 96 <= p.net.len && MappedBase <= p.net.addr < MappedBase + Two32)
  }

  /** The textual form of a prefix, already split into its address (as an
      integer of its family) and its length. */
  datatype PrefixText = V4Text(addr: nat, len: nat) | V6Text(addr: nat, len: nat)

  /** `_fast_ipv4_to_ipv6_int`: OR the IPv4 integer into the mapped block. */
  function MapV4(v4: nat): nat {
    Or(MappedBase, v4)
  }

  /** The mapping is an addition, and masking with `0xffffffff` undoes it. */
  lemma MapV4Inverse(v4: nat)
    requires v4 < Two32
    ensures MapV4(v4) == MappedBase + v4
    ensures And(MapV4(v4), V4Mask) == v4
  {
    Pow2Of32();
    BaseAligned32();
    OrDisjointIsSum(MappedBase, v4, 32);
    AndLowMask(MappedBase + v4, 32);
    DivModUnique(MappedBase + v4, Two32, 0xffff, v4);
  }

  lemma BaseAligned32()
    ensures MappedBase % Pow2(32) == 0
  {
    Pow2Of32();
    ProductIsMultiple(0xffff, Two32);
  }

  /** A multiple of `2^m` is a multiple of `2^k` for every `k <= m`. */
  lemma AlignedWeaken(a: nat, k: nat, m: nat)
    requires k <= m
    requires a % Pow2(m) == 0
    ensures a % Pow2(k) == 0
  {
    Pow2Add(k, m - k);
    MultipleOfMultiple(a, Pow2(k), Pow2(m - k));
  }

  /** Adding two multiples of `2^k` gives a multiple of `2^k`. */
  lemma AlignedAdd(a: nat, b: nat, k: nat)
    requires a % Pow2(k) == 0 && b % Pow2(k) == 0
    ensures (a + b) % Pow2(k) == 0
  {
    MultipleAdd(a, b, Pow2(k));
  }

  /** `x - x % 2^k`: `x` with its low `k` bits cleared. */
  function ClearLow(x: nat, k: nat): (r: nat)
    ensures r <= x && x < r + Pow2(k)
    ensures r % Pow2(k) == 0
  {
    RoundDown(x, Pow2(k));
    x - x % Pow2(k)
  }

  lemma ClearLowAligned(x: nat, k: nat)
    requires x % Pow2(k) == 0
    ensures ClearLow(x, k) == x
  {
  }

  /** Parsing a prefix string with `strict=False`: IPv4 is tried first and
      mapped to `/(96+n)`; otherwise IPv6; otherwise ValueError. Host bits are
      cleared. */
  function Parse(t: PrefixText): (r: Result<Prefix>)
    ensures r.Ok? <==> (t.V4Text? && t.addr < Two32 && t.len <= 32)
                       || (t.V6Text? && t.addr < Two128 && t.len <= 128)
    ensures r.Err? ==> r.error == ValueError
    ensures r.Ok? ==> Valid(r.value) && r.value.isV4 == t.V4Text? && PrefixLen(r.value) == t.len
  {
    match t
    case V4Text(a, n) =>
      if a < Two32 && n <= 32 then Ok(ParseV4(a, n)) else Err(ValueError)
    case V6Text(a, n) =>
      if a < Two128 && n <= 128 then Ok(ParseV6(a, n)) else Err(ValueError)
  }

  /** The IPv4 branch of parsing: host bits are cleared in IPv4 space and
      the result is mapped into `::ffff:0:0/96`. */
  function ParseV4(a: nat, n: nat): (p: Prefix)
    requires a < Two32 && n <= 32
    ensures Valid(p) && p.isV4 && p.net.len == 96 + n
    ensures p.net.addr == MappedBase + ClearLow(a, 32 - n)
  {
    var host := ClearLow(a, 32 - n);
    Pow2Monotone(32 - n, 32);
    MapV4Inverse(host);
    MappedValid(host, n);
    Prefix(Network(MapV4(host), 96 + n), true)
  }

  /** An aligned IPv4 network, once mapped, is a valid IPv4 prefix. */
  lemma MappedValid(host: nat, n: nat)
    requires n <= 32 && host < Two32 && host % Pow2(32 - n) == 0
    ensures Valid(Prefix(Network(MappedBase + host, 96 + n), true))
  {
    MappedInRange(host, n);
  }

  /** The IPv6 branch of parsing. */
  function ParseV6(a: nat, n: nat): (p: Prefix)
    requires a < Two128 && n <= 128
    ensures Valid(p) && !p.isV4 && p.net.len == n
    ensures p.net.addr == ClearLow(a, 128 - n)
  {
    Prefix(Network(ClearLow(a, 128 - n), n), false)
  }

  lemma MappedInRange(host: nat, n: nat)
    requires n <= 32 && host < Two32 && host % Pow2(32 - n) == 0
    ensures MappedBase + host < Two128
    ensures (MappedBase + host) % Pow2(128 - (96 + n)) == 0
  {
    MappedBelowTop(host);
    BaseAligned32();
    AlignedWeaken(MappedBase, 32 - n, 32);
    AlignedAdd(MappedBase, host, 32 - n);
  }

  /** The IPv4-mapped block ends below `2^128`. */
  lemma MappedBelowTop(host: nat)
    requires host < Two32
    ensures MappedBase + host < Two128
  {
  }

  /** The address a prefix string names (before host bits are cleared),
      as a 128-bit integer. */
  function TextAddress(t: PrefixText): nat {
    match t
    case V4Text(a, _) => MappedBase + a
    case V6Text(a, _) => a
  }

  /** `str(prefix)`: IPv4 prefixes are printed as IPv4 again. */
  function Str(p: Prefix): (t: PrefixText)
    requires Valid(p)
    ensures t.V4Text? == p.isV4
  {
    if p.isV4 then V4Text(And(p.net.addr, V4Mask), p.net.len - 96)
    else V6Text(p.net.addr, p.net.len)
  }

  /** `Prefix(str(p))` gives back `p`, flag included. */
  lemma {:induction false} ParseStr(p: Prefix)
    requires Valid(p)
    ensures Parse(Str(p)) == Ok(p)
  {
    if p.isV4 {
      var v4: nat := p.net.addr - MappedBase;
      var n: nat := p.net.len - 96;
      MapV4Inverse(v4);
      UnmapAligned(p.net.addr, 32 - n);
      ClearLowAligned(v4, 32 - n);
    } else {
      ClearLowAligned(p.net.addr, 128 - p.net.len);
    }
  }

  /** Removing the mapped base keeps an aligned address aligned. */
  lemma UnmapAligned(addr: nat, k: nat)
    requires k <= 32 && MappedBase <= addr && addr % Pow2(k) == 0
    ensures (addr - MappedBase) % Pow2(k) == 0
  {
    BaseAligned32();
    AlignedWeaken(MappedBase, k, 32);
    AlignedSub(addr, MappedBase, k);
  }

  lemma AlignedSub(a: nat, b: nat, k: nat)
    requires b <= a
    requires a % Pow2(k) == 0 && b % Pow2(k) == 0
    ensures (a - b) % Pow2(k) == 0
  {
    MultipleSub(a, b, Pow2(k));
  }

  /** The parsed network covers the written address: clearing host bits
      never moves the address out of its own prefix. */
  lemma ParseCoversAddress(t: PrefixText)
    requires Parse(t).Ok?
    ensures Covers(Parse(t).value.net, TextAddress(t))
  {
  }

  /** `version`: 4 for a prefix given in IPv4 form, 6 for a native IPv6
      one. */
  function Version(p: Prefix): (v: nat)
    ensures v == 4 || v == 6
    ensures v == 4 <==> p.isV4
  {
    if p.isV4 then 4 else 6
  }

  /** The version reports the family the text was written in: IPv6 text
      gives 6 even when it names an address inside the mapped block. */
  lemma ParseVersion(t: PrefixText)
    requires Parse(t).Ok?
    ensures Version(Parse(t).value) == (if t.V4Text? then 4 else 6)
  {
  }

  /** An IPv4 prefix always lies inside the IPv4-mapped block `::ffff:0:0/96`. */
  lemma Version4IsMapped(p: Prefix)
    requires Valid(p) && Version(p) == 4
    ensures SubnetOf(p.net, Network(MappedBase, 96))
  {
    Pow2Of32();
    Pow2Monotone(128 - p.net.len, 32);
    // the network is aligned to its size and below the block's end
    var top := MappedBase + Two32;
    AlignedWeaken(top, 128 - p.net.len, 32) by {
      ProductIsMultiple(0x1_0000, Two32);
    }
    AlignedBelow(p.net.addr, top, 128 - p.net.len);
  }

  /** Two multiples of `2^k` that are ordered leave a gap of at least `2^k`. */
  lemma AlignedBelow(a: nat, b: nat, k: nat)
    requires a < b
    requires a % Pow2(k) == 0 && b % Pow2(k) == 0
    ensures a + Pow2(k) <= b
  {
    MultipleGap(a, b, Pow2(k));
  }

  /** `prefixlen`, relative to the prefix's own family. */
  function PrefixLen(p: Prefix): (n: int)
    ensures p.isV4 ==> n == p.net.len - 96
    ensures !p.isV4 ==> n == p.net.len
  {
    if p.isV4 then p.net.len - 96 else p.net.len
  }

  /** `num_addresses`: counted in IPv4 space for IPv4 prefixes. */
  function NumAddresses(p: Prefix): nat
    requires Valid(p)
  {
    if p.isV4 then Pow2(32 - PrefixLen(p)) else Pow2(128 - p.net.len)
  }

  /** Counting in IPv4 space gives the same number as the stored IPv6
      network, and an IPv4 prefix never holds more than 2^32 addresses. */
  lemma NumAddressesFamilyIndependent(p: Prefix)
    requires Valid(p)
    ensures NumAddresses(p) == Pow2(128 - p.net.len)
    ensures p.isV4 ==> NumAddresses(p) <= Two32
    ensures NumAddresses(p) == 1 <==> p.net.len == 128
  {
    if p.isV4 {
      Pow2Of32();
      Pow2Monotone(128 - p.net.len, 32);
    }
    if p.net.len < 128 {
      Pow2Monotone(1, 128 - p.net.len);
    }
  }

  /** `__eq__` and `__hash__`: only the stored IPv6 network matters. */
  predicate Eq(p: Prefix, q: Prefix) {
    p.net == q.net
  }

  /** The ordering of IPv6 networks: by network address, then by length. */
  predicate NetLess(a: Network, b: Network) {
    a.addr < b.addr || (a.addr == b.addr && a.len < b.len)
  }

  /** `__lt__`. */
  predicate Less(p: Prefix, q: Prefix) {
    NetLess(p.net, q.net)
  }

  /** `__lt__` is a strict total order on prefixes up to `__eq__`. */
  lemma LessIsStrictTotalOrder(p: Prefix, q: Prefix, s: Prefix)
    ensures !Less(p, p)
    ensures Less(p, q) ==> !Less(q, p)
    ensures Less(p, q) && Less(q, s) ==> Less(p, s)
    ensures Less(p, q) || Less(q, p) || Eq(p, q)
    ensures Eq(p, q) ==> (Less(p, s) <==> Less(q, s))
  {
  }

  /** The same prefix written as IPv4 and as IPv6 compares equal although its
      version and family-relative length differ. */
  lemma EqIgnoresFamily()
    ensures Parse(V4Text(0x0102_0300, 24)).Ok?
    ensures Parse(V6Text(0xffff_0102_0300, 120)).Ok?
    ensures Eq(Parse(V4Text(0x0102_0300, 24)).value, Parse(V6Text(0xffff_0102_0300, 120)).value)
    ensures Version(Parse(V4Text(0x0102_0300, 24)).value) != Version(Parse(V6Text(0xffff_0102_0300, 120)).value)
    ensures PrefixLen(Parse(V4Text(0x0102_0300, 24)).value) != PrefixLen(Parse(V6Text(0xffff_0102_0300, 120)).value)
  {
    Pow2Values();
    Pow2Of8();
    ClearLowAligned(0x0102_0300, 8);
    ClearLowAligned(0xffff_0102_0300, 8);
    MapV4Inverse(0x0102_0300);
  }

  /** The IPv6 address `x` lies in network `n`. */
  predicate Covers(n: Network, x: nat) {
    n.addr <= x < n.addr + Pow2(128 - n.len)
  }

  /** `subnet_of`: `a`'s first and last addresses both lie in `b`. */
  predicate SubnetOf(a: Network, b: Network) {
    b.addr <= a.addr && a.addr + Pow2(128 - a.len) <= b.addr + Pow2(128 - b.len)
  }

  /** `supernet_of`. */
  predicate SupernetOf(a: Network, b: Network) {
    SubnetOf(b, a)
  }

  /** `x in p`: `x` is a subnet of `p` or equal to it. */
  predicate Contains(p: Prefix, x: Prefix) {
    SubnetOf(x.net, p.net) || x.net == p.net
  }

  /** `subnet_of` is exactly inclusion of address sets. */
  lemma SubnetOfIsInclusion(a: Network, b: Network)
    requires a.len <= 128 && b.len <= 128
    ensures SubnetOf(a, b) <==> (forall x :: Covers(a, x) ==> Covers(b, x))
  {
    if forall x :: Covers(a, x) ==> Covers(b, x) {
      assert Covers(a, a.addr);
      assert Covers(a, a.addr + Pow2(128 - a.len) - 1);
    }
  }

  /** Containment is reflexive and transitive, and it agrees with
      `supernet_of`. */
  lemma ContainsIsPreorder(p: Prefix, q: Prefix, s: Prefix)
    ensures Contains(p, p)
    ensures Contains(p, q) && Contains(q, s) ==> Contains(p, s)
    ensures Contains(p, q) <==> SupernetOf(p.net, q.net)
  {
  }

  /** A contained prefix is at least as long as its container. */
  lemma ContainsLonger(p: Prefix, x: Prefix)
    requires ValidNetwork(p.net) && ValidNetwork(x.net)
    requires Contains(p, x)
    ensures p.net.len <= x.net.len
  {
    if x.net.len < p.net.len {
      Pow2Monotone(128 - p.net.len + 1, 128 - x.net.len);
    }
  }
}
