/** Parsing of IP packets: the flow key, the transport layout with the IPv6
    extension-header walk (section 4 of RFC 8200), fragmentation and checksum validation. */
module Packet {
  import opened Core
  import opened Checksum

  const PROTO_HOP_BY_HOP: Byte := 0
  const PROTO_ICMP: Byte := 1
  const PROTO_TCP: Byte := 6
  const PROTO_UDP: Byte := 17
  const PROTO_ROUTING: Byte := 43
  const PROTO_FRAGMENT: Byte := 44
  const PROTO_ESP: Byte := 50
  const PROTO_AH: Byte := 51
  const PROTO_ICMPV6: Byte := 58
  const PROTO_NO_NEXT_HEADER: Byte := 59
  const PROTO_DESTINATION_OPTIONS: Byte := 60

  datatype TransportProtocol = Tcp | Udp | Icmp | Icmpv6

  type Ipv4Addr = s: Bytes | |s| == 4 witness [0, 0, 0, 0]
  type Ipv6Addr = s: Bytes | |s| == 16 witness [0, 0, 0, 0, 0, 0, 0, 0, 0, 0, 0, 0, 0, 0, 0, 0]

  datatype IpAddr = V4(octets4: Ipv4Addr) | V6(octets6: Ipv6Addr) {
    function Octets(): (r: Bytes)
      ensures |r| == if V4? then 4 else 16
    {
      match this case V4(o) => o case V6(o) => o
    }
  }

  datatype FlowKey = FlowKey(
    source: IpAddr,
    destination: IpAddr,
    sourcePort: U16,
    destinationPort: U16,
    protocol: TransportProtocol)
  {
    function Reverse(): FlowKey {
      FlowKey(destination, source, destinationPort, sourcePort, protocol)
    }

    predicate IsIcmp() {
      protocol.Icmp? || protocol.Icmpv6?
    }

    /** Both addresses belong to one IP version. */
    predicate OneFamily() {
      source.V4? == destination.V4?
    }
  }

  datatype PacketError =
    | TruncatedIpHeader
    | InvalidIpLength
    | TruncatedTransportHeader
    | UnsupportedIpVersion(version: Byte)
    | UnsupportedProtocol(protocol: Byte)
    | UnsupportedIcmpType(icmpType: Byte)
    | NonInitialFragment
    | ExtensionHeaderChainTooLong
    | InvalidTranslation
    | InvalidIpChecksum
    | InvalidTransportChecksum
    | HopLimitExceeded

  /** The result of `transport_metadata`. */
  datatype Meta = Meta(v4: bool, protocol: Byte, offset: nat, total: nat)

  function Version(p: Bytes): (r: Byte)
    requires |p| > 0
  {
    p[0] / 16
  }

  predicate IsOptionHeader(next: Byte) {
    next == PROTO_HOP_BY_HOP || next == PROTO_ROUTING || next == PROTO_DESTINATION_OPTIONS
  }

  /** Length in bytes of an extension header whose length octet is `len`. */
  function ExtensionLength(next: Byte, len: Byte): (r: nat) {
    if next == PROTO_AH then (len + 2) * 4 else (len + 1) * 8
  }

  /** `ipv6_transport_offset` with `hops` headers still allowed. */
  function Ipv6TransportOffset(p: Bytes, total: nat, next: Byte, offset: nat, hops: nat)
    : (r: Result<(Byte, nat), PacketError>)
    ensures r.Ok? && offset <= total ==> offset <= r.value.1 <= total
    decreases hops
  {
    if hops == 0 then Err(ExtensionHeaderChainTooLong)
    else if IsOptionHeader(next) || next == PROTO_AH then
      if offset + 2 > |p| then Err(TruncatedTransportHeader)
      else
        var end := offset + ExtensionLength(next, p[offset + 1]);
        if end > total then Err(TruncatedTransportHeader)
        else Ipv6TransportOffset(p, total, p[offset], end, hops - 1)
    else if next == PROTO_FRAGMENT then
      if offset + 8 > |p| then Err(TruncatedTransportHeader) else Err(NonInitialFragment)
    else if next == PROTO_ESP || next == PROTO_NO_NEXT_HEADER then Err(UnsupportedProtocol(next))
    else Ok((next, offset))
  }

  /** The extension-header loop of `ipv6_transport_offset`. */
  method WalkExtensionHeaders(p: Bytes, total: nat, nextHeader: Byte, start: nat)
    returns (r: Result<(Byte, nat), PacketError>)
    ensures r == Ipv6TransportOffset(p, total, nextHeader, start, 8)
  {
    var next: Byte, offset: nat := nextHeader, start;
    for i := 0 to 8
      invariant Ipv6TransportOffset(p, total, nextHeader, start, 8)
             == Ipv6TransportOffset(p, total, next, offset, 8 - i)
    {
      if IsOptionHeader(next) || next == PROTO_AH {
        if offset + 2 > |p| { return Err(TruncatedTransportHeader); }
        var end := offset + ExtensionLength(next, p[offset + 1]);
        if end > total { return Err(TruncatedTransportHeader); }
        next, offset := p[offset], end;
      } else if next == PROTO_FRAGMENT {
        if offset + 8 > |p| { return Err(TruncatedTransportHeader); }
        return Err(NonInitialFragment);
      } else if next == PROTO_ESP || next == PROTO_NO_NEXT_HEADER {
        return Err(UnsupportedProtocol(next));
      } else {
        return Ok((next, offset));
      }
    }
    r := Err(ExtensionHeaderChainTooLong);
  }

  /** `ipv6_has_fragment_header` with `hops` headers still allowed. */
  function Ipv6HasFragmentHeader(p: Bytes, total: nat, next: Byte, offset: nat, hops: nat)
    : (r: Result<bool, PacketError>)
    decreases hops
  {
    if hops == 0 then Err(ExtensionHeaderChainTooLong)
    else if IsOptionHeader(next) || next == PROTO_AH then
      if offset + 2 > |p| then Err(TruncatedTransportHeader)
      else
        var end := offset + ExtensionLength(next, p[offset + 1]);
        if end > total then Err(TruncatedTransportHeader)
        else Ipv6HasFragmentHeader(p, total, p[offset], end, hops - 1)
    else Ok(next == PROTO_FRAGMENT)
  }

  function TransportMetadata(p: Bytes): (r: Result<Meta, PacketError>)
    ensures r.Ok? ==>
      && (if r.value.v4 then 20 else 40) <= |p|
      && Version(p) == (if r.value.v4 then 4 else 6)
      && (r.value.v4 ==> 20 <= r.value.offset <= 60 && r.value.offset % 4 == 0)
      && r.value.offset <= r.value.total <= |p| && r.value.total <= 65575
      && (!r.value.v4 ==> 40 <= r.value.offset)
  {
    if |p| == 0 then Err(TruncatedIpHeader)
    else if Version(p) == 4 then
      if |p| < 20 then Err(TruncatedIpHeader)
      else
        var headerLen := p[0] % 16 * 4;
        if headerLen < 20 || |p| < headerLen then Err(TruncatedIpHeader)
        else
          var total := WordAt(p, 2);
          if total < headerLen || total > |p| then Err(InvalidIpLength)
          else Ok(Meta(true, p[9], headerLen, total))
    else if Version(p) == 6 then
      if |p| < 40 then Err(TruncatedIpHeader)
      else
        var total := 40 + WordAt(p, 4);
        if total > |p| then Err(InvalidIpLength)
        else
          match Ipv6TransportOffset(p, total, p[6], 40, 8)
          case Err(e) => Err(e)
          case Ok((protocol, offset)) => Ok(Meta(false, protocol, offset, total))
    else Err(UnsupportedIpVersion(Version(p)))
  }

  // ---- Which header is the transport header ----

  /** A header of the given kind at `at.1` is a skippable extension header that leads to `next`. */
  ghost predicate Leads(p: Bytes, total: nat, at: (Byte, nat), next: (Byte, nat)) {
    && (IsOptionHeader(at.0) || at.0 == PROTO_AH) && at.1 + 2 <= |p|
    && next.0 == p[at.1] && next.1 == at.1 + ExtensionLength(at.0, p[at.1 + 1]) && next.1 <= total
  }

  /** A kind the walk stops at: no extension header, no fragment and not "no next header". */
  predicate EndsChain(kind: Byte) {
    && !IsOptionHeader(kind)
    && kind !in {PROTO_AH, PROTO_FRAGMENT, PROTO_ESP, PROTO_NO_NEXT_HEADER}
  }

  /** The headers from the first to the transport header, each leading to the next. */
  ghost predicate Chain(p: Bytes, total: nat, headers: seq<(Byte, nat)>) {
    && |headers| > 0 && EndsChain(headers[|headers| - 1].0)
    && forall i :: 0 <= i < |headers| - 1 ==> Leads(p, total, headers[i], headers[i + 1])
  }

  ghost predicate ChainBetween(p: Bytes, total: nat, first: (Byte, nat), last: (Byte, nat), most: nat) {
    exists headers :: Chain(p, total, headers) && 0 < |headers| <= most && headers[0] == first
        && headers[|headers| - 1] == last
  }

  lemma {:induction false} WalkChains(p: Bytes, total: nat, next: Byte, offset: nat, hops: nat)
          returns (headers: seq<(Byte, nat)>)
    requires Ipv6TransportOffset(p, total, next, offset, hops).Ok?
    ensures Chain(p, total, headers) && |headers| <= hops && headers[0] == (next, offset)
    ensures headers[|headers| - 1] == Ipv6TransportOffset(p, total, next, offset, hops).value
    decreases hops
  {
    if IsOptionHeader(next) || next == PROTO_AH {
      var end := offset + ExtensionLength(next, p[offset + 1]);
      var rest := WalkChains(p, total, p[offset], end, hops - 1);
      headers := [(next, offset)] + rest;
      assert Leads(p, total, (next, offset), rest[0]);
      forall i | 0 <= i < |headers| - 1 ensures Leads(p, total, headers[i], headers[i + 1]) {
        if i > 0 { assert Leads(p, total, rest[i - 1], rest[i - 1 + 1]); }
      }
    } else {
      headers := [(next, offset)];
    }
  }

  lemma {:induction false} ChainWalks(p: Bytes, total: nat, headers: seq<(Byte, nat)>, hops: nat)
    requires Chain(p, total, headers) && |headers| <= hops
    ensures Ipv6TransportOffset(p, total, headers[0].0, headers[0].1, hops) == Ok(headers[|headers| - 1])
    decreases hops
  {
    if |headers| > 1 {
      assert Leads(p, total, headers[0], headers[1]);
      var rest := headers[1..];
      forall i | 0 <= i < |rest| - 1 ensures Leads(p, total, rest[i], rest[i + 1]) {
        assert Leads(p, total, headers[i + 1], headers[i + 1 + 1]);
      }
      ChainWalks(p, total, rest, hops - 1);
    }
  }

  /** The walk finds the transport header exactly when a chain of at most seven extension headers leads
      to it. */
  lemma {:induction false} WalkIff(p: Bytes, total: nat, next: Byte, offset: nat, hops: nat, last: (Byte, nat))
    ensures Ipv6TransportOffset(p, total, next, offset, hops) == Ok(last) <==> ChainBetween(p, total, (next, offset),
        last, hops)
  {
    hide Ipv6TransportOffset, Chain;
    if Ipv6TransportOffset(p, total, next, offset, hops) == Ok(last) {
      var headers := WalkChains(p, total, next, offset, hops);
    }
    if ChainBetween(p, total, (next, offset), last, hops) {
      var headers :| Chain(p, total, headers) && 0 < |headers| <= hops && headers[0] == (next, offset)
          && headers[|headers| - 1] == last;
      ChainWalks(p, total, headers, hops);
    }
  }

  /** A packet has a layout exactly when it is a whole IPv4 packet with a whole header, or a whole IPv6
      packet in which at most seven extension headers lead to a transport header. */
  lemma {:induction false} LayoutIff(p: Bytes, m: Meta)
    ensures TransportMetadata(p) == Ok(m) <==>
      && |p| >= (if m.v4 then 20 else 40) && Version(p) == (if m.v4 then 4 else 6) && m.total <= |p|
      && (if m.v4 then m.protocol == p[9] && m.offset == p[0] % 16 * 4 && 20 <= m.offset <= m.total == WordAt(p, 2)
          else m.total == 40 + WordAt(p, 4) && ChainBetween(p, m.total, (p[6], 40), (m.protocol, m.offset), 8))
  {
    hide Ipv6TransportOffset, ChainBetween;
    if |p| >= 40 && Version(p) == 6 {
      WalkIff(p, 40 + WordAt(p, 4), p[6], 40, 8, (m.protocol, m.offset));
    }
  }

  /** IPv4 more-fragments flag and fragment offset; the do-not-fragment bit is ignored. */
  predicate Ipv4Fragmented(p: Bytes)
    requires 8 <= |p|
  {
    WordAt(p, 6) % 0x4000 != 0
  }

  function SourceOf(p: Bytes, v4: bool): (r: IpAddr)
    requires |p| >= if v4 then 20 else 40
  {
    if v4 then V4(p[12..16]) else V6(p[8..24])
  }

  function DestinationOf(p: Bytes, v4: bool): (r: IpAddr)
    requires |p| >= if v4 then 20 else 40
  {
    if v4 then V4(p[16..20]) else V6(p[24..40])
  }

  predicate SupportedIcmp(protocol: TransportProtocol, messageType: Byte, code: Byte) {
    && (protocol.Icmp? ==> messageType == 0 || messageType == 8)
    && (protocol.Icmpv6? ==> messageType == 128 || messageType == 129)
    && code == 0
  }

  function BuildFlowKey(source: IpAddr, destination: IpAddr, protocol: Byte, t: Bytes)
    : (r: Result<FlowKey, PacketError>)
    ensures r.Ok? ==> |t| >= 8 && (protocol == PROTO_TCP ==> |t| >= 20)
    ensures r.Ok? ==> r.value.source == source && r.value.destination == destination
  {
    if protocol == PROTO_TCP then
      if |t| < 20 then Err(TruncatedTransportHeader)
      else
        var headerLen := t[12] / 16 * 4;
        if headerLen < 20 || headerLen > |t| then Err(TruncatedTransportHeader)
        else Ok(FlowKey(source, destination, WordAt(t, 0), WordAt(t, 2), Tcp))
    else if protocol == PROTO_UDP then
      if |t| < 8 then Err(TruncatedTransportHeader)
      else if WordAt(t, 4) < 8 || WordAt(t, 4) != |t| then Err(InvalidIpLength)
      else Ok(FlowKey(source, destination, WordAt(t, 0), WordAt(t, 2), Udp))
    else if protocol == PROTO_ICMP || protocol == PROTO_ICMPV6 then
      if |t| < 8 then Err(TruncatedTransportHeader)
      else
        var kind := if protocol == PROTO_ICMP then Icmp else Icmpv6;
        if !SupportedIcmp(kind, t[0], t[1]) then Err(UnsupportedIcmpType(t[0]))
        else Ok(FlowKey(source, destination, WordAt(t, 4), WordAt(t, 0), kind))
    else Err(UnsupportedProtocol(protocol))
  }

  function ParseFlowKey(p: Bytes): (r: Result<FlowKey, PacketError>) {
    match TransportMetadata(p)
    case Err(e) => Err(e)
    case Ok(m) =>
      if m.v4 && Ipv4Fragmented(p) then Err(NonInitialFragment)
      else BuildFlowKey(SourceOf(p, m.v4), DestinationOf(p, m.v4), m.protocol, p[m.offset..m.total])
  }

  function IsFragmented(p: Bytes): (r: Result<bool, PacketError>) {
    if |p| == 0 then Err(TruncatedIpHeader)
    else if Version(p) == 4 then
      match TransportMetadata(p)
      case Err(e) => Err(e)
      case Ok(m) => Ok(Ipv4Fragmented(p))
    else if Version(p) == 6 then
      if |p| < 40 then Err(TruncatedIpHeader)
      else if 40 + WordAt(p, 4) > |p| then Err(InvalidIpLength)
      else Ipv6HasFragmentHeader(p, 40 + WordAt(p, 4), p[6], 40, 8)
    else Err(UnsupportedIpVersion(Version(p)))
  }

  /** Offset of the checksum field inside the transport header. */
  function ChecksumOffset(protocol: Byte): (r: Result<nat, PacketError>)
  {
    if protocol == PROTO_TCP then Ok(16)
    else if protocol == PROTO_UDP then Ok(6)
    else if protocol == PROTO_ICMP || protocol == PROTO_ICMPV6 then Ok(2)
    else Err(UnsupportedProtocol(protocol))
  }

  /** What the transport checksum covers besides the transport bytes: nothing for ICMP over
      IPv4, otherwise the pseudo-header (section 8.1 of RFC 8200 for IPv6). */
  function PseudoSum(p: Bytes, m: Meta): (r: nat)
    requires |p| >= if m.v4 then 20 else 40
    requires m.offset <= m.total
  {
    var len := m.total - m.offset;
    if m.v4 then
      if m.protocol == PROTO_ICMP then 0 else Sum(p[12..20]) + m.protocol + len
    else
      Sum(p[8..40]) + (len / 65536 + len % 65536) + m.protocol
  }

  function ValidateUdpLayout(p: Bytes, m: Meta): (r: Result<nat, PacketError>)
    ensures r.Ok? ==> 8 <= r.value && m.offset + r.value == m.total <= |p| && r.value == WordAt(p, m.offset + 4)
  {
    if m.offset + 8 > |p| then Err(TruncatedTransportHeader)
    else
      var udpLen := WordAt(p, m.offset + 4);
      if udpLen < 8 || m.offset + udpLen != m.total || m.total > |p| then Err(InvalidIpLength)
      else Ok(udpLen)
  }

  function ValidateChecksums(p: Bytes): (r: Result<(), PacketError>) {
    match TransportMetadata(p)
    case Err(e) => Err(e)
    case Ok(m) =>
      if m.protocol == PROTO_UDP && ValidateUdpLayout(p, m).Err? then
        Err(ValidateUdpLayout(p, m).error)
      else if m.v4 && InternetChecksum(p[..m.offset]) != 0 then Err(InvalidIpChecksum)
      else if !m.v4 && ChecksumOffset(m.protocol).Err? then Err(ChecksumOffset(m.protocol).error)
      else if m.protocol == PROTO_UDP && WordAt(p, m.offset + 6) == 0 then
        if m.v4 then Ok(()) else Err(InvalidTransportChecksum)
      else if Finish(PseudoSum(p, m) + Sum(p[m.offset..m.total])) == 0 then Ok(())
      else Err(InvalidTransportChecksum)
  }

  function UdpPayload(p: Bytes): (r: Result<Bytes, PacketError>) {
    match TransportMetadata(p)
    case Err(e) => Err(e)
    case Ok(m) =>
      if m.protocol != PROTO_UDP then Err(UnsupportedProtocol(m.protocol))
      else
        match ValidateUdpLayout(p, m)
        case Err(e) => Err(e)
        case Ok(udpLen) => Ok(p[m.offset + 8..m.total])
  }

  function ParseTcpFlags(p: Bytes): (r: Result<Option<Byte>, PacketError>) {
    match TransportMetadata(p)
    case Err(e) => Err(e)
    case Ok(m) =>
      if m.protocol != PROTO_TCP then Ok(None)
      else if m.offset + 20 > |p| then Err(TruncatedTransportHeader)
      else
        var headerLen := p[m.offset + 12] / 16 * 4;
        if headerLen < 20 || m.offset + headerLen > m.total then Err(TruncatedTransportHeader)
        else Ok(Some(p[m.offset + 13]))
  }
}
