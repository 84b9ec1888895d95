/** The two classifiers of one policy: the XDP program in the kernel, which passes, drops or
    redirects a frame, and the user-space IO worker, which handles every redirected frame. */
module Classifier {
  import opened Core
  import opened Packet
  import opened DnsFlow
  import opened Lpm
  import Nat
  import Dcid

  const ETH_LEN: nat := 14
  const ETH_P_IPV4: U16 := 0x0800
  const ETH_P_IPV6: U16 := 0x86dd
  const DNS_PORT: U16 := 53

  // ---- Configuration ----

  datatype Policy = TunnelPrefixes(prefixes: seq<Prefix>) | DirectPrefixes(prefixes: seq<Prefix>)

  datatype Dns = Dns(listen: SocketAddr, localResolver: SocketAddr)

  /** One interface of the appliance: its roles, whether it owns the DNS listener, and the shared
      configuration. The tunnel interface has exactly one local address of the peer's family. */
  datatype Appliance = Appliance(
    client: bool,
    tunnel: bool,
    intercept: bool,
    ownsDns: bool,
    tunnelPort: U16,
    tunnelLocal: IpAddr,
    peer: IpAddr,
    nat4: Option<Ipv4Addr>,
    nat6: Option<Ipv6Addr>,
    natStart: U16,
    natEnd: U16,
    dns: Option<Dns>,
    policy: Policy,
    dcidLen: nat,
    workers: nat)
  {
    /** What the configuration parser and `validate_dns_runtime_addresses` establish. */
    predicate Valid() {
      && natStart <= natEnd
      && (dns.Some? ==>
            && client && dns.value.listen.port == DNS_PORT
            && dns.value.listen.ip.V4? == dns.value.localResolver.ip.V4?
            && dns.value.listen.ip != tunnelLocal && dns.value.listen.ip !in NatAddresses())
    }

    predicate DnsHere() {
      intercept && ownsDns && dns.Some?
    }

    /** `nat_return_ips`. */
    function NatAddresses(): seq<IpAddr> {
      (if nat4.Some? then [V4(nat4.value)] else []) + (if nat6.Some? then [V6(nat6.value)] else [])
    }

    /** The NAT address of the local resolver's family. */
    function LocalNat(): Option<IpAddr> {
      if !DnsHere() then None
      else if dns.value.localResolver.ip.V4? then (if nat4.Some? then Some(V4(nat4.value)) else None)
      else (if nat6.Some? then Some(V6(nat6.value)) else None)
    }

    /** `xdp_forced_local_ips`. */
    function ForcedLocal(): seq<IpAddr> {
      [tunnelLocal, peer] + (if dns.Some? then [dns.value.listen.ip] else [])
    }

    /** `nat_host_prefixes`. */
    function NatPrefixes(): seq<Prefix> {
      seq(|NatAddresses()|, i requires 0 <= i < |NatAddresses()| =>
          Prefix(NatAddresses()[i].V4?, AddrBits(NatAddresses()[i])))
    }

    /** The policy in force: a server intercepts what comes back to its NAT addresses. */
    function InForce(): Policy {
      if client then policy else TunnelPrefixes(NatPrefixes())
    }

    function KernelTable(v4: bool): Table {
      PolicyTable(InForce().prefixes, if InForce().TunnelPrefixes? then Redirect
          else Lpm.Pass, ForcedLocal(), NatAddresses(), v4)
    }
  }

  // ---- Public addresses ----

  /** `is_public_v4` and `is_public_v6` of the XDP program, on bytes. */
  predicate KernelPublic(ip: IpAddr) {
    match ip
    case V4(o) =>
      var (a, b, c) := (o[0], o[1], o[2]);
      && !(a == 0 || a == 10 || a == 127 || a >= 224)
      && !(a == 100 && 64 <= b <= 127)
      && !(a == 169 && b == 254)
      && !(a == 172 && 16 <= b <= 31)
      && !(a == 192 && b == 168)
      && !(a == 192 && b == 0 && (c == 0 || c == 2))
      && !(a == 192 && b == 31 && c == 196)
      && !(a == 192 && b == 52 && c == 193)
      && !(a == 192 && b == 88 && c == 99)
      && !(a == 192 && b == 175 && c == 48)
      && !(a == 198 && (b == 18 || b == 19))
      && !(a == 198 && b == 51 && c == 100)
      && !(a == 203 && b == 0 && c == 113)
      && o != [255, 255, 255, 255]
    case V6(o) =>
      && !AllZero(o, 0, 16)
      && !(AllZero(o, 0, 15) && o[15] == 1)
      && o[0] != 0xff
      && !(o[0] == 0xfe && o[1] / 64 == 2)
      && !(o[0] == 0xfe && o[1] / 64 == 3)
      && o[0] / 2 != 0x7e
      && !(AllZero(o, 0, 10) && o[10] == 0xff && o[11] == 0xff)
      && !(o[0] == 0x01 && o[1] == 0x00 && AllZero(o, 2, 8))
      && !(o[0] == 0x20 && o[1] == 0x01 && o[2] == 0x0d && o[3] == 0xb8)
      && !(o[0] == 0x20 && o[1] == 0x01 && o[2] == 0x00 && o[3] == 0x02 && o[4] == 0 && o[5] == 0)
  }

  predicate AllZero(o: Bytes, from: nat, to: nat)
    requires from <= to <= |o|
  {
    forall i :: from <= i < to ==> o[i] == 0
  }

  /** `is_public_destination`, on octets and 16-bit segments. */
  predicate UserPublic(ip: IpAddr) {
    match ip
    case V4(o) =>
      var (a, b, c) := (o[0], o[1], o[2]);
      && a != 0
      && a != 127
      && !(a == 10 || (a == 172 && 16 <= b <= 31) || (a == 192 && b == 168))
      && !(a == 169 && b == 254)
      && !(224 <= a <= 239)
      && o != [255, 255, 255, 255]
      && !(a == 100 && 64 <= b <= 127)
      && !(a == 192 && b == 0 && c == 0)
      && !(a == 192 && b == 0 && c == 2)
      && !(a == 192 && b == 31 && c == 196)
      && !(a == 192 && b == 52 && c == 193)
      && !(a == 192 && b == 88 && c == 99)
      && !(a == 192 && b == 175 && c == 48)
      && !(a == 198 && (b == 18 || b == 19))
      && !(a == 198 && b == 51 && c == 100)
      && !(a == 203 && b == 0 && c == 113)
      && a < 240
    case V6(o) =>
      var s := Segments(o);
      && s != [0, 0, 0, 0, 0, 0, 0, 0]
      && s != [0, 0, 0, 0, 0, 0, 0, 1]
      && s[0] / 256 != 0xff
      && s[0] / 64 != 0x3fa
      && s[0] / 64 != 0x3fb
      && s[0] / 512 != 0x7e
      && !(s[0] == 0 && s[1] == 0 && s[2] == 0 && s[3] == 0 && s[4] == 0 && s[5] == 0xffff)
      && !(s[0] == 0x0100 && s[1] == 0 && s[2] == 0 && s[3] == 0)
      && !(s[0] == 0x2001 && s[1] == 0x0db8)
      && !(s[0] == 0x2001 && s[1] == 0x0002 && s[2] == 0)
  }

  function Segments(o: Ipv6Addr): (r: seq<U16>)
    ensures |r| == 8
  {
    [WordAt(o, 0), WordAt(o, 2), WordAt(o, 4), WordAt(o, 6), WordAt(o, 8), WordAt(o, 10), WordAt(o, 12), WordAt(o, 14)]
  }

  /** The two notions of a public destination are the same. */
  lemma {:induction false} PublicAgrees(ip: IpAddr)
    ensures KernelPublic(ip) <==> UserPublic(ip)
  {
    if ip.V6? {
      var o := ip.octets6;
      var s := Segments(o);
      assert AllZero(o, 0, 16) <==> s == [0, 0, 0, 0, 0, 0, 0, 0];
      assert AllZero(o, 0, 15) && o[15] == 1 <==> s == [0, 0, 0, 0, 0, 0, 0, 1];
      assert AllZero(o, 0, 10) <==> s[0] == 0 && s[1] == 0 && s[2] == 0 && s[3] == 0 && s[4] == 0;
      assert AllZero(o, 2, 8) <==> s[1] == 0 && s[2] == 0 && s[3] == 0;
    }
  }

  // ---- Headers ----

  /** What the kernel knows of a packet: `frag` is 0 for a whole packet, 1 for a first fragment and 2
      for a later one. */
  datatype Header = Header(source: IpAddr, destination: IpAddr, protocol: Byte, offset: nat, total: nat, frag: nat)

  function KernelV4(p: Bytes): (r: Option<Header>) {
    if |p| < 20 then None
    else
      var length := (p[0] % 16) * 4;
      var total := WordAt(p, 2);
      if p[0] / 16 != 4 || length < 20 || length > |p| || total < length || total > |p| then None
      else
        var frag := if WordAt(p, 6) % 0x2000 != 0 then 2 else if WordAt(p, 6) % 0x4000 != 0 then 1 else 0;
        Some(Header(V4(p[12..16]), V4(p[16..20]), p[9], length, total, frag))
  }

  /** The fragment state after a fragment header: 2 with an offset, 1 as the first of more. */
  function FragmentState(word: U16, frag: nat): (r: nat) {
    if word / 8 != 0 then 2 else if word % 2 == 1 then 1 else frag
  }

  /** `ipv6_transport_header`: protocol, offset, payload left and fragment state. */
  function KernelWalk(p: Bytes, next: Byte, offset: nat, left: nat, frag: nat, hops: nat)
    : (r: Option<(Byte, nat, nat, nat)>)
    decreases hops
  {
    if hops == 0 then None
    else if IsOptionHeader(next) || next == PROTO_AH then
      if offset + 2 > |p| then None
      else
        var length := ExtensionLength(next, p[offset + 1]);
        if length > left || offset + length > |p| then None
        else KernelWalk(p, p[offset], offset + length, left - length, frag, hops - 1)
    else if next == PROTO_FRAGMENT then
      if left < 8 || offset + 8 > |p| then None
      else
        var word := WordAt(p, offset + 2);
        KernelWalk(p, p[offset], offset + 8, left - 8, FragmentState(word, frag), hops - 1)
    else Some((next, offset, left, frag))
  }

  function KernelV6(p: Bytes): (r: Option<Header>) {
    if |p| < 40 || p[0] / 16 != 6 || 40 + WordAt(p, 4) > |p| then None
    else
      match KernelWalk(p, p[6], 40, WordAt(p, 4), 0, 8)
      case None => None
      case Some((protocol, offset, left, frag)) =>
        Some(Header(V6(p[8..24]), V6(p[24..40]), protocol, offset, offset + left, frag))
  }

  function KernelHeader(v4: bool, p: Bytes): Option<Header> {
    if v4 then KernelV4(p) else KernelV6(p)
  }

  /** `ParsedIpFrame`. */
  datatype Parsed = Parsed(ipPacket: Bytes, source: IpAddr, destination: IpAddr, protocol: Byte, offset: nat,
      fragmented: bool)

  function UserV4(p: Bytes): (r: Option<Parsed>) {
    if |p| < 20 || p[0] / 16 != 4 then None
    else
      var length := (p[0] % 16) * 4;
      var total := WordAt(p, 2);
      if length < 20 || total < length || |p| < total then None
      else Some(Parsed(p[..total], V4(p[12..16]), V4(p[16..20]), p[9], length, WordAt(p, 6) % 0x4000 != 0))
  }

  /** `ipv6_transport_offset` of the IO worker, which walks past fragment headers. */
  function UserWalk(p: Bytes, total: nat, next: Byte, offset: nat, fragmented: bool, hops: nat)
    : (r: Option<(Byte, nat, bool)>)
    decreases hops
  {
    if hops == 0 then None
    else if IsOptionHeader(next) || next == PROTO_AH then
      if offset + 2 > |p| then None
      else
        var end := offset + ExtensionLength(next, p[offset + 1]);
        if end > total then None else UserWalk(p, total, p[offset], end, fragmented, hops - 1)
    else if next == PROTO_FRAGMENT then
      if offset + 8 > |p| || offset + 8 > total then None else UserWalk(p, total, p[offset], offset + 8, true, hops - 1)
    else Some((next, offset, fragmented))
  }

  function UserV6(p: Bytes): (r: Option<Parsed>) {
    if |p| < 40 || p[0] / 16 != 6 || 40 + WordAt(p, 4) > |p| then None
    else
      var total := 40 + WordAt(p, 4);
      match UserWalk(p, total, p[6], 40, false, 8)
      case None => None
      case Some((protocol, offset, fragmented)) =>
          Some(Parsed(p[..total], V6(p[8..24]), V6(p[24..40]), protocol, offset, fragmented))
  }

  function UserHeader(v4: bool, p: Bytes): Option<Parsed> {
    if v4 then UserV4(p) else UserV6(p)
  }

  /** The loop of the kernel's walk. */
  method KernelWalkLoop(p: Bytes, start: Byte, from: nat, payload: nat) returns (r: Option<(Byte, nat, nat, nat)>)
    ensures r == KernelWalk(p, start, from, payload, 0, 8)
  {
    hide FragmentState, ExtensionLength, Be16;
    var next: Byte, offset: nat, left: nat, frag: nat := start, from, payload, 0;
    for i := 0 to 8
      invariant KernelWalk(p, start, from, payload, 0, 8) == KernelWalk(p, next, offset, left, frag, 8 - i)
    {
      if IsOptionHeader(next) || next == PROTO_AH {
        if offset + 2 > |p| { return None; }
        var length := ExtensionLength(next, p[offset + 1]);
        if length > left || offset + length > |p| { return None; }
        next, offset, left := p[offset], offset + length, left - length;
      } else if next == PROTO_FRAGMENT {
        if left < 8 || offset + 8 > |p| { return None; }
        var word := WordAt(p, offset + 2);
        frag := FragmentState(word, frag);
        next, offset, left := p[offset], offset + 8, left - 8;
      } else {
        return Some((next, offset, left, frag));
      }
    }
    r := None;
  }

  /** The loop of the IO worker's walk. */
  method UserWalkLoop(p: Bytes, total: nat, start: Byte, from: nat) returns (r: Option<(Byte, nat, bool)>)
    ensures r == UserWalk(p, total, start, from, false, 8)
  {
    hide ExtensionLength;
    var next: Byte, offset: nat, fragmented := start, from, false;
    for i := 0 to 8
      invariant UserWalk(p, total, start, from, false, 8) == UserWalk(p, total, next, offset, fragmented, 8 - i)
    {
      if IsOptionHeader(next) || next == PROTO_AH {
        if offset + 2 > |p| { return None; }
        var end := offset + ExtensionLength(next, p[offset + 1]);
        if end > total { return None; }
        next, offset := p[offset], end;
      } else if next == PROTO_FRAGMENT {
        if offset + 8 > |p| || offset + 8 > total { return None; }
        next, offset, fragmented := p[offset], offset + 8, true;
      } else {
        return Some((next, offset, fragmented));
      }
    }
    r := None;
  }

  /** The two extension-header walks agree: both fail or both end at the same header, and whatever the
      kernel sees as a fragment the IO worker does too. */
  lemma {:induction false} WalksAgree(p: Bytes, total: nat, next: Byte, offset: nat, left: nat, frag: nat,
          fragmented: bool, hops: nat)
    requires offset + left == total <= |p| && (frag != 0 ==> fragmented)
    ensures var k := KernelWalk(p, next, offset, left, frag, hops);
        var u := UserWalk(p, total, next, offset, fragmented, hops);
      && (k.None? <==> u.None?)
      && (k.Some? ==>
            && k.value.0 == u.value.0 && k.value.1 == u.value.1 && k.value.1 + k.value.2 == total
            && (k.value.3 != 0 ==> u.value.2))
    decreases hops
  {
    hide FragmentState, ExtensionLength, Be16;
    if hops > 0 {
      if IsOptionHeader(next) || next == PROTO_AH {
        if offset + 2 <= |p| {
          var length := ExtensionLength(next, p[offset + 1]);
          if length <= left { WalksAgree(p, total, p[offset], offset + length, left - length, frag, fragmented,
              hops - 1); }
        }
      } else if next == PROTO_FRAGMENT {
        if left >= 8 && offset + 8 <= |p| {
          var word := WordAt(p, offset + 2);
          WalksAgree(p, total, p[offset], offset + 8, left - 8, FragmentState(word, frag), true, hops - 1);
        }
      }
    }
  }

  /** Both sides accept a header or neither does, and they read the same fields. */
  ghost predicate SameHeader(v4: bool, p: Bytes, k: Option<Header>, u: Option<Parsed>) {
    && (k.None? <==> u.None?)
    && (k.Some? ==>
          && k.value.source == u.value.source && k.value.destination == u.value.destination
              && k.value.protocol == u.value.protocol
          && k.value.offset == u.value.offset && k.value.total <= |p| && u.value.ipPacket == p[..k.value.total]
          && (k.value.frag != 0 ==> u.value.fragmented)
          && k.value.source.V4? == k.value.destination.V4? == v4)
  }

  /** A fragment offset is part of what the IO worker takes for a fragment. */
  lemma FragmentBits(word: U16)
    ensures word % 0x2000 != 0 ==> word % 0x4000 != 0
  {
  }

  lemma {:induction false} HeadersAgreeV4(p: Bytes)
    ensures SameHeader(true, p, KernelV4(p), UserV4(p))
  {
    hide Be16;
    if |p| >= 20 { FragmentBits(WordAt(p, 6)); }
  }

  lemma {:induction false} HeadersAgreeV6(p: Bytes)
    ensures SameHeader(false, p, KernelV6(p), UserV6(p))
  {
    hide KernelWalk, UserWalk, Be16;
    if |p| >= 40 && p[0] / 16 == 6 && 40 + WordAt(p, 4) <= |p| {
      WalksAgree(p, 40 + WordAt(p, 4), p[6], 40, WordAt(p, 4), 0, false, 8);
    }
  }

  /** Both classifiers accept the same headers and read the same fields from them. */
  lemma {:induction false} HeadersAgree(v4: bool, p: Bytes)
    ensures SameHeader(v4, p, KernelHeader(v4, p), UserHeader(v4, p))
  {
    hide SameHeader, KernelV4, KernelV6, UserV4, UserV6;
    if v4 { HeadersAgreeV4(p); } else { HeadersAgreeV6(p); }
  }

  // ---- The XDP program ----

  datatype Verdict = XdpPass | XdpDrop | XdpRedirect

  /** A UDP header inside the packet with a plausible length. */
  predicate UdpFits(p: Bytes, h: Header) {
    h.offset + 8 <= |p| && h.offset <= h.total && 8 <= WordAt(p, h.offset + 4) <= h.total - h.offset
  }

  function Whole(h: Header): (r: Verdict) {
    if h.frag != 0 then XdpDrop else XdpRedirect
  }

  /** `intercept_action_v4` and `intercept_action_v6`. */
  function InterceptAction(c: Appliance, h: Header): (r: Verdict) {
    match Lookup(c.KernelTable(h.destination.V4?), h.destination)
    case Some(Redirect) => Whole(h)
    case Some(_) => XdpPass
    case None => if c.InForce().DirectPrefixes? && KernelPublic(h.destination) then Whole(h) else XdpPass
  }

  predicate KernelLocalResponse(c: Appliance, h: Header) {
    c.LocalNat().Some? && h.source == c.dns.value.localResolver.ip && h.destination == c.LocalNat().value
  }

  /** The classification of a parsed packet; the families differ in when they look at fragments. */
  function XdpDecide(c: Appliance, p: Bytes, h: Header): (r: Verdict) {
    var v4 := h.destination.V4?;
    var udp := h.protocol == PROTO_UDP;
    var tunnelled := c.tunnel && h.destination == c.tunnelLocal;
    if tunnelled && udp && !v4 && h.frag != 0 then XdpDrop
    else if tunnelled && udp && !UdpFits(p, h) then XdpDrop
    else if tunnelled && udp && WordAt(p, h.offset + 2) == c.tunnelPort then XdpRedirect
    else if c.DnsHere() && h.destination == c.dns.value.listen.ip then
      if !udp then XdpPass
      else if h.frag == 2 || !UdpFits(p, h) then XdpDrop
      else if WordAt(p, h.offset + 2) == DNS_PORT then Whole(h)
      else XdpPass
    else if KernelLocalResponse(c, h) && (udp || !v4) && h.frag != 0 then XdpDrop
    else if KernelLocalResponse(c, h) && udp && !UdpFits(p, h) then XdpDrop
    else if KernelLocalResponse(c, h) && udp && WordAt(p, h.offset) == c.dns.value.localResolver.port
            && c.natStart <= WordAt(p, h.offset + 2) <= c.natEnd then XdpRedirect
    else if tunnelled then XdpPass
    else if c.intercept then InterceptAction(c, h)
    else XdpPass
  }

  /** `xdp_filter_prog`. */
  function XdpFilter(c: Appliance, frame: Bytes): (r: Verdict) {
    if !c.tunnel && !c.intercept then XdpPass
    else if |frame| < ETH_LEN then XdpDrop
    else
      var kind := WordAt(frame, 12);
      if kind != ETH_P_IPV4 && kind != ETH_P_IPV6 then XdpPass
      else
        match KernelHeader(kind == ETH_P_IPV4, frame[ETH_LEN..])
        case None => XdpDrop
        case Some(h) => XdpDecide(c, frame[ETH_LEN..], h)
  }

  // ---- The IO worker ----

  /** What becomes of a frame in user space; a full or closed worker queue counts as dropped. */
  datatype Outcome = Passed | Dispatched | Dropped

  datatype Outer = NotOuter | BadOuter | OuterQuic(dcid: Bytes, bootstrap: bool)

  /** `parse_outer_quic`. */
  function ParseOuter(c: Appliance, u: Parsed): (r: Outer) {
    if u.protocol != PROTO_UDP then NotOuter
    else if u.offset + 8 > |u.ipPacket| then BadOuter
    else if WordAt(u.ipPacket, u.offset + 2) != c.tunnelPort then NotOuter
    else
      var length := WordAt(u.ipPacket, u.offset + 4);
      if length < 8 || u.offset + length > |u.ipPacket| then BadOuter
      else
        match Dcid.ParseQuicDcid(u.ipPacket[u.offset + 8..u.offset + length], c.dcidLen)
        case None => BadOuter
        case Some((dcid, bootstrap)) => OuterQuic(dcid, bootstrap)
  }

  function TunnelOutcome(c: Appliance, u: Parsed, ix: Dcid.Index): (r: Outcome) {
    match ParseOuter(c, u)
    case NotOuter => Passed
    case BadOuter => Dropped
    case OuterQuic(dcid, bootstrap) =>
      if Dcid.Resolve(ix, dcid).Some? then Dispatched
      else if bootstrap && Dcid.BootstrapOwner(dcid, c.workers).Ok? then Dispatched
      else Dropped
  }

  /** The first four bytes of the transport header are inside the packet. */
  predicate HasPorts(u: Parsed) {
    u.offset + 4 <= |u.ipPacket|
  }

  predicate IsDnsQuery(c: Appliance, u: Parsed) {
    && c.DnsHere() && u.destination == c.dns.value.listen.ip && u.protocol == PROTO_UDP && HasPorts(u)
    && WordAt(u.ipPacket, u.offset + 2) == c.dns.value.listen.port
  }

  predicate IsLocalResponse(c: Appliance, u: Parsed) {
    && c.LocalNat().Some? && u.source == c.dns.value.localResolver.ip && u.destination == c.LocalNat().value
    && u.protocol == PROTO_UDP && HasPorts(u)
    && WordAt(u.ipPacket, u.offset) == c.dns.value.localResolver.port
    && c.natStart <= WordAt(u.ipPacket, u.offset + 2) <= c.natEnd
  }

  /** `destination_ip`. */
  function DestinationIp(p: Bytes): (r: Option<IpAddr>) {
    if |p| >= 20 && p[0] / 16 == 4 then Some(V4(p[16..20]))
    else if |p| >= 40 && p[0] / 16 == 6 then Some(V6(p[24..40]))
    else None
  }

  /** `intercept_allowed`. */
  ghost predicate InterceptAllowed(c: Appliance, p: Bytes) {
    var d := DestinationIp(p);
    && d.Some?
    && match c.InForce()
       case TunnelPrefixes(prefixes) => AnyContains(prefixes, d.value)
       case DirectPrefixes(prefixes) => UserPublic(d.value) && !AnyContains(prefixes, d.value)
  }

  /** `udp_payload` succeeds. */
  predicate HasPayload(u: Parsed) {
    u.offset + 8 <= |u.ipPacket| && WordAt(u.ipPacket, u.offset + 4) >= 8
        && u.offset + WordAt(u.ipPacket, u.offset + 4) <= |u.ipPacket|
  }

  ghost function InterceptOutcome(c: Appliance, u: Parsed, dir: Nat.Directory): (r: Outcome) {
    var flow := ParseFlowKey(u.ipPacket);
    if IsDnsQuery(c, u) then
      if u.fragmented || flow.Err? || !HasPayload(u) then Dropped else Dispatched
    else if IsLocalResponse(c, u) then
      if u.fragmented || flow.Err? || Nat.Lookup(dir, flow.value).None? then Dropped else Dispatched
    else if flow.Err? then Dropped
    else if Nat.Lookup(dir, flow.value).Some? then Dispatched
    else if u.destination in c.NatAddresses() then Dropped
    else if !InterceptAllowed(c, u.ipPacket) then Passed
    else Dispatched
  }

  /** `handle_frame`. */
  ghost function HandleFrame(c: Appliance, frame: Bytes, ix: Dcid.Index, dir: Nat.Directory): (r: Outcome) {
    if |frame| < ETH_LEN then Dropped
    else
      var kind := WordAt(frame, 12);
      if kind != ETH_P_IPV4 && kind != ETH_P_IPV6 then Dropped
      else
        match UserHeader(kind == ETH_P_IPV4, frame[ETH_LEN..])
        case None => Dropped
        case Some(u) =>
          if c.tunnel && u.destination == c.tunnelLocal then TunnelOutcome(c, u, ix)
          else if !c.intercept then Passed
          else InterceptOutcome(c, u, dir)
  }

  // ---- Agreement ----

  /** A resolver's answer to a NAT address that is also the tunnel's own, on another port than the
      tunnel's: redirected as a DNS answer, but handled as a tunnel packet. */
  predicate StrayAnswer(c: Appliance, p: Bytes, h: Header) {
    && c.tunnel && h.destination == c.tunnelLocal && KernelLocalResponse(c, h)
    && h.protocol == PROTO_UDP && h.frag == 0 && UdpFits(p, h)
    && WordAt(p, h.offset) == c.dns.value.localResolver.port
    && c.natStart <= WordAt(p, h.offset + 2) <= c.natEnd && WordAt(p, h.offset + 2) != c.tunnelPort
  }

  /** What the two sides share of one packet. */
  ghost predicate SamePacket(p: Bytes, h: Header, u: Parsed) {
    && h.source == u.source && h.destination == u.destination && h.protocol == u.protocol && h.offset == u.offset
    && h.total <= |p| && u.ipPacket == p[..h.total] && (h.frag != 0 ==> u.fragmented)
    && h.source.V4? == h.destination.V4?
  }

  lemma SameWord(p: Bytes, total: nat, at: nat)
    requires at + 2 <= total <= |p|
    ensures WordAt(p[..total], at) == WordAt(p, at)
  {
  }

  /** A packet to the tunnel's own address. */
  lemma {:induction false} TunnelAgrees(c: Appliance, p: Bytes, h: Header, u: Parsed, ix: Dcid.Index)
    requires c.Valid() && SamePacket(p, h, u) && c.tunnel && h.destination == c.tunnelLocal
        && XdpDecide(c, p, h) == XdpRedirect
    ensures TunnelOutcome(c, u, ix) == Passed <==> StrayAnswer(c, p, h)
  {
    hide WordAt, KernelPublic, Lookup, Dcid.ParseQuicDcid, Dcid.Resolve, Dcid.BootstrapOwner;
    assert h.protocol == PROTO_UDP && UdpFits(p, h);
    SameWord(p, h.total, h.offset + 2);
    SameWord(p, h.total, h.offset + 4);
  }

  lemma {:induction false} DestinationAgrees(v4: bool, p: Bytes)
    requires UserHeader(v4, p).Some?
    ensures DestinationIp(UserHeader(v4, p).value.ipPacket) == Some(UserHeader(v4, p).value.destination)
  {
    hide UserWalk;
    if v4 {
      var total := WordAt(p, 2);
      assert p[..total][16..20] == p[16..20];
    } else {
      var total := 40 + WordAt(p, 4);
      assert p[..total][24..40] == p[24..40];
    }
  }

  /** A packet the policy tables redirect is one the IO worker's policy allows or drops. */
  lemma {:induction false} PolicyAgrees(c: Appliance, h: Header, u: Parsed)
    requires h.destination == u.destination && DestinationIp(u.ipPacket) == Some(u.destination)
    requires InterceptAction(c, h) == XdpRedirect && u.destination !in c.NatAddresses()
    ensures InterceptAllowed(c, u.ipPacket)
  {
    hide KernelPublic, UserPublic, Lookup, AnyContains, PolicyTable;
    var d := h.destination;
    LookupIsAnyMatch(c.InForce().prefixes, if c.InForce().TunnelPrefixes? then Redirect
        else Lpm.Pass, c.ForcedLocal(), c.NatAddresses(), d);
    PublicAgrees(d);
  }

  /** A packet to another address. */
  lemma {:induction false} InterceptAgrees(c: Appliance, p: Bytes, h: Header, u: Parsed, dir: Nat.Directory)
    requires c.Valid() && SamePacket(p, h, u) && !(c.tunnel && h.destination == c.tunnelLocal)
        && XdpDecide(c, p, h) == XdpRedirect
    requires DestinationIp(u.ipPacket) == Some(u.destination)
    ensures c.intercept && InterceptOutcome(c, u, dir) != Passed
  {
    hide WordAt, KernelPublic, UserPublic, Lookup, ParseFlowKey, Nat.Lookup, InterceptAllowed, InterceptAction;
    if c.DnsHere() && h.destination == c.dns.value.listen.ip {
      SameWord(p, h.total, h.offset + 2);
      assert IsDnsQuery(c, u);
    } else if KernelLocalResponse(c, h) && h.protocol == PROTO_UDP && UdpFits(p, h)
              && WordAt(p, h.offset) == c.dns.value.localResolver.port
                  && c.natStart <= WordAt(p, h.offset + 2) <= c.natEnd {
      SameWord(p, h.total, h.offset + 2);
      SameWord(p, h.total, h.offset);
      assert IsLocalResponse(c, u);
    } else {
      assert InterceptAction(c, h) == XdpRedirect;
      if u.destination !in c.NatAddresses() { PolicyAgrees(c, h, u); }
    }
  }

  /** Which redirected frames the IO worker passes: exactly the stray answers. */
  lemma {:induction false} PassedIff(c: Appliance, frame: Bytes, ix: Dcid.Index, dir: Nat.Directory)
    requires c.Valid() && XdpFilter(c, frame) == XdpRedirect
    ensures |frame| >= ETH_LEN && KernelHeader(WordAt(frame, 12) == ETH_P_IPV4, frame[ETH_LEN..]).Some?
    ensures var h := KernelHeader(WordAt(frame, 12) == ETH_P_IPV4, frame[ETH_LEN..]).value;
      HandleFrame(c, frame, ix, dir) == Passed <==> StrayAnswer(c, frame[ETH_LEN..], h)
  {
    hide KernelV4, KernelV6, UserV4, UserV6, XdpDecide, TunnelOutcome, InterceptOutcome, StrayAnswer, DestinationIp;
    var (v4, p) := (WordAt(frame, 12) == ETH_P_IPV4, frame[ETH_LEN..]);
    HeadersAgree(v4, p);
    DestinationAgrees(v4, p);
    var (h, u) := (KernelHeader(v4, p).value, UserHeader(v4, p).value);
    if c.tunnel && h.destination == c.tunnelLocal {
      TunnelAgrees(c, p, h, u, ix);
    } else {
      InterceptAgrees(c, p, h, u, dir);
      NotStray(c, p, h);
    }
  }

  lemma NotStray(c: Appliance, p: Bytes, h: Header)
    requires !(c.tunnel && h.destination == c.tunnelLocal)
    ensures !StrayAnswer(c, p, h)
  {
  }

  /** The configurations in which some frame is redirected and then passed: both roles on the DNS
      listener's interface, the local resolver's NAT address being the tunnel's own, and some NAT port
      other than the tunnel port. */
  predicate Overlaps(c: Appliance) {
    c.tunnel && c.LocalNat() == Some(c.tunnelLocal) && !(c.natStart == c.natEnd == c.tunnelPort)
  }

  /** Outside those configurations every redirected frame is dispatched or dropped. */
  lemma {:induction false} Agreement(c: Appliance, frame: Bytes, ix: Dcid.Index, dir: Nat.Directory)
    requires c.Valid() && !Overlaps(c) && XdpFilter(c, frame) == XdpRedirect
    ensures HandleFrame(c, frame, ix, dir) != Passed
  {
    hide XdpFilter, HandleFrame, KernelHeader;
    PassedIff(c, frame, ix, dir);
  }

  // ---- A frame on which they differ ----

  /** An Ethernet frame around an IP packet. */
  function Ethernet(kind: U16, packet: Bytes): (r: Bytes)
    ensures |r| == ETH_LEN + |packet| && WordAt(r, 12) == kind && r[ETH_LEN..] == packet
  {
    seq(12, _ => 0) + Octets16(kind) + packet
  }

  function BareUdp(source: U16, destination: U16): (r: Bytes)
    ensures |r| == 8 && WordAt(r, 0) == source && WordAt(r, 2) == destination && WordAt(r, 4) == 8
  {
    Octets16(source) + Octets16(destination) + [0, 8, 0, 0]
  }

  /** An IPv4 or IPv6 packet with an empty UDP datagram. */
  function BarePacket(source: IpAddr, destination: IpAddr, sourcePort: U16, destinationPort: U16): (r: Bytes)
    requires source.V4? == destination.V4?
  {
    match source
    case V4(s) => [0x45, 0, 0, 28, 0, 0, 0, 0, 64, PROTO_UDP, 0, 0] + s + destination.octets4 + BareUdp(sourcePort,
        destinationPort)
    case V6(s) => [0x60, 0, 0, 0, 0, 8, PROTO_UDP, 64] + s + destination.octets6 + BareUdp(sourcePort, destinationPort)
  }

  /** What both sides read from the packet: its endpoints and ports, unfragmented. */
  ghost predicate ReadsBare(p: Bytes, k: Option<Header>, source: IpAddr, destination: IpAddr, sourcePort: U16,
          destinationPort: U16) {
    && k.Some? && k.value.source == source && k.value.destination == destination
    && k.value.protocol == PROTO_UDP && k.value.frag == 0 && UdpFits(p, k.value)
    && WordAt(p, k.value.offset) == sourcePort && WordAt(p, k.value.offset + 2) == destinationPort
  }

  lemma {:induction false} BareHeaderV4(source: IpAddr, destination: IpAddr, sourcePort: U16, destinationPort: U16)
    requires source.V4? && destination.V4?
    ensures var p := BarePacket(source, destination, sourcePort, destinationPort);
      ReadsBare(p, KernelV4(p), source, destination, sourcePort, destinationPort)
  {
    hide Octets16;
    var p := BarePacket(source, destination, sourcePort, destinationPort);
    var udp := BareUdp(sourcePort, destinationPort);
    assert p[12..16] == source.octets4 && p[16..20] == destination.octets4 && p[20..28] == udp;
    assert WordAt(p, 20) == WordAt(udp, 0) && WordAt(p, 22) == WordAt(udp, 2) && WordAt(p, 24) == WordAt(udp, 4);
  }

  lemma {:induction false} BareHeaderV6(source: IpAddr, destination: IpAddr, sourcePort: U16, destinationPort: U16)
    requires source.V6? && destination.V6?
    ensures var p := BarePacket(source, destination, sourcePort, destinationPort);
      ReadsBare(p, KernelV6(p), source, destination, sourcePort, destinationPort)
  {
    hide Octets16;
    var p := BarePacket(source, destination, sourcePort, destinationPort);
    var udp := BareUdp(sourcePort, destinationPort);
    assert p[8..24] == source.octets6 && p[24..40] == destination.octets6 && p[40..48] == udp;
    assert WordAt(p, 40) == WordAt(udp, 0) && WordAt(p, 42) == WordAt(udp, 2) && WordAt(p, 44) == WordAt(udp, 4);
  }

  lemma {:induction false} BareHeader(source: IpAddr, destination: IpAddr, sourcePort: U16, destinationPort: U16)
    requires source.V4? == destination.V4?
    ensures var p := BarePacket(source, destination, sourcePort, destinationPort);
      ReadsBare(p, KernelHeader(source.V4?, p), source, destination, sourcePort, destinationPort)
  {
    hide BarePacket, KernelV4, KernelV6, ReadsBare;
    if source.V4? {
      BareHeaderV4(source, destination, sourcePort, destinationPort);
    } else {
      BareHeaderV6(source, destination, sourcePort, destinationPort);
    }
  }

  /** In every overlapping configuration there is a frame that is redirected and then passed. */
  lemma {:induction false} Disagreement(c: Appliance, ix: Dcid.Index, dir: Nat.Directory) returns (frame: Bytes)
    requires c.Valid() && Overlaps(c)
    ensures XdpFilter(c, frame) == XdpRedirect && HandleFrame(c, frame, ix, dir) == Passed
  {
    var (source, destination) := (c.dns.value.localResolver.ip, c.tunnelLocal);
    var port := if c.natStart != c.tunnelPort then c.natStart else c.natEnd;
    var kind := if source.V4? then ETH_P_IPV4 else ETH_P_IPV6;
    var packet := BarePacket(source, destination, c.dns.value.localResolver.port, port);
    frame := Ethernet(kind, packet);
    BareHeader(source, destination, c.dns.value.localResolver.port, port);
    var h := KernelHeader(source.V4?, packet).value;
    StrayIsRedirected(c, packet, h);
    hide BarePacket, KernelHeader, XdpDecide, HandleFrame, UdpFits;
    assert XdpFilter(c, frame) == XdpRedirect;
    PassedIff(c, frame, ix, dir);
  }

  lemma {:induction false} StrayIsRedirected(c: Appliance, p: Bytes, h: Header)
    requires c.Valid() && StrayAnswer(c, p, h)
    ensures XdpDecide(c, p, h) == XdpRedirect
  {
    hide WordAt, InterceptAction;
  }

  /** The classifiers agree on every frame if and only if the configuration does not overlap. */
  lemma {:induction false} AgreementIff(c: Appliance, ix: Dcid.Index, dir: Nat.Directory)
    requires c.Valid()
    ensures (forall frame :: XdpFilter(c, frame) == XdpRedirect ==>
        HandleFrame(c, frame, ix, dir) != Passed) <==> !Overlaps(c)
  {
    hide XdpFilter, HandleFrame, Overlaps;
    if Overlaps(c) {
      var frame := Disagreement(c, ix, dir);
    } else {
      forall frame | XdpFilter(c, frame) == XdpRedirect ensures HandleFrame(c, frame, ix, dir) != Passed {
        Agreement(c, frame, ix, dir);
      }
    }
  }
}
