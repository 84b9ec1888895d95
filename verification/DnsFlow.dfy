/** What the worker does to DNS packets before and after it touches its tables: planning a
    query, editing its EDNS size and turning a query into a SERVFAIL answer. */
module DnsFlow {
  import opened Core
  import opened Packet
  import opened Rewrite
  import opened Forward
  import opened DnsWire
  import opened Session

  datatype SocketAddr = SocketAddr(ip: IpAddr, port: U16)

  datatype DnsKey =
    | Question(client: SocketAddr, id: U16, qname: Bytes, qtype: U16, qclass: U16)
    | Opaque(client: SocketAddr, optionalId: Option<U16>, payloadHash: U64)

  datatype TransactionKey = TransactionKey(ioOwner: IoOwner, dns: DnsKey)

  datatype DnsConfig = DnsConfig(
    listen: SocketAddr,
    localResolver: SocketAddr,
    remoteResolver: SocketAddr,
    remoteDomains: set<Bytes>,
    capacity: nat,
    timeout: nat,
    remoteAvailable: bool)

  datatype FlowError =
    | PacketFailure(packetError: PacketError)
    | SessionFailure(sessionError: SessionError)
    | NotDnsQuery
    | WrongQuicFlowOwner(expected: nat, actual: nat)

  /** `transaction_key`. */
  function KeyOf(client: SocketAddr, payload: Bytes): (r: DnsKey) {
    match ValidateMessage(payload, false)
    case Ok(q) => Question(client, WordAt(payload, 0), q.qname, q.qtype, q.qclass)
    case Err(_) => Opaque(client, DnsId(payload), Fnv1a(payload))
  }

  /** A query that passed every packet check, with its route; or one to refuse at once. */
  datatype Plan =
    | Refuse(packet: Bytes, flow: FlowKey)
    | Admit(packet: Bytes, flow: FlowKey, key: TransactionKey, resolver: SocketAddr, remote: bool)

  /** `p` with the UDP payload replaced by one of the same length. */
  function WithPayload(p: Bytes, payload: Bytes): (r: Bytes)
    requires UdpPayload(p).Ok? && |payload| == |UdpPayload(p).value|
    ensures |r| == |p|
  {
    Splice(p, TransportMetadata(p).value.offset + 8, payload)
  }

  /** `edns_clamp_packet`: only a successful clamp that changed something replaces the packet. */
  function EdnsClampPacket(p: Bytes): (r: Result<(Bytes, Option<bool>), PacketError>) {
    match ParseFlowKey(p)
    case Err(e) => Err(e)
    case Ok(flow) =>
      match UdpPayload(p)
      case Err(e) => Err(e)
      case Ok(payload) =>
        match ClampEdnsSpec(payload)
        case (_, Err(_)) => Ok((p, None))
        case (clamped, Ok(changed)) =>
          if !changed then Ok((p, Some(false)))
          else
            match RewritePacketSpec(WithPayload(p, clamped), flow)
            case Err(e) => Err(e)
            case Ok(q) => Ok((q, Some(true)))
  }

  /** The packet stage of `handle_dns_query_at`. */
  function PlanQuery(io: IoOwner, packet: Bytes, config: DnsConfig): (r: Result<Plan, FlowError>) {
    match PrepareSpec(packet)
    case Err(e) => Err(PacketFailure(e))
    case Ok(p) =>
      match ParseFlowKey(p)
      case Err(e) => Err(PacketFailure(e))
      case Ok(flow) =>
        if flow.protocol != Udp || flow.destination != config.listen.ip || flow.destinationPort != config.listen.port then Err(NotDnsQuery)
        else PlanAdmitted(io, p, flow, config)
  }

  function PlanAdmitted(io: IoOwner, p: Bytes, flow: FlowKey, config: DnsConfig): (r: Result<Plan, FlowError>) {
    match UdpPayload(p)
    case Err(e) => Err(PacketFailure(e))
    case Ok(payload) =>
      if |payload| > DNS_PAYLOAD_MAX then Ok(Refuse(p, flow))
      else
        match EdnsClampPacket(p)
        case Err(e) => Err(PacketFailure(e))
        case Ok((q, clamped)) =>
          match UdpPayload(q)
          case Err(e) => Err(PacketFailure(e))
          case Ok(query) =>
            if ParseQuestion(query).Err? then Ok(Refuse(q, flow))
            else
              var key := TransactionKey(io, KeyOf(SocketAddr(flow.source, flow.sourcePort), query));
              var validated := ValidateMessage(query, false);
              var remote := clamped.Some? && validated.Ok? && RulesMatch(config.remoteDomains, validated.value.qname);
              Ok(Admit(q, flow, key, if remote then config.remoteResolver else config.localResolver, remote))
  }

  /** `ensure_udp_payload_len`. */
  function EnsureUdpPayloadLen(p: Bytes, minimum: nat): (r: Result<Bytes, PacketError>) {
    match TransportMetadata(p)
    case Err(e) => Err(e)
    case Ok(m) =>
      if m.protocol != PROTO_UDP then Err(UnsupportedProtocol(m.protocol))
      else
        match ValidateUdpLayout(p, m)
        case Err(e) => Err(e)
        case Ok(udpLen) =>
          if udpLen - 8 >= minimum then Ok(p)
          else
            var missing := minimum - (udpLen - 8);
            var lengthField := if m.v4 then m.total + missing else m.total - 40 + missing;
            if udpLen + missing > 65535 || lengthField > 65535 then Err(InvalidIpLength)
            else
              var longer := p[..m.total] + seq(missing, _ => 0);
              Ok(Splice(Splice(longer, m.offset + 4, Octets16(udpLen + missing)), if m.v4 then 2
                  else 4, Octets16(lengthField)))
  }

  /** The walk still ends where it did when the packet is longer and says so. */
  lemma {:induction false} WalkLonger(p: Bytes, q: Bytes, total: nat, longer: nat, next: Byte, offset: nat, hops: nat)
    requires |p| <= |q| && total <= longer && total <= |p|
    requires Ipv6TransportOffset(p, total, next, offset, hops).Ok?
    requires forall i :: offset <= i < Ipv6TransportOffset(p, total, next, offset, hops).value.1 && i < |p| ==>
        p[i] == q[i]
    requires offset <= total
    ensures Ipv6TransportOffset(q, longer, next, offset, hops) == Ipv6TransportOffset(p, total, next, offset, hops)
    decreases hops
  {
    if IsOptionHeader(next) || next == PROTO_AH {
      assert p[offset] == q[offset] && p[offset + 1] == q[offset + 1];
      WalkLonger(p, q, total, longer, p[offset], offset + ExtensionLength(next, p[offset + 1]), hops - 1);
    }
  }

  /** Padding keeps the payload, extends it with zeros to the minimum and repairs both length fields. */
  lemma {:induction false} EnsuredPayload(p: Bytes, minimum: nat)
    requires EnsureUdpPayloadLen(p, minimum).Ok?
    ensures UdpPayload(p).Ok?
    ensures var q := EnsureUdpPayloadLen(p, minimum).value; var before := UdpPayload(p).value;
      UdpPayload(q) == Ok(before + seq(if |before| < minimum then minimum - |before| else 0, _ => 0))
  {
    hide TransportMetadata, Octets16, Be16, Splice, ValidateUdpLayout;
    var m := TransportMetadata(p).value;
    var udpLen := ValidateUdpLayout(p, m).value;
    LayoutPayload(p, m, udpLen);
    hide UdpPayload;
    var before := UdpPayload(p).value;
    if udpLen - 8 < minimum {
      Padded(p, m, udpLen, minimum - (udpLen - 8), EnsureUdpPayloadLen(p, minimum).value);
    } else {
      assert before + seq(0, _ => 0) == before;
    }
  }

  lemma LayoutPayload(p: Bytes, m: Meta, udpLen: nat)
    requires TransportMetadata(p) == Ok(m) && m.protocol == PROTO_UDP && ValidateUdpLayout(p, m) == Ok(udpLen)
    ensures m.offset + 8 <= m.total <= |p| && UdpPayload(p) == Ok(p[m.offset + 8..m.total])
        && |UdpPayload(p).value| == udpLen - 8
  {
    hide TransportMetadata, Be16;
  }

  lemma {:induction false} Padded(p: Bytes, m: Meta, udpLen: nat, missing: nat, q: Bytes)
    requires TransportMetadata(p) == Ok(m) && m.protocol == PROTO_UDP && ValidateUdpLayout(p, m) == Ok(udpLen)
        && udpLen + missing <= 65535
    requires var lengthField := if m.v4 then m.total + missing else m.total - 40 + missing;
      lengthField <= 65535
      && q == Splice(Splice(p[..m.total] + seq(missing, _ => 0), m.offset + 4, Octets16(udpLen + missing)), if m.v4 then
          2 else 4, Octets16(lengthField))
    ensures UdpPayload(q) == Ok(p[m.offset + 8..m.total] + seq(missing, _ => 0))
  {
    hide UdpPayload, TransportMetadata, Octets16, Be16;
    PaddedBytes(p, m, udpLen, missing, p[..m.total] + seq(missing, _ => 0), q);
    PaddedLayout(p, m, q, missing);
    assert q[m.offset + 8..m.total + missing] == p[m.offset + 8..m.total] + seq(missing, _ => 0);
  }

  lemma {:induction false} PaddedBytes(p: Bytes, m: Meta, udpLen: nat, missing: nat, longer: Bytes, q: Bytes)
    requires TransportMetadata(p) == Ok(m) && ValidateUdpLayout(p, m) == Ok(udpLen) && udpLen + missing <= 65535
    requires longer == p[..m.total] + seq(missing, _ => 0)
    requires var lengthField := if m.v4 then m.total + missing else m.total - 40 + missing;
      lengthField <= 65535
      && q == Splice(Splice(longer, m.offset + 4, Octets16(udpLen + missing)), if m.v4 then 2 else 4, Octets16(lengthField))
    ensures |q| == m.total + missing
    ensures forall i :: 0 <= i < m.total && !(m.offset + 4 <= i < m.offset + 6) && !(if m.v4 then 2 <= i < 4 else 4 <= i < 6) ==> q[i] == p[i]
    ensures forall i :: m.total <= i < m.total + missing ==> q[i] == 0
    ensures WordAt(q, m.offset + 4) == udpLen + missing
    ensures if m.v4 then WordAt(q, 2) == m.total + missing else WordAt(q, 4) == m.total - 40 + missing
  {
    hide TransportMetadata, Octets16, Be16;
  }

  lemma {:induction false} PaddedLayout(p: Bytes, m: Meta, q: Bytes, missing: nat)
    requires TransportMetadata(p) == Ok(m) && m.protocol == PROTO_UDP && m.offset + 8 <= m.total
        && |q| == m.total + missing
    requires forall i :: 0 <= i < m.total && !(m.offset + 4 <= i < m.offset + 6) && !(if m.v4 then 2 <= i < 4
        else 4 <= i < 6) ==> q[i] == p[i]
    requires WordAt(q, m.offset + 4) == m.total - m.offset + missing
    requires if m.v4 then WordAt(q, 2) == m.total + missing else WordAt(q, 4) == m.total - 40 + missing
    ensures TransportMetadata(q) == Ok(m.(total := m.total + missing))
    ensures UdpPayload(q) == Ok(q[m.offset + 8..m.total + missing])
  {
    hide TransportMetadata;
    assert p[0] == q[0];
    if m.v4 {
      assert p[9] == q[9];
      PaddedMetadataV4(p, m, q, missing);
    } else {
      assert p[6] == q[6];
      PaddedMetadataV6(p, m, q, missing);
    }
  }

  lemma {:induction false} PaddedMetadataV4(p: Bytes, m: Meta, q: Bytes, missing: nat)
    requires TransportMetadata(p) == Ok(m) && m.v4 && |q| == m.total + missing
    requires p[0] == q[0] && p[9] == q[9] && WordAt(q, 2) == m.total + missing
    ensures TransportMetadata(q) == Ok(m.(total := m.total + missing))
  {
  }

  lemma {:induction false} PaddedMetadataV6(p: Bytes, m: Meta, q: Bytes, missing: nat)
    requires TransportMetadata(p) == Ok(m) && !m.v4 && |q| == m.total + missing
    requires p[0] == q[0] && p[6] == q[6] && WordAt(q, 4) == m.total - 40 + missing
    requires forall i :: 40 <= i < m.offset ==> q[i] == p[i]
    ensures TransportMetadata(q) == Ok(m.(total := m.total + missing))
  {
    hide Ipv6TransportOffset;
    PaddedWalk(p, m, q, missing);
  }

  lemma {:induction false} PaddedWalk(p: Bytes, m: Meta, q: Bytes, missing: nat)
    requires 40 <= m.offset <= m.total <= |p| && |q| == m.total + missing
    requires Ipv6TransportOffset(p, m.total, p[6], 40, 8) == Ok((m.protocol, m.offset))
    requires forall i :: 40 <= i < m.offset ==> q[i] == p[i]
    ensures Ipv6TransportOffset(q, m.total + missing, p[6], 40, 8) == Ok((m.protocol, m.offset))
  {
    hide Ipv6TransportOffset;
    WalkPrefix(p, m.total, p[6], 40, 8);
    WalkLonger(p[..m.total], q, m.total, m.total + missing, p[6], 40, 8);
  }

  /** The walk reads no byte beyond the packet length it is given. */
  lemma {:induction false} WalkPrefix(p: Bytes, total: nat, next: Byte, offset: nat, hops: nat)
    requires offset <= total <= |p| && Ipv6TransportOffset(p, total, next, offset, hops).Ok?
    ensures Ipv6TransportOffset(p[..total], total, next, offset, hops) == Ipv6TransportOffset(p, total, next, offset,
        hops)
    decreases hops
  {
    if IsOptionHeader(next) || next == PROTO_AH {
      WalkPrefix(p, total, p[offset], offset + ExtensionLength(next, p[offset + 1]), hops - 1);
    }
  }

  /** Response bit set, response code 2 (server failure). */
  function ServfailFlags(flags: U16): (r: U16)
    ensures IsResponse(r) && r % 16 == 2
  {
    var nibbles := (if flags >= 0x8000 then flags else flags + 0x8000) / 16;
    assert 0x800 <= nibbles < 0x1000;
    nibbles * 16 + 2
  }

  /** The DNS header of a SERVFAIL answer over the query's payload. */
  function ServfailPayload(payload: Bytes): (r: Bytes)
    requires |payload| >= 12
    ensures |r| == |payload|
  {
    Splice(Splice(payload, 2, Octets16(ServfailFlags(WordAt(payload, 2)))), 6, [0, 0, 0, 0, 0, 0])
  }

  /** `dns_servfail_transmit_to_listen`, without the transmit target. */
  function ServfailPacket(packet: Bytes, flow: FlowKey, listen: SocketAddr): (r: Result<Bytes, PacketError>) {
    match EnsureUdpPayloadLen(packet, 12)
    case Err(e) => Err(e)
    case Ok(p) =>
      match UdpPayload(p)
      case Err(e) => Err(e)
      case Ok(payload) =>
        EnsuredPayload(packet, 12);
        RewritePacketSpec(WithPayload(p, ServfailPayload(payload)),
                          FlowKey(listen.ip, flow.source, listen.port, flow.sourcePort, Udp))
  }

  // ---- Editing a UDP payload keeps the flow ----

  lemma {:induction false} PayloadEditKeepsFlow(p: Bytes, q: Bytes)
    requires ParseFlowKey(p).Ok? && UdpPayload(p).Ok? && |p| == |q|
    requires forall i :: 0 <= i < |p| && i < TransportMetadata(p).value.offset + 8 ==> p[i] == q[i]
    ensures TransportMetadata(q) == TransportMetadata(p) && ParseFlowKey(q) == ParseFlowKey(p)
    ensures UdpPayload(q) == Ok(q[TransportMetadata(p).value.offset + 8..TransportMetadata(p).value.total])
  {
    hide TransportMetadata, BuildFlowKey;
    var m := TransportMetadata(p).value;
    LaterBytesKeepLayout(p, q, m.offset + 8);
    assert WordAt(p, m.offset + 4) == WordAt(q, m.offset + 4);
    assert SourceOf(p, m.v4) == SourceOf(q, m.v4);
    assert DestinationOf(p, m.v4) == DestinationOf(q, m.v4);
    UdpKeyLocal(p[m.offset..m.total], q[m.offset..m.total], SourceOf(p, m.v4), DestinationOf(p, m.v4));
  }

  lemma UdpKeyLocal(t: Bytes, u: Bytes, source: IpAddr, destination: IpAddr)
    requires 8 <= |t| == |u| && forall i :: 0 <= i < 8 ==> t[i] == u[i]
    ensures BuildFlowKey(source, destination, PROTO_UDP, t) == BuildFlowKey(source, destination, PROTO_UDP, u)
  {
    assert WordAt(t, 0) == WordAt(u, 0) && WordAt(t, 2) == WordAt(u, 2) && WordAt(t, 4) == WordAt(u, 4);
  }

  lemma {:induction false} WithPayloadReads(p: Bytes, payload: Bytes)
    requires ParseFlowKey(p).Ok? && UdpPayload(p).Ok? && |payload| == |UdpPayload(p).value|
    ensures var q := WithPayload(p, payload);
      TransportMetadata(q) == TransportMetadata(p) && ParseFlowKey(q) == ParseFlowKey(p) && UdpPayload(q) == Ok(payload)
  {
    hide TransportMetadata, ParseFlowKey;
    var q := WithPayload(p, payload);
    var m := TransportMetadata(p).value;
    PayloadEditKeepsFlow(p, q);
    assert q[m.offset + 8..m.total] == payload;
  }

  lemma {:induction false} UntouchedPayload(p: Bytes, q: Bytes, m: Meta)
    requires TransportMetadata(p) == Ok(m) && TransportMetadata(q) == Ok(m) && |p| == |q| && UdpPayload(p).Ok?
    requires forall i :: 0 <= i < |p| && !Touched(m, i) ==> q[i] == p[i]
    ensures UdpPayload(q) == UdpPayload(p)
  {
    hide TransportMetadata;
    assert forall i :: m.offset + 8 <= i < m.total ==> !Touched(m, i);
    assert q[m.offset + 8..m.total] == p[m.offset + 8..m.total];
    assert !Touched(m, m.offset + 4) && !Touched(m, m.offset + 5);
  }

  /** Rewriting a UDP packet keeps its payload. */
  lemma {:induction false} RewriteKeepsPayload(p: Bytes, t: FlowKey)
    requires RewritePacketSpec(p, t).Ok? && UdpPayload(p).Ok?
    ensures UdpPayload(RewritePacketSpec(p, t).value) == UdpPayload(p)
  {
    hide RewritePacketSpec, ParseFlowKey, ValidateChecksums, Touched;
    RewriteCorrect(p, t);
    ParsedIsRewritable(p);
    UntouchedPayload(p, RewritePacketSpec(p, t).value, TransportMetadata(p).value);
  }

  // ---- SERVFAIL answers ----

  /** Extension headers are short enough that a padded length always fits its field. */
  lemma {:induction false} WalkBound(p: Bytes, total: nat, next: Byte, offset: nat, hops: nat)
    requires Ipv6TransportOffset(p, total, next, offset, hops).Ok?
    ensures Ipv6TransportOffset(p, total, next, offset, hops).value.1 <= offset + 2048 * hops
    decreases hops
  {
    if IsOptionHeader(next) || next == PROTO_AH {
      assert ExtensionLength(next, p[offset + 1]) <= 2048;
      WalkBound(p, total, p[offset], offset + ExtensionLength(next, p[offset + 1]), hops - 1);
    }
  }

  lemma {:induction false} OffsetBound(p: Bytes)
    requires TransportMetadata(p).Ok?
    ensures TransportMetadata(p).value.offset <= 40 + 2048 * 8
  {
    if !TransportMetadata(p).value.v4 {
      hide Ipv6TransportOffset;
      WalkBound(p, 40 + WordAt(p, 4), p[6], 40, 8);
    }
  }

  lemma {:induction false} PaddingFits(p: Bytes)
    requires UdpPayload(p).Ok?
    ensures EnsureUdpPayloadLen(p, 12).Ok?
  {
    hide TransportMetadata, Octets16, Be16;
    OffsetBound(p);
  }

  /** Padding keeps the flow. */
  lemma {:induction false} PaddedFlow(p: Bytes)
    requires ParseFlowKey(p).Ok? && EnsureUdpPayloadLen(p, 12).Ok?
    ensures ParseFlowKey(EnsureUdpPayloadLen(p, 12).value) == ParseFlowKey(p)
  {
    hide TransportMetadata, BuildFlowKey, Octets16, Be16;
    var m := TransportMetadata(p).value;
    var udpLen := ValidateUdpLayout(p, m).value;
    if udpLen - 8 < 12 {
      var missing: nat := 12 - (udpLen - 8);
      var q := EnsureUdpPayloadLen(p, 12).value;
      PaddedBytes(p, m, udpLen, missing, p[..m.total] + seq(missing, _ => 0), q);
      PaddedLayout(p, m, q, missing);
      PaddedKey(p, m, q, missing);
    }
  }

  lemma {:induction false} PaddedKey(p: Bytes, m: Meta, q: Bytes, missing: nat)
    requires TransportMetadata(p) == Ok(m) && m.protocol == PROTO_UDP && ParseFlowKey(p).Ok? && m.offset + 8 <= m.total
    requires TransportMetadata(q) == Ok(m.(total := m.total + missing)) && |q| == m.total + missing
    requires forall i :: 0 <= i < m.total && !(m.offset + 4 <= i < m.offset + 6) && !(if m.v4 then 2 <= i < 4
        else 4 <= i < 6) ==> q[i] == p[i]
    requires WordAt(q, m.offset + 4) == m.total - m.offset + missing
    ensures ParseFlowKey(q) == ParseFlowKey(p)
  {
    hide TransportMetadata, Be16;
    var t, u := p[m.offset..m.total], q[m.offset..m.total + missing];
    assert WordAt(u, 4) == WordAt(q, m.offset + 4);
    assert t[0] == u[0] && t[1] == u[1] && t[2] == u[2] && t[3] == u[3];
    assert SourceOf(p, m.v4) == SourceOf(q, m.v4);
    assert DestinationOf(p, m.v4) == DestinationOf(q, m.v4);
    if m.v4 { assert p[6] == q[6] && p[7] == q[7]; }
  }

  /** A valid packet from the listener to the client. */
  ghost predicate ToClient(out: Bytes, client: SocketAddr, listen: SocketAddr) {
    && ParseFlowKey(out) == Ok(FlowKey(listen.ip, client.ip, listen.port, client.port, Udp))
    && ValidateChecksums(out) == Ok(())
  }

  /** A DNS message that fails `query`: the query's identifier and question, the response bit,
      code 2 and no records; a query too short for a DNS header counts as continued by zeros. */
  ghost predicate Fails(answer: Bytes, query: Bytes) {
    && |answer| == (if |query| < 12 then 12 else |query|)
    && (forall i :: 0 <= i < |answer| && !(2 <= i < 4) && !(6 <= i < 12) ==> answer[i] == if i < |query| then query[i]
        else 0)
    && IsResponse(WordAt(answer, 2)) && WordAt(answer, 2) % 16 == 2
    && (forall i :: 6 <= i < 12 ==> answer[i] == 0)
  }

  /** A valid SERVFAIL answer to `query`, from the listener to the client that asked. */
  ghost predicate Refuses(out: Bytes, client: SocketAddr, listen: SocketAddr, query: Bytes) {
    ToClient(out, client, listen) && UdpPayload(out).Ok? && Fails(UdpPayload(out).value, query)
  }

  lemma {:induction false} ServfailFails(query: Bytes, padded: Bytes)
    requires padded == query + seq(if |query| < 12 then 12 - |query| else 0, _ => 0)
    ensures Fails(ServfailPayload(padded), query)
  {
    hide Octets16, Be16, ServfailFlags;
    var answer := ServfailPayload(padded);
    assert WordAt(answer, 2) == ServfailFlags(WordAt(padded, 2));
    assert forall i :: 0 <= i < |answer| && !(2 <= i < 4) && !(6 <= i < 12) ==> answer[i] == padded[i];
  }

  /** A SERVFAIL answer to a parsed UDP query can always be built when the listener has the client's
      address family, however short the query. It goes from the listener to the client, validates,
      and keeps the query's identifier with the response bit, code 2 and no records. */
  lemma {:induction false} ServfailCorrect(p: Bytes, listen: SocketAddr)
    requires ParseFlowKey(p).Ok? && UdpPayload(p).Ok?
    requires listen.ip.V4? == ParseFlowKey(p).value.source.V4?
    ensures var flow := ParseFlowKey(p).value; var r := ServfailPacket(p, flow, listen);
      r.Ok? && Refuses(r.value, SocketAddr(flow.source, flow.sourcePort), listen, UdpPayload(p).value)
  {
    hide ParseFlowKey, UdpPayload, TransportMetadata, RewritePacketSpec, EnsureUdpPayloadLen, ValidateChecksums,
      WithPayload, ServfailPayload, Fails;
    var flow := ParseFlowKey(p).value;
    PaddingFits(p);
    var padded := EnsureUdpPayloadLen(p, 12).value;
    EnsuredPayload(p, 12);
    PaddedFlow(p);
    UdpFlow(p);
    var payload := UdpPayload(padded).value;
    var answer := ServfailPayload(payload);
    var q := WithPayload(padded, answer);
    var t := FlowKey(listen.ip, flow.source, listen.port, flow.sourcePort, Udp);
    WithPayloadReads(padded, answer);
    RewriteCorrect(q, t);
    RewriteKeepsPayload(q, t);
    ServfailFails(UdpPayload(p).value, payload);
  }

  lemma UdpFlow(p: Bytes)
    requires ParseFlowKey(p).Ok? && UdpPayload(p).Ok?
    ensures ParseFlowKey(p).value.protocol == Udp && ParseFlowKey(p).value.OneFamily()
  {
    ParsedIsRewritable(p);
  }

  // ---- What an admitted plan guarantees ----

  /** The query payload that is stored, forwarded and answered: the client's own, with the EDNS
      payload sizes clamped where that succeeds. */
  function Edited(payload: Bytes): (r: Bytes) {
    if |payload| <= DNS_PAYLOAD_MAX && ClampEdnsSpec(payload).1 == Ok(true) then ClampEdnsSpec(payload).0 else payload
  }

  lemma {:induction false} EdnsClampKeepsFlow(p: Bytes)
    requires ParseFlowKey(p).Ok? && UdpPayload(p).Ok?
    ensures EdnsClampPacket(p).Ok?
    ensures ParseFlowKey(EdnsClampPacket(p).value.0) == ParseFlowKey(p) && UdpPayload(EdnsClampPacket(p).value.0).Ok?
    ensures |UdpPayload(p).value| <= DNS_PAYLOAD_MAX ==>
        UdpPayload(EdnsClampPacket(p).value.0).value == Edited(UdpPayload(p).value)
    ensures EdnsClampPacket(p).value.1.Some? <==> ClampEdnsSpec(UdpPayload(p).value).1.Ok?
  {
    hide ParseFlowKey, UdpPayload, TransportMetadata, RewritePacketSpec, ClampEdnsSpec, ValidateChecksums, WithPayload;
    var flow := ParseFlowKey(p).value;
    var payload := UdpPayload(p).value;
    var (clamped, r) := ClampEdnsSpec(payload);
    UdpFlow(p);
    if r == Ok(true) {
      WithPayloadReads(p, clamped);
      RewriteCorrect(WithPayload(p, clamped), flow);
      RewriteKeepsPayload(WithPayload(p, clamped), flow);
    }
  }

  /** Preparing a packet keeps its UDP payload. */
  lemma {:induction false} PrepareKeepsPayload(packet: Bytes)
    requires PrepareSpec(packet).Ok? && TransportMetadata(packet).Ok?
    ensures UdpPayload(PrepareSpec(packet).value) == UdpPayload(packet)
  {
    hide TransportMetadata, PrepareSpec, ValidateChecksums, IsFragmented, PseudoSum, ParseFlowKey;
    PrepareCorrect(packet);
    var p := PrepareSpec(packet).value;
    HopsKeepTransportSums(packet, p);
    var m := TransportMetadata(packet).value;
    if m.protocol == PROTO_UDP && ValidateUdpLayout(packet, m).Ok? {
      assert p[m.offset..m.total][8..] == p[m.offset + 8..m.total];
      assert packet[m.offset..m.total][8..] == packet[m.offset + 8..m.total];
    }
  }

  /** A planned query keeps its flow and carries the edited payload of the client's packet. An
      admitted one goes to the listener and carries a whole DNS header, its transaction is keyed by
      the client it came from, and it goes to the remote resolver exactly when it is a valid query,
      to its last record, for a name some remote rule covers. */
  lemma {:induction false} PlanCorrect(io: IoOwner, packet: Bytes, config: DnsConfig)
    requires PlanQuery(io, packet, config).Ok?
    ensures PrepareSpec(packet).Ok? && UdpPayload(packet).Ok?
    ensures var plan := PlanQuery(io, packet, config).value; var payload := UdpPayload(packet).value;
        var query := Edited(payload);
      && ParseFlowKey(plan.packet) == Ok(plan.flow) && plan.flow.protocol == Udp && plan.flow.OneFamily()
      && plan.flow.destination == config.listen.ip && plan.flow.destinationPort == config.listen.port
      && UdpPayload(plan.packet) == Ok(query)
      && (plan.Admit? <==> |payload| <= DNS_PAYLOAD_MAX && ParseQuestion(query).Ok?)
      && (plan.Admit? ==>
            && |query| >= 12
            && plan.key.ioOwner == io && plan.key.dns.client == SocketAddr(plan.flow.source, plan.flow.sourcePort)
            && plan.resolver == (if plan.remote then config.remoteResolver else config.localResolver)
            && (plan.remote <==> ClampEdnsSpec(payload).1.Ok? && IsRemote(query, config)))
  {
    hide ParseFlowKey, UdpPayload, EdnsClampPacket, PrepareSpec, ValidateMessage, RulesMatch, ClampEdnsSpec,
      TransportMetadata;
    var p := PrepareSpec(packet).value;
    PlannedParses(packet);
    PrepareKeepsPayload(packet);
    EdnsClampKeepsFlow(p);
    UdpFlow(p);
    var query := Edited(UdpPayload(packet).value);
    if ValidateMessage(query, false).Ok? {
      RulesMatchIsAnyDomainMatch(config.remoteDomains, ValidateMessage(query, false).value.qname);
    }
  }

  lemma PlannedParses(packet: Bytes)
    requires PrepareSpec(packet).Ok?
    ensures TransportMetadata(packet).Ok?
  {
    hide TransportMetadata;
  }

  /** A valid query for a name that some remote rule covers. */
  ghost predicate IsRemote(query: Bytes, config: DnsConfig) {
    && ValidateMessage(query, false).Ok?
    && exists rule :: rule in config.remoteDomains && DomainMatches(rule, ValidateMessage(query, false).value.qname)
  }
}
