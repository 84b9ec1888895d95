/** In-place address, port and identifier translation with fresh checksums
    (`rewrite_packet` and its helpers). */
module Rewrite {
  import opened Core
  import opened Checksum
  import opened Packet

  /** `encode_udp_zero_checksum`. */
  function EncodeUdpZero(udp: bool, checksum: U16): (r: U16) {
    if udp && checksum == 0 then 65535 else checksum
  }

  /** Zero the word at `from + at`, sum `p[from..to]` on top of `pseudo`, store the result there. */
  function PutChecksum(p: Bytes, from: nat, to: nat, at: nat, pseudo: nat, udp: bool): (r: Bytes)
    requires from + at + 2 <= to <= |p|
    ensures |r| == |p|
    ensures forall i :: 0 <= i < |p| && i != from + at && i != from + at + 1 ==> r[i] == p[i]
  {
    var zeroed := Splice(p, from + at, [0, 0]);
    Splice(zeroed, from + at, Octets16(EncodeUdpZero(udp, Finish(pseudo + Sum(zeroed[from..to])))))
  }

  function PutAddresses(p: Bytes, v4: bool, t: FlowKey): (r: Bytes)
    requires t.source.V4? == t.destination.V4? == v4
    requires |p| >= if v4 then 20 else 40
    ensures |r| == |p|
  {
    Splice(Splice(p, if v4 then 12 else 8, t.source.Octets()), if v4 then 16 else 24, t.destination.Octets())
  }

  /** `rewrite_transport_fields` on the transport bytes starting at `offset`. */
  function PutFields(p: Bytes, offset: nat, t: FlowKey): (r: Bytes)
    requires offset + 8 <= |p|
    ensures |r| == |p|
  {
    if t.IsIcmp() then
      Splice(Splice(p, offset, Octets16(t.destinationPort)), offset + 4, Octets16(t.sourcePort))
    else
      Splice(Splice(p, offset, Octets16(t.sourcePort)), offset + 2, Octets16(t.destinationPort))
  }

  predicate Compatible(f: FlowKey, t: FlowKey) {
    && f.protocol == t.protocol
    && f.source.V4? == t.source.V4?
    && f.destination.V4? == t.destination.V4?
  }

  /** A translated ICMP message must itself be a supported echo message. */
  predicate SupportedTarget(t: FlowKey) {
    t.IsIcmp() ==> SupportedIcmp(t.protocol, t.destinationPort / 256, t.destinationPort % 256)
  }

  /** The layout of a packet that parses: every field the rewrite touches is inside it. */
  ghost predicate Rewritable(p: Bytes, m: Meta) {
    && TransportMetadata(p) == Ok(m)
    && ChecksumOffset(m.protocol).Ok?
    && m.offset + 8 <= m.total
    && (m.protocol == PROTO_TCP ==> m.offset + 20 <= m.total)
  }

  function ZeroUdp(p: Bytes, m: Meta): bool
    requires m.offset + 8 <= |p|
  {
    m.v4 && m.protocol == PROTO_UDP && WordAt(p, m.offset + 6) == 0
  }

  /** A layout whose fields lie inside the packet, with a target of the same family. */
  ghost predicate Fits(p: Bytes, m: Meta, t: FlowKey) {
    && |p| >= (if m.v4 then 20 else 40) && m.total <= |p| && (if m.v4 then 20 else 40) <= m.offset
    && ChecksumOffset(m.protocol).Ok? && m.offset + 8 <= m.total
    && (m.protocol == PROTO_TCP ==> m.offset + 20 <= m.total)
    && t.source.V4? == t.destination.V4? == m.v4
  }

  /** Addresses and transport fields in place, checksums still old. */
  function Placed(p: Bytes, m: Meta, t: FlowKey): (r: Bytes)
    requires Fits(p, m, t)
    ensures |r| == |p|
  {
    PutFields(PutAddresses(p, m.v4, t), m.offset, t)
  }

  /** IPv4 header checksum refreshed. */
  function Headed(p: Bytes, m: Meta): (r: Bytes)
    requires m.v4 ==> 12 <= m.offset <= |p|
    ensures |r| == |p|
  {
    if m.v4 then PutChecksum(p, 0, m.offset, 10, 0, false) else p
  }

  /** Transport checksum refreshed, unless UDP over IPv4 carries none. */
  function Summed(p: Bytes, m: Meta): (r: Bytes)
    requires |p| >= (if m.v4 then 20 else 40) && m.total <= |p|
    requires ChecksumOffset(m.protocol).Ok? && m.offset + 8 <= m.total
    requires m.protocol == PROTO_TCP ==> m.offset + 20 <= m.total
    ensures |r| == |p|
  {
    if ZeroUdp(p, m) then p
    else PutChecksum(p, m.offset, m.total, ChecksumOffset(m.protocol).value, PseudoSum(p, m),
                     m.protocol == PROTO_UDP)
  }

  /** The rewritten bytes of a packet with layout `m`. */
  function Rewritten(p: Bytes, m: Meta, t: FlowKey): (r: Bytes)
    requires Fits(p, m, t)
    ensures |r| == |p|
  {
    Summed(Headed(Placed(p, m, t), m), m)
  }

  /** What parsing a packet says about its layout. */
  lemma ParsedIsRewritable(p: Bytes)
    requires ParseFlowKey(p).Ok?
    ensures Rewritable(p, TransportMetadata(p).value)
    ensures var m := TransportMetadata(p).value; var f := ParseFlowKey(p).value;
      && f.source == SourceOf(p, m.v4) && f.destination == DestinationOf(p, m.v4)
      && f.protocol == (if m.protocol == PROTO_TCP then Tcp else if m.protocol == PROTO_UDP then Udp
                        else if m.protocol == PROTO_ICMP then Icmp else Icmpv6)
      && f.OneFamily()
      && (m.protocol == PROTO_UDP ==> m.offset + WordAt(p, m.offset + 4) == m.total)
  {
    var m := TransportMetadata(p).value;
    assert p[m.offset..m.total][..8] == p[m.offset..m.offset + 8];
  }

  /** `rewrite_packet` on values: the packet is unchanged on every error. */
  function RewritePacketSpec(p: Bytes, t: FlowKey): (r: Result<Bytes, PacketError>) {
    match ParseFlowKey(p)
    case Err(e) => Err(e)
    case Ok(f) =>
      ParsedIsRewritable(p);
      if !Compatible(f, t) then Err(InvalidTranslation)
      else Ok(Rewritten(p, TransportMetadata(p).value, t))
  }

  // ---- What a stored checksum guarantees ----

  lemma {:induction false} PutChecksumVerifies(p: Bytes, from: nat, to: nat, at: nat, pseudo: nat, udp: bool)
    requires from + at + 2 <= to <= |p| && at % 2 == 0
    ensures var r := PutChecksum(p, from, to, at, pseudo, udp);
      && Verifies(pseudo + Sum(r[from..to]))
      && (udp ==> WordAt(r, from + at) != 0)
  {
    var zeroed := Splice(p, from + at, [0, 0]);
    var r := PutChecksum(p, from, to, at, pseudo, udp);
    var rest := pseudo + Sum(zeroed[from..to]);
    SumReplaceWord(zeroed[from..to], r[from..to], at);
    ComputedVerifies(rest);
  }

  /** Only the bytes outside the checksum word matter. */
  lemma {:induction false} PutChecksumForgets(p: Bytes, q: Bytes, from: nat, to: nat, at: nat, pseudo: nat, udp: bool)
    requires |p| == |q| && from + at + 2 <= to <= |p|
    requires forall i :: 0 <= i < |p| && i != from + at && i != from + at + 1 ==> p[i] == q[i]
    ensures PutChecksum(p, from, to, at, pseudo, udp) == PutChecksum(q, from, to, at, pseudo, udp)
  {
    assert Splice(p, from + at, [0, 0]) == Splice(q, from + at, [0, 0]);
  }

  /** Refreshing an accepted checksum keeps it, except that the all-ones form becomes the zero
      form unless everything else is zero; over UDP, where zero means absent, nothing changes. */
  lemma {:induction false} PutChecksumCanonical(p: Bytes, from: nat, to: nat, at: nat, pseudo: nat, udp: bool)
    requires from + at + 2 <= to <= |p| && at % 2 == 0
    requires Verifies(pseudo + Sum(p[from..to]))
    requires udp ==> WordAt(p, from + at) != 0 && pseudo > 0
    ensures Sum(p[from..to]) >= WordAt(p, from + at)
    ensures var field := WordAt(p, from + at);
      WordAt(PutChecksum(p, from, to, at, pseudo, udp), from + at)
        == if !udp && field == 65535 && pseudo + Sum(p[from..to]) > 65535 then 0 else field
  {
    hide Sum, Fold, Finish, Verifies;
    var zeroed := Splice(p, from + at, [0, 0]);
    SumReplaceWord(p[from..to], zeroed[from..to], at);
    var rest := pseudo + Sum(zeroed[from..to]);
    AcceptedIsComputed(rest, WordAt(p, from + at));
  }

  // ---- Frame: what the rewrite reads and writes ----

  /** Indices of address, port or identifier, message type and checksum bytes. */
  ghost predicate Touched(m: Meta, i: int) {
    || (m.v4 && 10 <= i < 20)
    || (!m.v4 && 8 <= i < 40)
    || TouchedTransport(m, i)
  }

  ghost predicate TouchedTransport(m: Meta, i: int) {
    var field := ChecksumOffset(m.protocol);
    || m.offset <= i < m.offset + (if m.protocol == PROTO_ICMP || m.protocol == PROTO_ICMPV6 then 6 else 4)
    || (field.Ok? && m.offset + field.value <= i < m.offset + field.value + 2)
  }

  /** The extension-header walk reads only bytes between its start and its end. */
  lemma {:induction false} WalkReadsOnly(p: Bytes, q: Bytes, total: nat, next: Byte, offset: nat, hops: nat)
    requires |p| == |q| && offset <= total
    requires Ipv6TransportOffset(p, total, next, offset, hops).Ok?
    requires forall i :: offset <= i < Ipv6TransportOffset(p, total, next, offset, hops).value.1 && i < |p|
               ==> p[i] == q[i]
    ensures Ipv6TransportOffset(q, total, next, offset, hops) == Ipv6TransportOffset(p, total, next, offset, hops)
    decreases hops
  {
    if IsOptionHeader(next) || next == PROTO_AH {
      var end := offset + ExtensionLength(next, p[offset + 1]);
      assert p[offset + 1] == q[offset + 1] && p[offset] == q[offset];
      WalkReadsOnly(p, q, total, p[offset], end, hops - 1);
    }
  }

  /** The layout of an IPv4 packet depends on four of its bytes. */
  lemma {:induction false} LayoutReadsV4(p: Bytes, q: Bytes)
    requires TransportMetadata(p).Ok? && TransportMetadata(p).value.v4 && |p| == |q|
    requires p[0] == q[0] && p[2] == q[2] && p[3] == q[3] && p[9] == q[9]
    ensures TransportMetadata(q) == TransportMetadata(p)
  {
    assert WordAt(p, 2) == WordAt(q, 2);
  }

  /** The layout of an IPv6 packet depends on four bytes and its extension headers. */
  lemma {:induction false} LayoutReadsV6(p: Bytes, q: Bytes)
    requires TransportMetadata(p).Ok? && !TransportMetadata(p).value.v4 && |p| == |q|
    requires p[0] == q[0] && p[4] == q[4] && p[5] == q[5] && p[6] == q[6]
    requires forall i :: 40 <= i < TransportMetadata(p).value.offset ==> p[i] == q[i]
    ensures TransportMetadata(q) == TransportMetadata(p)
  {
    hide Ipv6TransportOffset;
    assert WordAt(p, 4) == WordAt(q, 4);
    WalkReadsOnly(p, q, TransportMetadata(p).value.total, p[6], 40, 8);
  }

  /** Two packets that agree outside the touched bytes have the same layout. */
  lemma {:induction false} SameLayout(p: Bytes, q: Bytes, m: Meta)
    requires Rewritable(p, m) && |p| == |q|
    requires forall i :: 0 <= i < |p| && !Touched(m, i) ==> p[i] == q[i]
    ensures Rewritable(q, m)
    ensures m.v4 ==> Ipv4Fragmented(p) == Ipv4Fragmented(q)
    ensures m.protocol == PROTO_UDP ==> WordAt(p, m.offset + 4) == WordAt(q, m.offset + 4)
    ensures m.protocol == PROTO_TCP ==> p[m.offset + 12] == q[m.offset + 12]
  {
    hide TransportMetadata;
    assert p[0] == q[0];
    if m.v4 {
      assert p[2] == q[2] && p[3] == q[3] && p[6] == q[6] && p[7] == q[7] && p[9] == q[9];
      LayoutReadsV4(p, q);
    } else {
      assert p[4] == q[4] && p[5] == q[5] && p[6] == q[6];
      LayoutReadsV6(p, q);
    }
  }

  /** The pseudo-header sum reads only the addresses. */
  lemma {:induction false} PseudoReads(c: Bytes, d: Bytes, m: Meta)
    requires |c| == |d| && |c| >= (if m.v4 then 20 else 40) && m.offset <= m.total
    requires forall i :: (if m.v4 then 12 else 8) <= i < (if m.v4 then 20 else 40) ==> c[i] == d[i]
    ensures PseudoSum(c, m) == PseudoSum(d, m)
  {
    hide Sum;
    if m.v4 { assert c[12..20] == d[12..20]; } else { assert c[8..40] == d[8..40]; }
  }

  // ---- The rewrite, stage by stage ----

  ghost predicate Targets(m: Meta, t: FlowKey) {
    && t.source.V4? == t.destination.V4? == m.v4
    && t.protocol == (if m.protocol == PROTO_TCP then Tcp else if m.protocol == PROTO_UDP then Udp
                      else if m.protocol == PROTO_ICMP then Icmp else Icmpv6)
  }

  /** The address, port, identifier and type bytes of `q` spell `t`. */
  ghost predicate Spells(q: Bytes, m: Meta, t: FlowKey)
    requires Fits(q, m, t)
  {
    && SourceOf(q, m.v4) == t.source && DestinationOf(q, m.v4) == t.destination
    && (if t.IsIcmp() then WordAt(q, m.offset) == t.destinationPort && WordAt(q, m.offset + 4) == t.sourcePort
        else WordAt(q, m.offset) == t.sourcePort && WordAt(q, m.offset + 2) == t.destinationPort)
  }

  ghost predicate IsChecksumByte(m: Meta, i: int) {
    || (m.v4 && 10 <= i < 12)
    || (ChecksumOffset(m.protocol).Ok?
        && m.offset + ChecksumOffset(m.protocol).value <= i < m.offset + ChecksumOffset(m.protocol).value + 2)
  }

  lemma {:induction false} PlacedSpells(p: Bytes, m: Meta, t: FlowKey)
    requires Fits(p, m, t) && Targets(m, t)
    ensures Spells(Placed(p, m, t), m, t)
  {
    hide PutAddresses, PutFields, Be16;
    var a := PutAddresses(p, m.v4, t);
    var q := Placed(p, m, t);
    AddressesSpelled(p, m.v4, t);
    FieldsSpelled(a, m.offset, t);
    assert SourceOf(q, m.v4) == SourceOf(a, m.v4) && DestinationOf(q, m.v4) == DestinationOf(a, m.v4);
  }

  lemma AddressesSpelled(p: Bytes, v4: bool, t: FlowKey)
    requires t.source.V4? == t.destination.V4? == v4 && |p| >= (if v4 then 20 else 40)
    ensures SourceOf(PutAddresses(p, v4, t), v4) == t.source
        && DestinationOf(PutAddresses(p, v4, t), v4) == t.destination
  {
    hide Splice;
    var q := PutAddresses(p, v4, t);
    assert SourceOf(q, v4).Octets() == t.source.Octets();
    assert DestinationOf(q, v4).Octets() == t.destination.Octets();
  }

  lemma FieldsSpelled(p: Bytes, offset: nat, t: FlowKey)
    requires offset + 8 <= |p|
    ensures var q := PutFields(p, offset, t);
      && (forall i :: 0 <= i < offset ==> q[i] == p[i])
      && (if t.IsIcmp() then WordAt(q, offset) == t.destinationPort && WordAt(q, offset + 4) == t.sourcePort
          else WordAt(q, offset) == t.sourcePort && WordAt(q, offset + 2) == t.destinationPort)
  {
    hide Splice, Octets16, Be16;
  }

  lemma {:induction false} PlacedFrame(p: Bytes, m: Meta, t: FlowKey)
    requires Fits(p, m, t) && Targets(m, t)
    ensures forall i :: 0 <= i < |p| && !Touched(m, i) ==> Placed(p, m, t)[i] == p[i]
    ensures forall i :: 0 <= i < |p| && IsChecksumByte(m, i) ==> Placed(p, m, t)[i] == p[i]
  {
  }

  /** Overwriting checksum bytes does not change which flow the bytes spell. */
  lemma {:induction false} ChecksumKeepsSpelling(q: Bytes, r: Bytes, m: Meta, t: FlowKey)
    requires Fits(q, m, t) && Targets(m, t) && Spells(q, m, t) && |r| == |q|
    requires forall i :: 0 <= i < |q| && !IsChecksumByte(m, i) ==> r[i] == q[i]
    ensures Spells(r, m, t)
    ensures PseudoSum(r, m) == PseudoSum(q, m)
  {
    hide PseudoSum;
    var a := if m.v4 then 12 else 8;
    var b := if m.v4 then 16 else 24;
    var c := if m.v4 then 20 else 40;
    assert r[a..b] == q[a..b] && r[b..c] == q[b..c];
    PseudoReads(r, q, m);
    if t.IsIcmp() {
      assert r[m.offset + 4] == q[m.offset + 4] && r[m.offset + 5] == q[m.offset + 5];
    }
  }

  lemma {:induction false} HeadedVerifies(p: Bytes, m: Meta)
    requires m.v4 && 20 <= m.offset <= |p|
    ensures Verifies(Sum(Headed(p, m)[..m.offset]))
    ensures forall i :: 0 <= i < |p| && !(10 <= i < 12) ==> Headed(p, m)[i] == p[i]
  {
    PutChecksumVerifies(p, 0, m.offset, 10, 0, false);
    assert Headed(p, m)[..m.offset] == Headed(p, m)[0..m.offset];
  }

  lemma HeadedV6(p: Bytes, m: Meta)
    requires !m.v4
    ensures Headed(p, m) == p
  {
  }

  /** A receiver accepts the transport checksum, or it is absent. */
  ghost predicate TransportVerifies(q: Bytes, m: Meta)
    requires |q| >= (if m.v4 then 20 else 40) && m.total <= |q| && m.offset + 8 <= m.total
  {
    || ZeroUdp(q, m)
    || (Verifies(PseudoSum(q, m) + Sum(q[m.offset..m.total])) && (m.protocol == PROTO_UDP ==>
        WordAt(q, m.offset + 6) != 0))
  }

  lemma {:induction false} SummedFrame(p: Bytes, m: Meta, t: FlowKey)
    requires Fits(p, m, t)
    ensures forall i :: 0 <= i < |p| && !(IsChecksumByte(m, i) && i >= m.offset) ==> Summed(p, m)[i] == p[i]
    ensures PseudoSum(Summed(p, m), m) == PseudoSum(p, m)
  {
    hide Sum, Finish, PutChecksum, PseudoSum;
    PseudoReads(Summed(p, m), p, m);
  }

  lemma {:induction false} SummedVerifies(p: Bytes, m: Meta, t: FlowKey)
    requires Fits(p, m, t)
    ensures TransportVerifies(Summed(p, m), m)
    ensures ZeroUdp(Summed(p, m), m) == ZeroUdp(p, m)
  {
    SummedFrame(p, m, t);
    if !ZeroUdp(p, m) {
      PutChecksumVerifies(p, m.offset, m.total, ChecksumOffset(m.protocol).value, PseudoSum(p, m),
          m.protocol == PROTO_UDP);
    }
  }

  /** Everything about the result except its layout. */
  lemma {:induction false} RewrittenVerifies(p: Bytes, m: Meta, t: FlowKey)
    requires Fits(p, m, t) && Targets(m, t)
    ensures var q := Rewritten(p, m, t);
      && (forall i :: 0 <= i < |p| && !Touched(m, i) ==> q[i] == p[i])
      && Spells(q, m, t)
      && (m.v4 ==> Verifies(Sum(q[..m.offset])))
      && ZeroUdp(q, m) == ZeroUdp(p, m)
      && TransportVerifies(q, m)
  {
    hide Sum, PseudoSum, Placed, Headed, Summed, Verifies, TransportVerifies, Spells;
    var placed := Placed(p, m, t);
    var headed := Headed(placed, m);
    PlacedSpells(p, m, t);
    PlacedFrame(p, m, t);
    if m.v4 { HeadedVerifies(placed, m); } else { HeadedV6(placed, m); }
    SummedFrame(headed, m, t);
    SummedVerifies(headed, m, t);
    var q := Summed(headed, m);
    ChecksumKeepsSpelling(placed, q, m, t);
    assert q[..m.offset] == headed[..m.offset];
  }

  // ---- Main results ----

  /** A packet whose bytes spell `t` and whose layout is that of a parsed packet parses to `t`. */
  lemma {:induction false} SpelledParses(p: Bytes, q: Bytes, m: Meta, t: FlowKey)
    requires ParseFlowKey(p).Ok? && Rewritable(p, m) && Rewritable(q, m)
    requires Fits(q, m, t) && Targets(m, t) && Spells(q, m, t)
    requires m.v4 ==> Ipv4Fragmented(p) == Ipv4Fragmented(q)
    requires m.protocol == PROTO_UDP ==> WordAt(p, m.offset + 4) == WordAt(q, m.offset + 4)
    requires m.protocol == PROTO_TCP ==> p[m.offset + 12] == q[m.offset + 12]
    ensures ParseFlowKey(q) == if SupportedTarget(t) then Ok(t) else Err(UnsupportedIcmpType(t.destinationPort / 256))
  {
    hide TransportMetadata, BuildFlowKey;
    var body := q[m.offset..m.total];
    var before := p[m.offset..m.total];
    assert WordAt(body, 0) == WordAt(q, m.offset) && WordAt(body, 2) == WordAt(q, m.offset + 2)
        && WordAt(body, 4) == WordAt(q, m.offset + 4) && WordAt(before, 4) == WordAt(p, m.offset + 4);
    if m.protocol == PROTO_TCP {
      assert body[12] == q[m.offset + 12] && before[12] == p[m.offset + 12];
    }
    SpelledBody(before, body, SourceOf(p, m.v4), DestinationOf(p, m.v4), m.protocol, t);
  }

  /** The flow key of transport bytes that spell `t`. */
  lemma {:induction false} SpelledBody(before: Bytes, body: Bytes, source: IpAddr, destination: IpAddr, protocol: Byte,
          t: FlowKey)
    requires BuildFlowKey(source, destination, protocol, before).Ok? && |body| == |before| && |body| >= 8
    requires t.protocol == (if protocol == PROTO_TCP then Tcp else if protocol == PROTO_UDP then Udp
                            else if protocol == PROTO_ICMP then Icmp else Icmpv6)
    requires if t.IsIcmp() then WordAt(body, 0) == t.destinationPort && WordAt(body, 4) == t.sourcePort
             else WordAt(body, 0) == t.sourcePort && WordAt(body, 2) == t.destinationPort
    requires protocol == PROTO_UDP ==> WordAt(before, 4) == WordAt(body, 4)
    requires protocol == PROTO_TCP ==> before[12] == body[12]
    ensures BuildFlowKey(t.source, t.destination, protocol, body)
         == if SupportedTarget(t) then Ok(t) else Err(UnsupportedIcmpType(t.destinationPort / 256))
  {
  }

  /** The three conditions under which `validate_packet_checksums` accepts a parsed layout. */
  lemma {:induction false} VerifiesValidates(q: Bytes, m: Meta)
    requires Rewritable(q, m)
    requires m.protocol == PROTO_UDP ==> m.offset + WordAt(q, m.offset + 4) == m.total
    ensures ValidateChecksums(q) == Ok(()) <==> (m.v4 ==> Verifies(Sum(q[..m.offset]))) && TransportVerifies(q, m)
  {
    hide TransportMetadata, Sum, Finish, Verifies, PseudoSum;
    FinishZero(Sum(q[..m.offset]));
    FinishZero(PseudoSum(q, m) + Sum(q[m.offset..m.total]));
  }

  lemma ParsedOutcome(p: Bytes, t: FlowKey)
    ensures RewritePacketSpec(p, t).Ok? <==> ParseFlowKey(p).Ok? && Compatible(ParseFlowKey(p).value, t)
    ensures RewritePacketSpec(p, t).Ok? ==>
      && TransportMetadata(p).Ok? && Fits(p, TransportMetadata(p).value, t) && Targets(TransportMetadata(p).value, t)
      && RewritePacketSpec(p, t).value == Rewritten(p, TransportMetadata(p).value, t)
  {
    hide TransportMetadata, ParseFlowKey, Rewritten;
    if ParseFlowKey(p).Ok? { ParsedIsRewritable(p); }
  }

  /** The rewrite fails exactly when the packet does not parse or the target has another
      protocol or address family. Otherwise the result has the same length and layout, validates,
      differs only in touched bytes, and re-parses to the target exactly when a target ICMP type
      and code is a supported echo message. */
  lemma {:induction false} RewriteCorrect(p: Bytes, t: FlowKey)
    ensures RewritePacketSpec(p, t).Ok? <==> ParseFlowKey(p).Ok? && Compatible(ParseFlowKey(p).value, t)
    ensures RewritePacketSpec(p, t).Ok? ==>
      var q := RewritePacketSpec(p, t).value; var m := TransportMetadata(p).value;
      && |q| == |p|
      && TransportMetadata(q) == Ok(m)
      && (forall i :: 0 <= i < |p| && !Touched(m, i) ==> q[i] == p[i])
      && ValidateChecksums(q) == Ok(())
      && ParseFlowKey(q) == (if SupportedTarget(t) then Ok(t) else Err(UnsupportedIcmpType(t.destinationPort / 256)))
  {
    ParsedOutcome(p, t);
    hide TransportMetadata, ParseFlowKey, Rewritten, ValidateChecksums, Spells, TransportVerifies, Sum, Verifies,
      SupportedTarget, RewritePacketSpec;
    if RewritePacketSpec(p, t).Ok? {
      var m := TransportMetadata(p).value;
      ParsedIsRewritable(p);
      var q := Rewritten(p, m, t);
      RewrittenVerifies(p, m, t);
      SameLayout(p, q, m);
      VerifiesValidates(q, m);
      SpelledParses(p, q, m, t);
    }
  }

  /** Packets that agree outside touched bytes and on the absence of a UDP checksum are
      rewritten to the same bytes. */
  lemma {:induction false} RewrittenForgets(p: Bytes, q: Bytes, m: Meta, t: FlowKey)
    requires Fits(p, m, t) && Fits(q, m, t) && Targets(m, t) && |p| == |q|
    requires forall i :: 0 <= i < |p| && !Touched(m, i) ==> p[i] == q[i]
    requires ZeroUdp(p, m) == ZeroUdp(q, m)
    ensures Rewritten(p, m, t) == Rewritten(q, m, t)
  {
    hide Sum, Finish, Verifies, Placed, Summed, PseudoSum;
    var a, b := Placed(p, m, t), Placed(q, m, t);
    PlacedFrame(p, m, t);
    PlacedFrame(q, m, t);
    PlacedAgree(p, q, m, t);
    if m.v4 {
      HeadedVerifies(a, m);
      HeadedVerifies(b, m);
      assert Splice(a, 10, [0, 0])[0..m.offset] == Splice(b, 10, [0, 0])[0..m.offset];
    }
    var c, d := Headed(a, m), Headed(b, m);
    SummedForgets(c, d, m, t, m.offset + ChecksumOffset(m.protocol).value);
  }

  lemma {:induction false} PlacedAgree(p: Bytes, q: Bytes, m: Meta, t: FlowKey)
    requires Fits(p, m, t) && Fits(q, m, t) && Targets(m, t) && |p| == |q|
    requires forall i :: 0 <= i < |p| && !Touched(m, i) ==> p[i] == q[i]
    ensures forall i :: 0 <= i < |p| && !IsChecksumByte(m, i) ==> Placed(p, m, t)[i] == Placed(q, m, t)[i]
  {
    hide PutAddresses, PutFields;
    var a, b := PutAddresses(p, m.v4, t), PutAddresses(q, m.v4, t);
    forall i | 0 <= i < |p| && !IsChecksumByte(m, i) ensures Placed(p, m, t)[i] == Placed(q, m, t)[i] {
      if !TouchedTransport(m, i) { AddressesAgree(p, q, m.v4, t, i); }
      FieldsAgree(a, b, m.offset, t, i);
    }
  }

  /** Both packets get the same addresses and keep every other byte. */
  lemma AddressesAgree(p: Bytes, q: Bytes, v4: bool, t: FlowKey, i: nat)
    requires t.source.V4? == t.destination.V4? == v4 && |p| == |q| && |p| >= (if v4 then 20 else 40) && i < |p|
    requires p[i] == q[i] || (if v4 then 12 <= i < 20 else 8 <= i < 40)
    ensures PutAddresses(p, v4, t)[i] == PutAddresses(q, v4, t)[i]
  {
    hide Splice;
  }

  /** Both packets get the same transport fields and keep every other byte. */
  lemma FieldsAgree(p: Bytes, q: Bytes, offset: nat, t: FlowKey, i: nat)
    requires offset + 8 <= |p| == |q| && i < |p|
    requires p[i] == q[i] || offset <= i < offset + 2 || (if t.IsIcmp() then offset + 4 <= i < offset + 6
        else offset + 2 <= i < offset + 4)
    ensures PutFields(p, offset, t)[i] == PutFields(q, offset, t)[i]
  {
    hide Splice, Octets16;
  }

  lemma {:induction false} SummedForgets(c: Bytes, d: Bytes, m: Meta, t: FlowKey, at: nat)
    requires Fits(c, m, t) && |c| == |d| && ZeroUdp(c, m) == ZeroUdp(d, m)
    requires at == m.offset + ChecksumOffset(m.protocol).value
    requires forall i :: 0 <= i < |c| && i != at && i != at + 1 ==> c[i] == d[i]
    ensures Summed(c, m) == Summed(d, m)
  {
    hide PutChecksum, PseudoSum, ZeroUdp;
    if ZeroUdp(c, m) {
      ZeroUdpSame(c, d, m, at);
    } else {
      PseudoReads(c, d, m);
      PutChecksumForgets(c, d, m.offset, m.total, at - m.offset, PseudoSum(c, m), m.protocol == PROTO_UDP);
    }
  }

  lemma {:induction false} ZeroUdpSame(c: Bytes, d: Bytes, m: Meta, at: nat)
    requires |c| == |d| && m.offset + 8 <= |c| && ZeroUdp(c, m) && ZeroUdp(d, m)
    requires ChecksumOffset(m.protocol).Ok? && at == m.offset + ChecksumOffset(m.protocol).value
    requires forall i :: 0 <= i < |c| && i != at && i != at + 1 ==> c[i] == d[i]
    ensures c == d
  {
    hide Be16;
    assert at == m.offset + 6 && WordAt(c, at) == 0 && WordAt(d, at) == 0;
    EqualWords(c, d, at);
    assert forall i :: 0 <= i < |c| ==> c[i] == d[i];
  }

  lemma PseudoPositive(p: Bytes, m: Meta)
    requires |p| >= (if m.v4 then 20 else 40) && m.offset <= m.total && m.protocol == PROTO_UDP
    ensures PseudoSum(p, m) > 0
  {
  }

  lemma Incompatible(p: Bytes, t: FlowKey)
    requires ParseFlowKey(p).Ok? && !Compatible(ParseFlowKey(p).value, t)
    ensures RewritePacketSpec(p, t) == Err(InvalidTranslation)
  {
    hide TransportMetadata, ParseFlowKey;
  }

  /** Rewriting through any supported intermediate flow leaves no trace: only the last target counts. */
  lemma {:induction false} RewriteComposes(p: Bytes, t: FlowKey, u: FlowKey)
    requires ParseFlowKey(p).Ok? && Compatible(ParseFlowKey(p).value, t) && SupportedTarget(t)
    ensures RewritePacketSpec(p, t).Ok?
    ensures RewritePacketSpec(RewritePacketSpec(p, t).value, u) == RewritePacketSpec(p, u)
  {
    hide TransportMetadata, ParseFlowKey, Rewritten, ValidateChecksums, Spells, TransportVerifies, Sum, Verifies,
      SupportedTarget, RewritePacketSpec, ZeroUdp;
    RewriteCorrect(p, t);
    ParsedIsRewritable(p);
    ParsedOutcome(p, t);
    ParsedOutcome(p, u);
    var q := RewritePacketSpec(p, t).value;
    ParsedOutcome(q, u);
    var m := TransportMetadata(p).value;
    RewrittenVerifies(p, m, t);
    if Compatible(ParseFlowKey(p).value, u) {
      RewrittenForgets(p, q, m, u);
    } else {
      Incompatible(p, u);
      Incompatible(q, u);
    }
  }

  /** The stored form of an accepted checksum word after a refresh. */
  function NormalWord(field: U16, absorbed: bool): (r: U16) {
    if field == 65535 && absorbed then 0 else field
  }

  lemma {:induction false} OwnFlowSpells(p: Bytes, m: Meta)
    requires ParseFlowKey(p).Ok? && TransportMetadata(p) == Ok(m)
    ensures Fits(p, m, ParseFlowKey(p).value) && Targets(m, ParseFlowKey(p).value)
    ensures Spells(p, m, ParseFlowKey(p).value)
  {
    ParsedIsRewritable(p);
    var body := p[m.offset..m.total];
    assert WordAt(body, 0) == WordAt(p, m.offset) && WordAt(body, 2) == WordAt(p, m.offset + 2)
        && WordAt(body, 4) == WordAt(p, m.offset + 4);
  }

  /** The packet has the layout of a whole transport header and its bytes spell the flow: addresses,
      ports (for ICMP: identifier and a supported type), and a UDP length or TCP header length that
      fits the packet. */
  ghost predicate ReadsAs(p: Bytes, m: Meta, f: FlowKey) {
    && Rewritable(p, m) && Fits(p, m, f) && Targets(m, f) && Spells(p, m, f) && SupportedTarget(f)
    && (m.v4 ==> !Ipv4Fragmented(p))
    && (m.protocol == PROTO_UDP ==> m.offset + WordAt(p, m.offset + 4) == m.total)
    && (m.protocol == PROTO_TCP ==> 20 <= p[m.offset + 12] / 16 * 4 <= m.total - m.offset)
  }

  lemma {:induction false} ReadsParses(p: Bytes, m: Meta, f: FlowKey)
    requires ReadsAs(p, m, f)
    ensures ParseFlowKey(p) == Ok(f)
  {
    hide TransportMetadata, Be16;
    var body := p[m.offset..m.total];
    assert WordAt(body, 0) == WordAt(p, m.offset) && WordAt(body, 2) == WordAt(p, m.offset + 2)
        && WordAt(body, 4) == WordAt(p, m.offset + 4);
    assert body[0] == p[m.offset] && body[1] == p[m.offset + 1];
    if m.protocol == PROTO_TCP { assert body[12] == p[m.offset + 12]; }
    if f.IsIcmp() { HalvesOf(body[0], body[1]); }
  }

  lemma HalvesOf(high: Byte, low: Byte)
    ensures Be16(high, low) / 256 == high && Be16(high, low) % 256 == low
  {
  }

  lemma {:induction false} ParsesReads(p: Bytes, f: FlowKey)
    requires ParseFlowKey(p) == Ok(f)
    ensures TransportMetadata(p).Ok? && ReadsAs(p, TransportMetadata(p).value, f)
  {
    hide TransportMetadata, Be16;
    var m := TransportMetadata(p).value;
    ParsedIsRewritable(p);
    OwnFlowSpells(p, m);
    var body := p[m.offset..m.total];
    assert WordAt(body, 0) == WordAt(p, m.offset) && body[0] == p[m.offset] && body[1] == p[m.offset + 1];
    if m.protocol == PROTO_TCP { assert body[12] == p[m.offset + 12]; }
    HalvesOf(body[0], body[1]);
  }

  /** A packet parses to a flow if and only if it is unfragmented and its bytes read as that flow. */
  lemma {:induction false} FlowIff(p: Bytes, f: FlowKey)
    ensures ParseFlowKey(p) == Ok(f) <==> TransportMetadata(p).Ok? && ReadsAs(p, TransportMetadata(p).value, f)
  {
    hide ParseFlowKey, ReadsAs, TransportMetadata;
    if ParseFlowKey(p) == Ok(f) { ParsesReads(p, f); }
    if TransportMetadata(p).Ok?
        && ReadsAs(p, TransportMetadata(p).value, f) { ReadsParses(p, TransportMetadata(p).value, f); }
  }

  lemma SpliceSame(p: Bytes, at: nat, bytes: Bytes)
    requires at + |bytes| <= |p| && p[at..at + |bytes|] == bytes
    ensures Splice(p, at, bytes) == p
  {
  }

  lemma SpliceWord(p: Bytes, at: nat)
    requires at + 2 <= |p|
    ensures Splice(p, at, Octets16(WordAt(p, at))) == p
  {
    assert p[at..at + 2] == Octets16(WordAt(p, at));
    SpliceSame(p, at, Octets16(WordAt(p, at)));
  }

  /** Placing a packet's own flow changes nothing. */
  lemma {:induction false} OwnFlowPlaced(p: Bytes, m: Meta, f: FlowKey)
    requires Fits(p, m, f) && Targets(m, f) && Spells(p, m, f)
    ensures Placed(p, m, f) == p
  {
    SpliceSame(p, if m.v4 then 12 else 8, f.source.Octets());
    SpliceSame(p, if m.v4 then 16 else 24, f.destination.Octets());
    SpliceWord(p, m.offset);
    if f.IsIcmp() { SpliceWord(p, m.offset + 4); } else { SpliceWord(p, m.offset + 2); }
  }

  /** `q` is `p` with each checksum word that holds the all-ones form of zero turned into zero:
      the IPv4 header word, and the TCP, ICMP or ICMPv6 word unless everything else it covers is
      zero (an ICMP message over IPv4). UDP checksum words stay exactly as they are. */
  ghost predicate Normalised(p: Bytes, q: Bytes, m: Meta)
    requires ChecksumOffset(m.protocol).Ok? && m.offset + ChecksumOffset(m.protocol).value + 2 <= m.total <= |p|
    requires |p| >= if m.v4 then 20 else 40
  {
    var at := m.offset + ChecksumOffset(m.protocol).value;
    && |q| == |p|
    && (forall i :: 0 <= i < |p| && !IsChecksumByte(m, i) ==> q[i] == p[i])
    && (m.v4 ==> WordAt(q, 10) == NormalWord(WordAt(p, 10), true))
    && WordAt(q, at) == (if m.protocol == PROTO_UDP then WordAt(p, at)
                         else NormalWord(WordAt(p, at), PseudoSum(p, m) + Sum(p[m.offset..m.total]) > 65535))
  }

  lemma {:induction false} HeadedNormal(p: Bytes, m: Meta)
    requires m.v4 && 20 <= m.offset <= |p| && Version(p) == 4 && Verifies(Sum(p[..m.offset]))
    ensures WordAt(Headed(p, m), 10) == NormalWord(WordAt(p, 10), true)
    ensures forall i :: 0 <= i < |p| && !(10 <= i < 12) ==> Headed(p, m)[i] == p[i]
  {
    var h := p[..m.offset];
    assert p[0..m.offset] == h;
    PutChecksumCanonical(p, 0, m.offset, 10, 0, false);
    SumAround(h, 10);
    assert WordAt(h, 10) == WordAt(p, 10);
    assert h[..10][0] == p[0];
    assert Sum(h[..10]) >= Be16(h[..10][0], h[..10][1]) > 0;
  }

  lemma {:induction false} SummedNormal(p: Bytes, h: Bytes, m: Meta, f: FlowKey)
    requires Fits(p, m, f) && |h| == |p| && TransportVerifies(p, m)
    requires forall i :: 0 <= i < |p| && !(m.v4 && 10 <= i < 12) ==> h[i] == p[i]
    ensures var at := m.offset + ChecksumOffset(m.protocol).value; var q := Summed(h, m);
      && (forall i :: 0 <= i < |p| && i != at && i != at + 1 ==> q[i] == h[i])
      && WordAt(q, at) == (if m.protocol == PROTO_UDP then WordAt(p, at)
                           else NormalWord(WordAt(p, at), PseudoSum(p, m) + Sum(p[m.offset..m.total]) > 65535))
  {
    hide Sum, Finish, Verifies, PutChecksum, PseudoSum;
    PseudoReads(h, p, m);
    if m.protocol == PROTO_UDP { PseudoPositive(h, m); }
    assert h[m.offset..m.total] == p[m.offset..m.total];
    if !ZeroUdp(p, m) {
      PutChecksumCanonical(h, m.offset, m.total, ChecksumOffset(m.protocol).value, PseudoSum(h, m),
          m.protocol == PROTO_UDP);
    }
  }

  lemma {:induction false} RefreshedStages(p: Bytes, m: Meta, f: FlowKey)
    requires Fits(p, m, f) && Version(p) == (if m.v4 then 4 else 6) && TransportVerifies(p, m)
    requires m.v4 ==> Verifies(Sum(p[..m.offset]))
    ensures Normalised(p, Summed(Headed(p, m), m), m)
  {
    var h := Headed(p, m);
    if m.v4 { HeadedNormal(p, m); }
    SummedNormal(p, h, m, f);
    var q := Summed(h, m);
    assert forall i :: 0 <= i < |p| && !IsChecksumByte(m, i) ==> q[i] == h[i] && h[i] == p[i];
    if m.v4 {
      assert q[10] == h[10] && q[11] == h[11];
    }
  }

  /** Rewriting a valid packet to its own flow only normalises its checksums. */
  lemma {:induction false} RefreshNormalises(p: Bytes)
    requires ParseFlowKey(p).Ok? && ValidateChecksums(p) == Ok(())
    ensures Rewritable(p, TransportMetadata(p).value)
    ensures RewritePacketSpec(p, ParseFlowKey(p).value).Ok?
    ensures Normalised(p, RewritePacketSpec(p, ParseFlowKey(p).value).value, TransportMetadata(p).value)
  {
    var f := ParseFlowKey(p).value;
    var m := TransportMetadata(p).value;
    ParsedIsRewritable(p);
    OwnFlowSpells(p, m);
    OwnFlowPlaced(p, m, f);
    VerifiesValidates(p, m);
    RefreshedStages(p, m, f);
  }

  /** No checksum word holds the all-ones form of zero, which a rewrite stores as zero: neither the IPv4
      header word nor a TCP, ICMP or ICMPv6 word that covers anything else than zeros. */
  ghost predicate Canonical(p: Bytes, m: Meta)
    requires ChecksumOffset(m.protocol).Ok? && m.offset + ChecksumOffset(m.protocol).value + 2 <= m.total <= |p|
    requires |p| >= if m.v4 then 20 else 40
  {
    && (m.v4 ==> WordAt(p, 10) != 65535)
    && (|| m.protocol == PROTO_UDP || WordAt(p, m.offset + ChecksumOffset(m.protocol).value) != 65535
        || PseudoSum(p, m) + Sum(p[m.offset..m.total]) <= 65535)
  }

  lemma {:induction false} NormalisedIsSame(p: Bytes, q: Bytes, m: Meta)
    requires Rewritable(p, m) && Normalised(p, q, m)
    ensures q == p <==> Canonical(p, m)
  {
    hide TransportMetadata, PseudoSum, Sum;
    var at := m.offset + ChecksumOffset(m.protocol).value;
    if Canonical(p, m) {
      if m.v4 { EqualWords(p, q, 10); }
      EqualWords(p, q, at);
      assert forall i :: 0 <= i < |p| && IsChecksumByte(m, i) ==> (m.v4 && 10 <= i < 12) || at <= i < at + 2;
    }
  }

  /** Translating a valid packet to any supported compatible flow and back gives the packet up to the
      normal form of its checksums: the packet itself if and only if it is canonical. */
  lemma {:induction false} RoundTrip(p: Bytes, t: FlowKey)
    requires ParseFlowKey(p).Ok? && ValidateChecksums(p) == Ok(())
    requires Compatible(ParseFlowKey(p).value, t) && SupportedTarget(t)
    ensures RewritePacketSpec(p, t).Ok?
    ensures Rewritable(p, TransportMetadata(p).value)
    ensures var back := RewritePacketSpec(RewritePacketSpec(p, t).value, ParseFlowKey(p).value);
      && back.Ok? && Normalised(p, back.value, TransportMetadata(p).value)
      && (back.value == p <==> Canonical(p, TransportMetadata(p).value))
  {
    hide RewritePacketSpec, ParseFlowKey, ValidateChecksums, Normalised, Canonical, Compatible, SupportedTarget;
    RewriteComposes(p, t, ParseFlowKey(p).value);
    RefreshNormalises(p);
    NormalisedIsSame(p, RewritePacketSpec(RewritePacketSpec(p, t).value, ParseFlowKey(p).value).value,
        TransportMetadata(p).value);
  }

  lemma EqualWords(p: Bytes, q: Bytes, at: nat)
    requires at + 2 <= |p| && at + 2 <= |q| && WordAt(p, at) == WordAt(q, at)
    ensures p[at] == q[at] && p[at + 1] == q[at + 1]
  {
  }

  /** A UDP packet from 10.0.0.1 port 1 to 10.0.0.2 port 2 whose header checksum is all ones. */
  function AllOnesByte(i: nat): (r: Byte) {
    match i
    case 0 => 0x45 case 3 => 28 case 4 => 0x66 case 5 => 0xCF case 8 => 64 case 9 => 17 case 10 => 0xFF case 11 => 0xFF
    case 12 => 10 case 15 => 1 case 16 => 10 case 19 => 2 case 21 => 1 case 23 => 2 case 25 => 8
    case _ => 0
  }

  function AllOnes(): (r: Bytes)
    ensures |r| == 28 && forall i :: 0 <= i < 28 ==> r[i] == AllOnesByte(i)
  {
    seq(28, i requires 0 <= i < 28 => AllOnesByte(i))
  }

  lemma {:induction false} SumTen(s: Bytes)
    requires |s| == 20
    ensures Sum(s) == WordAt(s, 0) + WordAt(s, 2) + WordAt(s, 4) + WordAt(s, 6) + WordAt(s, 8)
                   + WordAt(s, 10) + WordAt(s, 12) + WordAt(s, 14) + WordAt(s, 16) + WordAt(s, 18)
  {
    hide Be16;
    assert forall k: nat :: k <= 9 ==> Sum(s[2 * k..]) == WordAt(s, 2 * k) + Sum(s[2 * (k + 1)..]) by {
      forall k: nat | k <= 9 ensures Sum(s[2 * k..]) == WordAt(s, 2 * k) + Sum(s[2 * (k + 1)..]) {
        SumFirst(s[2 * k..]);
        assert s[2 * k..][2..] == s[2 * (k + 1)..];
      }
    }
    assert s[2 * 0..] == s && s[2 * 10..] == [];
  }

  lemma SumFirst(s: Bytes)
    requires |s| >= 2
    ensures Sum(s) == WordAt(s, 0) + Sum(s[2..])
  {
  }

  lemma PlainLayout(p: Bytes, total: nat)
    requires |p| == total >= 20 && p[0] == 0x45 && WordAt(p, 2) == total && WordAt(p, 6) == 0
    ensures TransportMetadata(p) == Ok(Meta(true, p[9], 20, total)) && !Ipv4Fragmented(p)
  {
    hide Ipv6TransportOffset, Be16;
  }

  lemma {:induction false} AllOnesWords()
    ensures var p := AllOnes();
      && p[0] == 0x45 && WordAt(p, 2) == 28 && WordAt(p, 6) == 0 && p[9] == 17 && WordAt(p, 10) == 65535
      && WordAt(p, 24) == 8 && WordAt(p, 26) == 0
  {
    hide AllOnes;
    var p := AllOnes();
    assert p[2] == 0 && p[3] == 28 && p[6] == 0 && p[7] == 0 && p[10] == 255 && p[11] == 255;
    assert p[24] == 0 && p[25] == 8 && p[26] == 0 && p[27] == 0;
  }

  lemma {:induction false} AllOnesLayout()
    ensures TransportMetadata(AllOnes()) == Ok(Meta(true, PROTO_UDP, 20, 28)) && !Ipv4Fragmented(AllOnes())
  {
    hide AllOnes, AllOnesByte, TransportMetadata, Ipv4Fragmented, Be16;
    AllOnesWords();
    PlainLayout(AllOnes(), 28);
  }

  lemma {:induction false} AllOnesHeader()
    ensures Sum(AllOnes()[..20]) == 65535 * 2
  {
    hide Sum, AllOnes;
    var h := AllOnes()[..20];
    SumTen(h);
    assert WordAt(h, 0) == 0x4500 && WordAt(h, 2) == 28 && WordAt(h, 4) == 0x66CF && WordAt(h, 6) == 0
        && WordAt(h, 8) == 0x4011;
    assert WordAt(h, 10) == 65535 && WordAt(h, 12) == 0x0A00 && WordAt(h, 14) == 1 && WordAt(h, 16) == 0x0A00
        && WordAt(h, 18) == 2;
  }

  lemma {:induction false} AllOnesValid()
    ensures ParseFlowKey(AllOnes()).Ok? && ParseFlowKey(AllOnes()).value.protocol == Udp
    ensures ParseFlowKey(AllOnes()).value.source.V4? && ParseFlowKey(AllOnes()).value.destination.V4?
    ensures ValidateChecksums(AllOnes()) == Ok(())
  {
    AllOnesLayout();
    AllOnesWords();
    AllOnesHeader();
    var p := AllOnes();
    hide TransportMetadata, Sum, Finish, Be16, Ipv4Fragmented, AllOnes, AllOnesByte;
    FinishZero(Sum(p[..20]));
    assert |p[20..28]| == 8 && WordAt(p[20..28], 4) == WordAt(p, 24);
  }

  /** The round trip loses an all-ones header word: the packet is valid and comes back different. */
  lemma {:induction false} AllOnesIsLost(t: FlowKey)
    requires t.protocol == Udp && t.source.V4? && t.destination.V4?
    ensures var p := AllOnes();
      && ParseFlowKey(p).Ok? && ValidateChecksums(p) == Ok(()) && RewritePacketSpec(p, t).Ok?
      && RewritePacketSpec(RewritePacketSpec(p, t).value, ParseFlowKey(p).value) != Ok(p)
  {
    hide RewritePacketSpec, ParseFlowKey, ValidateChecksums, TransportMetadata, Sum, PseudoSum, Be16, AllOnes,
      AllOnesByte;
    AllOnesValid();
    AllOnesLayout();
    AllOnesWords();
    RoundTrip(AllOnes(), t);
  }

  // ---- The in-place algorithm ----

  method CopyInto(packet: array<Byte>, at: nat, bytes: Bytes)
    requires at + |bytes| <= packet.Length
    modifies packet
    ensures packet[..] == Splice(old(packet[..]), at, bytes)
  {
    forall i | 0 <= i < |bytes| {
      packet[at + i] := bytes[i];
    }
  }

  lemma PseudoBound(p: Bytes, m: Meta)
    requires |p| >= (if m.v4 then 20 else 40) && m.offset <= m.total <= 65575
    ensures PseudoSum(p, m) <= 18 * 65535
  {
    SumBound(p[12..20]);
    if !m.v4 { SumBound(p[8..40]); }
  }

  /** The pseudo-header part of `write_transport_checksum_ipv4` and `_ipv6`. */
  method PseudoAccumulate(packet: array<Byte>, m: Meta) returns (sum: U32)
    requires packet.Length >= (if m.v4 then 20 else 40) && m.offset <= m.total <= 65575
    ensures sum == PseudoSum(packet[..], m)
  {
    if m.v4 && m.protocol == PROTO_ICMP { return 0; }
    var len := m.total - m.offset;
    if m.v4 {
      SumBound(packet[12..20]);
      assert packet[..][12..20] == packet[12..20];
      sum := ChecksumAdd(0, packet, 12, 20);
      sum := sum + m.protocol + len;
    } else {
      SumBound(packet[8..40]);
      assert packet[..][8..40] == packet[8..40];
      sum := ChecksumAdd(0, packet, 8, 40);
      sum := sum + (len / 65536 + len % 65536) + m.protocol;
    }
  }

  /** Zero the field, sum in 32 bits without overflow, store the complement. */
  method StoreChecksum(packet: array<Byte>, from: nat, to: nat, at: nat, pseudo: U32, udp: bool)
    requires from + at + 2 <= to <= packet.Length
    requires pseudo + 65535 * ((to - from + 1) / 2) < 0x1_0000_0000
    modifies packet
    ensures packet[..] == PutChecksum(old(packet[..]), from, to, at, pseudo, udp)
  {
    CopyInto(packet, from + at, [0, 0]);
    assert packet[from..to] == packet[..][from..to];
    var sum := ChecksumAdd(pseudo, packet, from, to);
    var checksum := ChecksumFinish(sum);
    CopyInto(packet, from + at, Octets16(EncodeUdpZero(udp, checksum)));
  }

  /** `rewrite_transport_fields` and the address part of the family-specific rewrites. */
  method PlaceFields(packet: array<Byte>, m: Meta, t: FlowKey)
    requires Fits(packet[..], m, t)
    modifies packet
    ensures packet[..] == Placed(old(packet[..]), m, t)
  {
    CopyInto(packet, if m.v4 then 12 else 8, t.source.Octets());
    CopyInto(packet, if m.v4 then 16 else 24, t.destination.Octets());
    CopyInto(packet, m.offset, Octets16(if t.IsIcmp() then t.destinationPort else t.sourcePort));
    if t.IsIcmp() {
      CopyInto(packet, m.offset + 4, Octets16(t.sourcePort));
    } else {
      CopyInto(packet, m.offset + 2, Octets16(t.destinationPort));
    }
  }

  /** The checksum part: header first, then transport unless UDP over IPv4 carries none. */
  method RefreshChecksums(packet: array<Byte>, m: Meta, ghost t: FlowKey)
    requires Fits(packet[..], m, t) && m.total <= 65575 && m.offset <= 65575
    modifies packet
    ensures packet[..] == Summed(Headed(old(packet[..]), m), m)
  {
    hide Sum, Finish, PutChecksum, PseudoSum;
    if m.v4 {
      StoreChecksum(packet, 0, m.offset, 10, 0, false);
    }
    assert packet[..] == Headed(old(packet[..]), m);
    if !ZeroUdp(packet[..], m) {
      PseudoBound(packet[..], m);
      var pseudo := PseudoAccumulate(packet, m);
      StoreChecksum(packet, m.offset, m.total, ChecksumOffset(m.protocol).value, pseudo, m.protocol == PROTO_UDP);
    }
  }

  /** `rewrite_packet`: the buffer ends up as `RewritePacketSpec` says and is untouched on error. */
  method RewritePacket(packet: array<Byte>, t: FlowKey) returns (r: Result<(), PacketError>)
    modifies packet
    ensures match RewritePacketSpec(old(packet[..]), t)
            case Ok(q) => r == Ok(()) && packet[..] == q
            case Err(e) => r == Err(e) && packet[..] == old(packet[..])
  {
    ghost var p := packet[..];
    ParsedOutcome(p, t);
    hide TransportMetadata, ParseFlowKey, Placed, Headed, Summed;
    var parsed := ParseFlowKey(packet[..]);
    if parsed.Err? { return Err(parsed.error); }
    if !Compatible(parsed.value, t) { return Err(InvalidTranslation); }
    var m := TransportMetadata(packet[..]).value;
    PlaceFields(packet, m, t);
    RefreshChecksums(packet, m, t);
    r := Ok(());
  }
}
