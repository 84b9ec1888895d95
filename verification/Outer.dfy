/** Outer UDP packets of the tunnel: the scatter checksum over several slices and the builders
    `fill_ipv4_udp` and `fill_ipv6_udp`. */
module Outer {
  import opened Core
  import opened Checksum
  import opened Packet
  import opened Rewrite

  function Concat(parts: seq<Bytes>): (r: Bytes) {
    if |parts| == 0 then [] else Concat(parts[..|parts| - 1]) + parts[|parts| - 1]
  }

  /** What the accumulator of `checksum_parts` stands for: the words summed so far and an odd
      byte still waiting for its low half. */
  ghost predicate Accumulates(sum: nat, high: Option<Byte>, s: Bytes) {
    && (high.Some? <==> |s| % 2 == 1)
    && (high.Some? ==> high.value == s[|s| - 1] && sum == Sum(s[..|s| - 1]))
    && (high.None? ==> sum == Sum(s))
  }

  lemma {:induction false} AccumulatedSum(sum: nat, high: Option<Byte>, s: Bytes)
    requires Accumulates(sum, high, s)
    ensures Sum(s) == sum + if high.Some? then Be16(high.value, 0) else 0
  {
    if high.Some? { SumLastByte(s); }
  }

  /** Feeding one more byte. */
  lemma {:induction false} AccumulateByte(sum: nat, high: Option<Byte>, s: Bytes, b: Byte)
    requires Accumulates(sum, high, s)
    ensures if high.Some? then Accumulates(sum + Be16(high.value, b), None, s + [b])
            else Accumulates(sum, Some(b), s + [b])
  {
    if high.Some? {
      var even := s[..|s| - 1];
      assert s + [b] == even + [high.value, b];
      SumAppend(even, [high.value, b]);
    } else {
      assert (s + [b])[..|s|] == s;
    }
  }

  /** Feeding two bytes at an even position. */
  lemma {:induction false} AccumulateWord(sum: nat, s: Bytes, a: Byte, b: Byte)
    requires Accumulates(sum, None, s)
    ensures Accumulates(sum + Be16(a, b), None, s + [a, b])
  {
    SumAppend(s, [a, b]);
  }

  /** One part of the scatter checksum: join a waiting byte, take whole words, keep an odd byte. */
  method AddPart(sum: U32, high: Option<Byte>, part: Bytes, ghost before: Bytes)
          returns (sum': U32, high': Option<Byte>)
    requires Accumulates(sum, high, before)
    requires 65535 * ((|before| + |part| + 1) / 2) < 0x1_0000_0000
    ensures Accumulates(sum', high', before + part)
  {
    sum', high' := sum, high;
    var offset := 0;
    if high.Some? {
      if |part| == 0 {
        assert before + part == before;
        return;
      }
      AccumulateByte(sum, high, before, part[0]);
      SumBound(before + part[..1]);
      assert before + part[..1] == before + [part[0]];
      sum', high', offset := sum + Be16(high.value, part[0]), None, 1;
    } else {
      assert before + part[..0] == before;
    }
    while offset + 2 <= |part|
      invariant offset <= |part|
      invariant Accumulates(sum', None, before + part[..offset]) && high' == None
    {
      AccumulateWord(sum', before + part[..offset], part[offset], part[offset + 1]);
      assert before + part[..offset + 2] == before + part[..offset] + [part[offset], part[offset + 1]];
      SumBound(before + part[..offset + 2]);
      sum', offset := sum' + Be16(part[offset], part[offset + 1]), offset + 2;
    }
    if offset < |part| {
      AccumulateByte(sum', None, before + part[..offset], part[offset]);
      assert before + part == before + part[..offset] + [part[offset]];
      high' := Some(part[offset]);
    } else {
      assert part[..offset] == part;
    }
  }

  lemma {:induction false} ConcatPrefixLength(parts: seq<Bytes>, i: nat)
    requires i <= |parts|
    ensures |Concat(parts[..i])| <= |Concat(parts)|
    decreases |parts| - i
  {
    if i < |parts| {
      assert parts[..i + 1][..i] == parts[..i];
      ConcatPrefixLength(parts, i + 1);
    } else {
      assert parts[..i] == parts;
    }
  }

  /** `checksum_parts`: whatever the slice boundaries, the checksum of the concatenation. */
  method ChecksumParts(parts: seq<Bytes>) returns (r: U16)
    requires 65535 * ((|Concat(parts)| + 1) / 2) < 0x1_0000_0000
    ensures r == InternetChecksum(Concat(parts))
  {
    var sum: U32, high: Option<Byte> := 0, None;
    for i := 0 to |parts|
      invariant Accumulates(sum, high, Concat(parts[..i]))
    {
      assert parts[..i + 1][..i] == parts[..i];
      ConcatPrefixLength(parts, i + 1);
      sum, high := AddPart(sum, high, parts[i], Concat(parts[..i]));
    }
    assert parts[..|parts|] == parts;
    AccumulatedSum(sum, high, Concat(parts));
    SumBound(Concat(parts));
    if high.Some? {
      sum := sum + Be16(high.value, 0);
    }
    r := ChecksumFinish(sum);
  }

  // ---- Building outer packets ----

  /** `len as u16`. */
  function Len16(len: nat): (r: U16)
    ensures len < 65536 ==> r == len
  {
    len % 65536
  }

  /** A 20-byte IPv4 header with do-not-fragment, TTL 64, protocol UDP and a zero checksum. */
  function Ipv4Header(total: U16, source: Ipv4Addr, destination: Ipv4Addr): (r: Bytes)
    ensures |r| == 20 && r[0] == 0x45 && WordAt(r, 2) == total && WordAt(r, 6) == 0x4000 && r[9] == 17
    ensures r[12..16] == source && r[16..20] == destination
  {
    var head := [0x45, 0] + Octets16(total) + [0, 0, 0x40, 0, 64, 17, 0, 0];
    head + source + destination
  }

  /** A 40-byte IPv6 header with next header UDP and hop limit 64. */
  function Ipv6Header(length: U16, source: Ipv6Addr, destination: Ipv6Addr): (r: Bytes)
    ensures |r| == 40 && r[0] == 0x60 && WordAt(r, 4) == length && r[6] == 17
    ensures r[8..24] == source && r[24..40] == destination
  {
    var head := [0x60, 0, 0, 0] + Octets16(length) + [17, 64];
    head + source + destination
  }

  function UdpHeader(sourcePort: U16, destinationPort: U16, length: U16): (r: Bytes)
    ensures |r| == 8 && WordAt(r, 0) == sourcePort && WordAt(r, 2) == destinationPort && WordAt(r, 4) == length
  {
    Octets16(sourcePort) + Octets16(destinationPort) + Octets16(length) + [0, 0]
  }

  /** `fill_ipv4_udp` into a zeroed buffer; lengths are truncated to 16 bits. */
  function Ipv4Udp(source: Ipv4Addr, destination: Ipv4Addr, sourcePort: U16, destinationPort: U16, payload: Bytes)
    : (r: Bytes)
    ensures |r| == 28 + |payload|
  {
    var header := Ipv4Header(Len16(28 + |payload|), source, destination);
    var udp := UdpHeader(sourcePort, destinationPort, Len16(8 + |payload|));
    var headed := PutChecksum(header + udp + payload, 0, 20, 10, 0, false);
    PutChecksum(headed, 20, |headed|, 6, Sum(headed[12..20]) + 17 + Len16(|headed| - 20), true)
  }

  /** `fill_ipv6_udp` into a zeroed buffer; lengths are truncated to 16 bits. */
  function Ipv6Udp(source: Ipv6Addr, destination: Ipv6Addr, sourcePort: U16, destinationPort: U16, payload: Bytes)
    : (r: Bytes)
    ensures |r| == 48 + |payload|
  {
    var header := Ipv6Header(Len16(8 + |payload|), source, destination);
    var udp := UdpHeader(sourcePort, destinationPort, Len16(8 + |payload|));
    var base := header + udp + payload;
    var len := (|base| - 40) % 0x1_0000_0000;
    PutChecksum(base, 40, |base|, 6, Sum(base[8..40]) + (len / 65536 + len % 65536) + 17, true)
  }

  /** `p` is `header + udp + payload` outside checksum words: its fields read back. */
  lemma {:induction false} FieldsRead(p: Bytes, header: Bytes, udp: Bytes, payload: Bytes, v4: bool)
    requires |header| == (if v4 then 20 else 40) && |udp| == 8
    requires |p| == |header| + 8 + |payload|
    requires forall i :: 0 <= i < |p| && !(v4 && 10 <= i < 12) && !(|header| + 6 <= i < |header| + 8)
               ==> p[i] == (header + udp + payload)[i]
    ensures p[0] == header[0] && p[9] == header[9] && p[6] == header[6]
    ensures WordAt(p, 2) == WordAt(header, 2) && WordAt(p, 4) == WordAt(header, 4) && WordAt(p, 6) == WordAt(header, 6)
    ensures v4 ==> p[12..16] == header[12..16] && p[16..20] == header[16..20]
    ensures !v4 ==> p[8..24] == header[8..24] && p[24..40] == header[24..40]
    ensures WordAt(p, |header|) == WordAt(udp, 0) && WordAt(p, |header| + 2) == WordAt(udp, 2)
    ensures WordAt(p, |header| + 4) == WordAt(udp, 4)
    ensures p[|header| + 8..] == payload
  {
    assert forall i :: 0 <= i < |header| && !(v4 && 10 <= i < 12) ==> p[i] == header[i];
    assert forall i :: 0 <= i < 6 ==> p[|header| + i] == udp[i];
    assert forall i :: 0 <= i < |payload| ==> p[|header| + 8 + i] == payload[i];
    assert p[|header| + 8..] == payload;
  }

  /** Untruncated lengths make the layout, the flow and the payload read back. */
  lemma {:induction false} UdpLayout(p: Bytes, m: Meta, f: FlowKey)
    requires |p| >= 28 && |p| <= 65575 && m == Meta(m.v4, 17, if m.v4 then 20 else 40, |p|) && |p| >= m.offset + 8
    requires if m.v4 then p[0] == 0x45 && WordAt(p, 2) == |p| && WordAt(p, 6) == 0x4000 && p[9] == 17
             else p[0] == 0x60 && WordAt(p, 4) == |p| - 40 && p[6] == 17
    requires WordAt(p, m.offset + 4) == |p| - m.offset
    requires f == FlowKey(SourceOf(p, m.v4), DestinationOf(p, m.v4), WordAt(p, m.offset), WordAt(p, m.offset + 2), Udp)
    ensures TransportMetadata(p) == Ok(m) && Rewritable(p, m)
    ensures ParseFlowKey(p) == Ok(f)
    ensures UdpPayload(p) == Ok(p[m.offset + 8..])
  {
    if !m.v4 {
      assert Ipv6TransportOffset(p, |p|, 17, 40, 8) == Ok((17, 40));
    }
    var t := p[m.offset..m.total];
    assert WordAt(t, 0) == WordAt(p, m.offset) && WordAt(t, 2) == WordAt(p, m.offset + 2)
        && WordAt(t, 4) == WordAt(p, m.offset + 4);
    assert p[m.offset + 8..m.total] == p[m.offset + 8..];
  }

  /** The two checksum stores, as one relation between the unsummed bytes and the packet. */
  ghost predicate Ipv4Stored(base: Bytes, p: Bytes)
    requires 28 <= |base|
  {
    var h := PutChecksum(base, 0, 20, 10, 0, false);
    p == PutChecksum(h, 20, |h|, 6, Sum(h[12..20]) + 17 + (|h| - 20), true)
  }

  ghost predicate Ipv6Stored(base: Bytes, p: Bytes)
    requires 48 <= |base|
  {
    var len := |base| - 40;
    p == PutChecksum(base, 40, |base|, 6, Sum(base[8..40]) + (len / 65536 + len % 65536) + 17, true)
  }

  lemma {:induction false} Ipv4StoredFrame(base: Bytes, p: Bytes)
    requires 28 <= |base| && Ipv4Stored(base, p)
    ensures |p| == |base|
    ensures forall i :: 0 <= i < |p| && !(10 <= i < 12) && !(26 <= i < 28) ==> p[i] == base[i]
  {
  }

  lemma {:induction false} StoredFits(header: Bytes, udp: Bytes, payload: Bytes, p: Bytes, m: Meta, f: FlowKey)
    requires m == Meta(m.v4, 17, if m.v4 then 20 else 40, |p|) && |header| == m.offset && |udp| == 8
    requires |p| == m.offset + 8 + |payload| <= if m.v4 then 65535 else 65575
    requires if m.v4 then header[0] == 0x45 && WordAt(header, 2) == |p| && WordAt(header, 6) == 0x4000
        && header[9] == 17
             else header[0] == 0x60 && WordAt(header, 4) == |p| - 40 && header[6] == 17
    requires WordAt(udp, 4) == |p| - m.offset
    requires f == FlowKey(SourceOf(header, m.v4), DestinationOf(header, m.v4), WordAt(udp, 0), WordAt(udp, 2), Udp)
    requires if m.v4 then Ipv4Stored(header + udp + payload, p) else Ipv6Stored(header + udp + payload, p)
    ensures ParseFlowKey(p) == Ok(f) && ValidateChecksums(p) == Ok(()) && UdpPayload(p) == Ok(payload)
  {
    hide Sum, Verifies, PseudoSum, ParseFlowKey, ValidateChecksums, UdpPayload, TransportMetadata, Ipv4Stored;
    var base := header + udp + payload;
    if m.v4 {
      Ipv4StoredFrame(base, p);
      Ipv4Sums(base, p);
    } else {
      Ipv6Sums(base, p);
    }
    FieldsRead(p, header, udp, payload, m.v4);
    UdpLayout(p, m, f);
    VerifiesValidates(p, m);
  }

  /** An outer IPv4 packet re-parses to its endpoints, validates and gives back its payload
      exactly when the payload fits the 16-bit total length. */
  lemma {:induction false} Ipv4UdpRoundTrip(source: Ipv4Addr, destination: Ipv4Addr, sourcePort: U16,
          destinationPort: U16, payload: Bytes)
    ensures var p := Ipv4Udp(source, destination, sourcePort, destinationPort, payload);
      && (|payload| <= 65507 ==>
            && ParseFlowKey(p) == Ok(FlowKey(V4(source), V4(destination), sourcePort, destinationPort, Udp))
            && ValidateChecksums(p) == Ok(()))
      && (UdpPayload(p) == Ok(payload) <==> |payload| <= 65507)
  {
    hide *;
    var p := Ipv4Udp(source, destination, sourcePort, destinationPort, payload);
    if |payload| <= 65507 {
      var header := Ipv4Header(28 + |payload|, source, destination);
      var udp := UdpHeader(sourcePort, destinationPort, 8 + |payload|);
      Ipv4UdpStored(source, destination, sourcePort, destinationPort, payload);
      StoredFits(header, udp, payload, p, Meta(true, 17, 20, |p|), FlowKey(V4(source), V4(destination), sourcePort,
          destinationPort, Udp));
    } else {
      Ipv4Tag(source, destination, sourcePort, destinationPort, payload);
      UdpPayloadShort(p);
    }
  }

  lemma {:induction false} Ipv4UdpStored(source: Ipv4Addr, destination: Ipv4Addr, sourcePort: U16, destinationPort: U16,
          payload: Bytes)
    requires |payload| <= 65507
    ensures var header := Ipv4Header(28 + |payload|, source, destination);
      var udp := UdpHeader(sourcePort, destinationPort, 8 + |payload|);
      && SourceOf(header, true) == V4(source) && DestinationOf(header, true) == V4(destination)
      && Ipv4Stored(header + udp + payload, Ipv4Udp(source, destination, sourcePort, destinationPort, payload))
  {
    hide PutChecksum, Sum, Ipv4Header, UdpHeader, Len16;
  }

  lemma {:induction false} Ipv4Tag(source: Ipv4Addr, destination: Ipv4Addr, sourcePort: U16, destinationPort: U16,
          payload: Bytes)
    ensures Version(Ipv4Udp(source, destination, sourcePort, destinationPort, payload)) == 4
  {
    var header := Ipv4Header(Len16(28 + |payload|), source, destination);
    var udp := UdpHeader(sourcePort, destinationPort, Len16(8 + |payload|));
    assert (header + udp + payload)[0] == 0x45;
  }

  lemma {:induction false} Ipv4Sums(base: Bytes, p: Bytes)
    requires 28 <= |base| <= 65535 && Ipv4Stored(base, p)
    ensures Verifies(Sum(p[..20]))
    ensures Verifies(PseudoSum(p, Meta(true, 17, 20, |p|)) + Sum(p[20..|p|])) && WordAt(p, 26) != 0
  {
    hide Sum, Verifies, PutChecksum;
    var h := PutChecksum(base, 0, 20, 10, 0, false);
    PutChecksumVerifies(base, 0, 20, 10, 0, false);
    PutChecksumVerifies(h, 20, |h|, 6, Sum(h[12..20]) + 17 + (|h| - 20), true);
    assert p[..20] == h[0..20];
    assert p[12..20] == h[12..20];
  }

  /** A datagram payload is never longer than its length fields can say. */
  lemma {:induction false} UdpPayloadShort(p: Bytes)
    ensures UdpPayload(p).Ok? ==> |UdpPayload(p).value| <= 65527
    ensures UdpPayload(p).Ok? && Version(p) == 4 ==> |UdpPayload(p).value| <= 65507
  {
  }

  /** The same for IPv6, whose payload length field does not count the IP header. */
  lemma {:induction false} Ipv6UdpRoundTrip(source: Ipv6Addr, destination: Ipv6Addr, sourcePort: U16,
          destinationPort: U16, payload: Bytes)
    ensures var p := Ipv6Udp(source, destination, sourcePort, destinationPort, payload);
      && (|payload| <= 65527 ==>
            && ParseFlowKey(p) == Ok(FlowKey(V6(source), V6(destination), sourcePort, destinationPort, Udp))
            && ValidateChecksums(p) == Ok(()))
      && (UdpPayload(p) == Ok(payload) <==> |payload| <= 65527)
  {
    hide *;
    var p := Ipv6Udp(source, destination, sourcePort, destinationPort, payload);
    if |payload| <= 65527 {
      var header := Ipv6Header(8 + |payload|, source, destination);
      var udp := UdpHeader(sourcePort, destinationPort, 8 + |payload|);
      Ipv6UdpStored(source, destination, sourcePort, destinationPort, payload);
      StoredFits(header, udp, payload, p, Meta(false, 17, 40, |p|), FlowKey(V6(source), V6(destination), sourcePort,
          destinationPort, Udp));
    } else {
      UdpPayloadShort(p);
    }
  }

  lemma {:induction false} Ipv6UdpStored(source: Ipv6Addr, destination: Ipv6Addr, sourcePort: U16, destinationPort: U16,
          payload: Bytes)
    requires |payload| <= 65527
    ensures var header := Ipv6Header(8 + |payload|, source, destination);
      var udp := UdpHeader(sourcePort, destinationPort, 8 + |payload|);
      && SourceOf(header, false) == V6(source) && DestinationOf(header, false) == V6(destination)
      && Ipv6Stored(header + udp + payload, Ipv6Udp(source, destination, sourcePort, destinationPort, payload))
  {
    hide PutChecksum, Sum, Ipv6Header, UdpHeader, Len16;
    assert (8 + |payload|) % 0x1_0000_0000 == 8 + |payload|;
  }

  lemma {:induction false} Ipv6Sums(base: Bytes, p: Bytes)
    requires 48 <= |base| <= 65575 && Ipv6Stored(base, p)
    ensures Verifies(PseudoSum(p, Meta(false, 17, 40, |p|)) + Sum(p[40..|p|])) && WordAt(p, 46) != 0
  {
    var len := |base| - 40;
    PutChecksumVerifies(base, 40, |base|, 6, Sum(base[8..40]) + (len / 65536 + len % 65536) + 17, true);
    assert p[8..40] == base[8..40];
  }

  // ---- The builders, in place ----

  /** The scatter sum of a pseudo-header and a transport slice. */
  lemma {:induction false} PseudoConcat(addresses: Bytes, middle: Bytes, transport: Bytes)
    requires |addresses| % 2 == 0 && |middle| % 2 == 0
    ensures Concat([addresses, middle, transport]) == addresses + middle + transport
    ensures Sum(addresses + middle + transport) == Sum(addresses) + Sum(middle) + Sum(transport)
  {
    var parts := [addresses, middle, transport];
    assert parts[..2] == [addresses, middle] && [addresses, middle][..1] == [addresses] && [addresses][..0] == [];
    assert Concat([addresses]) == addresses;
    assert Concat([addresses, middle]) == addresses + middle;
    SumAppend(addresses + middle, transport);
    SumAppend(addresses, middle);
  }

  lemma {:induction false} OnePart(s: Bytes)
    ensures Concat([s]) == s
  {
    assert [s][..0] == [];
  }

  /** Storing the sum of a field that is still zero is `PutChecksum`. */
  lemma {:induction false} PutIntoZero(p: Bytes, from: nat, to: nat, at: nat, pseudo: nat, udp: bool)
    requires from + at + 2 <= to <= |p| && p[from + at] == 0 && p[from + at + 1] == 0
    ensures PutChecksum(p, from, to, at, pseudo, udp)
         == Splice(p, from + at, Octets16(EncodeUdpZero(udp, Finish(pseudo + Sum(p[from..to])))))
  {
    assert Splice(p, from + at, [0, 0]) == p;
  }

  method FillIpv4Header(packet: array<Byte>, total: U16, source: Ipv4Addr, destination: Ipv4Addr)
    requires packet.Length >= 20 && forall i :: 0 <= i < 20 ==> packet[i] == 0
    modifies packet
    ensures packet[..20] == Ipv4Header(total, source, destination)
    ensures packet[20..] == old(packet[20..])
  {
    hide Octets16, Be16;
    packet[0] := 0x45;
    CopyInto(packet, 2, Octets16(total));
    packet[6] := 0x40;
    packet[8], packet[9] := 64, 17;
    ghost var fixed := packet[..12];
    assert fixed == [0x45, 0] + Octets16(total) + [0, 0, 0x40, 0, 64, 17, 0, 0];
    CopyInto(packet, 12, source);
    CopyInto(packet, 16, destination);
    assert packet[..12] == fixed && packet[12..16] == source && packet[16..20] == destination;
    assert packet[..20] == packet[..12] + packet[12..16] + packet[16..20];
  }

  method FillIpv6Header(packet: array<Byte>, length: U16, source: Ipv6Addr, destination: Ipv6Addr)
    requires packet.Length >= 40 && forall i :: 0 <= i < 40 ==> packet[i] == 0
    modifies packet
    ensures packet[..40] == Ipv6Header(length, source, destination)
    ensures packet[40..] == old(packet[40..])
  {
    hide Octets16, Be16;
    packet[0] := 0x60;
    CopyInto(packet, 4, Octets16(length));
    packet[6], packet[7] := 17, 64;
    ghost var fixed := packet[..8];
    assert fixed == [0x60, 0, 0, 0] + Octets16(length) + [17, 64];
    CopyInto(packet, 8, source);
    CopyInto(packet, 24, destination);
    assert packet[..8] == fixed && packet[8..24] == source && packet[24..40] == destination;
    assert packet[..40] == packet[..8] + packet[8..24] + packet[24..40];
  }

  method FillUdpHeader(packet: array<Byte>, at: nat, sourcePort: U16, destinationPort: U16, length: U16)
    requires at + 8 <= packet.Length && packet[at + 6] == 0 && packet[at + 7] == 0
    modifies packet
    ensures packet[..] == Splice(old(packet[..]), at, UdpHeader(sourcePort, destinationPort, length))
  {
    hide Octets16, Be16;
    CopyInto(packet, at, Octets16(sourcePort));
    CopyInto(packet, at + 2, Octets16(destinationPort));
    CopyInto(packet, at + 4, Octets16(length));
    assert packet[at..at + 8] == UdpHeader(sourcePort, destinationPort, length);
  }

  /** Both checksums of `fill_ipv4_udp`, over a packet whose checksum fields are still zero. */
  method StoreIpv4Checksums(packet: array<Byte>)
    requires 28 <= packet.Length <= 131000
    requires packet[10] == 0 && packet[11] == 0 && packet[26] == 0 && packet[27] == 0
    modifies packet
    ensures var h := PutChecksum(old(packet[..]), 0, 20, 10, 0, false);
      packet[..] == PutChecksum(h, 20, |h|, 6, Sum(h[12..20]) + 17 + Len16(|h| - 20), true)
  {
    hide Sum, Finish;
    ghost var base := packet[..];
    ghost var headed := PutChecksum(base, 0, 20, 10, 0, false);
    OnePart(packet[..20]);
    var headerChecksum := ChecksumParts([packet[..20]]);
    assert base[0..20] == packet[..20];
    PutIntoZero(base, 0, 20, 10, 0, false);
    hide PutChecksum, InternetChecksum;
    assert headerChecksum == Finish(0 + Sum(base[0..20])) by { FinishOf(packet[..20]); }
    CopyInto(packet, 10, Octets16(headerChecksum));
    assert packet[..] == headed;
    StoreUdp4Checksum(packet);
  }

  lemma FinishOf(s: Bytes)
    ensures InternetChecksum(s) == Finish(0 + Sum(s))
  {
  }

  method StoreUdp4Checksum(packet: array<Byte>)
    requires 28 <= packet.Length <= 131000
    requires packet[26] == 0 && packet[27] == 0
    modifies packet
    ensures var h := old(packet[..]);
      packet[..] == PutChecksum(h, 20, |h|, 6, Sum(h[12..20]) + 17 + Len16(|h| - 20), true)
  {
    hide Sum, Finish, PutChecksum, Concat;
    ghost var h := packet[..];
    var len := packet.Length - 20;
    var middle := [0, 17, len / 256 % 256, len % 256];
    MiddleSum(len);
    PseudoConcat(packet[12..20], middle, packet[20..]);
    var checksum := ChecksumParts([packet[12..20], middle, packet[20..]]);
    FinishOf(packet[12..20] + middle + packet[20..]);
    assert h[12..20] == packet[12..20] && h[20..|h|] == packet[20..];
    PutIntoZero(h, 20, |h|, 6, Sum(h[12..20]) + 17 + Len16(len), true);
    CopyInto(packet, 26, Octets16(EncodeUdpZero(true, checksum)));
  }

  lemma {:induction false} MiddleSum(len: nat)
    ensures Sum([0, 17, len / 256 % 256, len % 256]) == 17 + len % 65536
  {
    var high, low := len / 256 % 256, len % 256;
    var m := [0, 17, high, low];
    assert m[2..] == [high, low] && [high, low][2..] == [];
    assert Sum([high, low]) == Be16(high, low);
    assert Sum(m) == Be16(0, 17) + Sum(m[2..]);
  }

  /** `fill_ipv4_udp`. */
  method FillIpv4Udp(packet: array<Byte>, source: Ipv4Addr, destination: Ipv4Addr, sourcePort: U16,
          destinationPort: U16, payload: Bytes)
    requires packet.Length == 28 + |payload| <= 131000 && forall i :: 0 <= i < packet.Length ==> packet[i] == 0
    modifies packet
    ensures packet[..] == Ipv4Udp(source, destination, sourcePort, destinationPort, payload)
  {
    hide *;
    var total, udpLen := Len16(28 + |payload|), Len16(8 + |payload|);
    ghost var header := Ipv4Header(total, source, destination);
    ghost var udp := UdpHeader(sourcePort, destinationPort, udpLen);
    FillIpv4Header(packet, total, source, destination);
    ghost var started := packet[..];
    assert started[..20] == packet[..20];
    assert packet[26] == packet[20..][6] && packet[27] == packet[20..][7];
    FillUdpHeader(packet, 20, sourcePort, destinationPort, udpLen);
    CopyInto(packet, 28, payload);
    SplicedJoin(started, header, udp, payload);
    ghost var base := packet[..];
    ZeroFields(total, source, destination, sourcePort, destinationPort, udpLen);
    assert base[10] == header[10] && base[11] == header[11] && base[26] == udp[6] && base[27] == udp[7];
    StoreIpv4Checksums(packet);
    StoredIsIpv4Udp(base, source, destination, sourcePort, destinationPort, payload);
  }

  lemma StoredIsIpv4Udp(base: Bytes, source: Ipv4Addr, destination: Ipv4Addr, sourcePort: U16, destinationPort: U16,
          payload: Bytes)
    requires base == Ipv4Header(Len16(28 + |payload|), source, destination)
                     + UdpHeader(sourcePort, destinationPort, Len16(8 + |payload|)) + payload
    ensures var h := PutChecksum(base, 0, 20, 10, 0, false);
      PutChecksum(h, 20, |h|, 6, Sum(h[12..20]) + 17 + Len16(|h| - 20), true)
        == Ipv4Udp(source, destination, sourcePort, destinationPort, payload)
  {
    hide PutChecksum, Sum, Ipv4Header, UdpHeader, Len16;
  }

  lemma SplicedJoin(p: Bytes, header: Bytes, udp: Bytes, payload: Bytes)
    requires |p| == |header| + |udp| + |payload| && p[..|header|] == header
    ensures Splice(Splice(p, |header|, udp), |header| + |udp|, payload) == header + udp + payload
  {
  }

  lemma ZeroFields(total: U16, source: Ipv4Addr, destination: Ipv4Addr, sourcePort: U16, destinationPort: U16,
          length: U16)
    ensures Ipv4Header(total, source, destination)[10] == 0 && Ipv4Header(total, source, destination)[11] == 0
    ensures UdpHeader(sourcePort, destinationPort, length)[6] == 0
        && UdpHeader(sourcePort, destinationPort, length)[7] == 0
  {
  }

  lemma {:induction false} PseudoConcat6(addresses: Bytes, length: Bytes, next: Bytes, transport: Bytes)
    requires |addresses| % 2 == 0 && |length| % 2 == 0 && |next| % 2 == 0
    ensures Concat([addresses, length, next, transport]) == addresses + length + next + transport
    ensures Sum(addresses + length + next + transport) == Sum(addresses) + Sum(length) + Sum(next) + Sum(transport)
  {
    PseudoConcat(addresses, length, next);
    assert [addresses, length, next, transport][..3] == [addresses, length, next];
    SumAppend(addresses + length + next, transport);
  }

  /** `u32::to_be_bytes`. */
  function Be32(len: U32): (r: Bytes)
    ensures |r| == 4
  {
    Octets16(len / 65536) + Octets16(len % 65536)
  }

  lemma {:induction false} WordSum(x: U16)
    ensures Sum(Octets16(x)) == x
  {
    assert Octets16(x)[2..] == [];
  }

  lemma {:induction false} LengthSum(len: U32)
    ensures Sum(Be32(len)) == len / 65536 + len % 65536
  {
    SumAppend(Octets16(len / 65536), Octets16(len % 65536));
    WordSum(len / 65536);
    WordSum(len % 65536);
  }

  lemma {:induction false} NextHeaderSum()
    ensures Sum([0, 0, 0, 17]) == 17
  {
    assert [0, 0, 0, 17][2..] == [0, 17] && [0, 17][2..] == [];
  }

  method StoreUdp6Checksum(packet: array<Byte>)
    requires 48 <= packet.Length <= 131000
    requires packet[46] == 0 && packet[47] == 0
    modifies packet
    ensures var b := old(packet[..]); var len := (|b| - 40) % 0x1_0000_0000;
      packet[..] == PutChecksum(b, 40, |b|, 6, Sum(b[8..40]) + (len / 65536 + len % 65536) + 17, true)
  {
    hide Sum, Finish, PutChecksum, Concat, Be32;
    ghost var b := packet[..];
    var len: U32 := packet.Length - 40;
    LengthSum(len);
    NextHeaderSum();
    PseudoConcat6(packet[8..40], Be32(len), [0, 0, 0, 17], packet[40..]);
    var checksum := ChecksumParts([packet[8..40], Be32(len), [0, 0, 0, 17], packet[40..]]);
    FinishOf(packet[8..40] + Be32(len) + [0, 0, 0, 17] + packet[40..]);
    assert b[8..40] == packet[8..40] && b[40..|b|] == packet[40..];
    PutIntoZero(b, 40, |b|, 6, Sum(b[8..40]) + (len / 65536 + len % 65536) + 17, true);
    CopyInto(packet, 46, Octets16(EncodeUdpZero(true, checksum)));
  }

  /** `fill_ipv6_udp`. */
  method FillIpv6Udp(packet: array<Byte>, source: Ipv6Addr, destination: Ipv6Addr, sourcePort: U16,
          destinationPort: U16, payload: Bytes)
    requires packet.Length == 48 + |payload| <= 131000 && forall i :: 0 <= i < packet.Length ==> packet[i] == 0
    modifies packet
    ensures packet[..] == Ipv6Udp(source, destination, sourcePort, destinationPort, payload)
  {
    hide *;
    var udpLen := Len16(8 + |payload|);
    ghost var header := Ipv6Header(udpLen, source, destination);
    ghost var udp := UdpHeader(sourcePort, destinationPort, udpLen);
    FillIpv6Header(packet, udpLen, source, destination);
    ghost var started := packet[..];
    assert started[..40] == packet[..40];
    assert packet[46] == packet[40..][6] && packet[47] == packet[40..][7];
    FillUdpHeader(packet, 40, sourcePort, destinationPort, udpLen);
    CopyInto(packet, 48, payload);
    SplicedJoin(started, header, udp, payload);
    ghost var base := packet[..];
    ZeroFields(0, [0, 0, 0, 0], [0, 0, 0, 0], sourcePort, destinationPort, udpLen);
    assert base[46] == udp[6] && base[47] == udp[7];
    StoreUdp6Checksum(packet);
    StoredIsIpv6Udp(base, source, destination, sourcePort, destinationPort, payload);
  }

  lemma StoredIsIpv6Udp(base: Bytes, source: Ipv6Addr, destination: Ipv6Addr, sourcePort: U16, destinationPort: U16,
          payload: Bytes)
    requires base == Ipv6Header(Len16(8 + |payload|), source, destination)
                     + UdpHeader(sourcePort, destinationPort, Len16(8 + |payload|)) + payload
    ensures var len := (|base| - 40) % 0x1_0000_0000;
      PutChecksum(base, 40, |base|, 6, Sum(base[8..40]) + (len / 65536 + len % 65536) + 17, true)
        == Ipv6Udp(source, destination, sourcePort, destinationPort, payload)
  {
    hide PutChecksum, Sum, Ipv6Header, UdpHeader, Len16;
  }
}
