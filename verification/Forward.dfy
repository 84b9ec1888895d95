/** Forwarding: fragment and checksum gate, hop-limit decrement, and the TCP MSS clamp. */
module Forward {
  import opened Core
  import opened Checksum
  import opened Packet
  import opened Rewrite

  const TCP_MAX_SAFE_MSS: U16 := 1333

  /** Index of the IPv4 TTL or IPv6 hop-limit byte. */
  function HopIndex(p: Bytes): (r: nat)
    requires |p| > 0
  {
    if Version(p) == 4 then 8 else 7
  }

  /** `prepare_forwarded_packet` on values. */
  function PrepareSpec(p: Bytes): (r: Result<Bytes, PacketError>) {
    match IsFragmented(p)
    case Err(e) => Err(e)
    case Ok(fragmented) =>
      if fragmented then Err(NonInitialFragment)
      else
        match ValidateChecksums(p)
        case Err(e) => Err(e)
        case Ok(_) =>
          var m := TransportMetadata(p).value;
          if p[HopIndex(p)] <= 1 then Err(HopLimitExceeded)
          else Ok(Headed(Splice(p, HopIndex(p), [p[HopIndex(p)] - 1]), m))
  }

  /** The fragment scan reads nothing before its start. */
  lemma {:induction false} FragmentScanReadsOnly(p: Bytes, q: Bytes, total: nat, next: Byte, offset: nat, hops: nat)
    requires |p| == |q| && forall i :: offset <= i < |p| ==> p[i] == q[i]
    ensures Ipv6HasFragmentHeader(p, total, next, offset, hops) == Ipv6HasFragmentHeader(q, total, next, offset, hops)
    decreases hops
  {
    if hops > 0 && (IsOptionHeader(next) || next == PROTO_AH) && offset + 2 <= |p| {
      FragmentScanReadsOnly(p, q, total, p[offset], offset + ExtensionLength(next, p[offset + 1]), hops - 1);
    }
  }

  /** `q` may differ from `p` in the hop limit and the IPv4 header checksum only. */
  ghost predicate SameButHops(p: Bytes, q: Bytes) {
    && |p| == |q| && |p| > 0
    && forall i :: 0 <= i < |p| && i != HopIndex(p) && !(Version(p) == 4 && 10 <= i < 12) ==> p[i] == q[i]
  }

  lemma {:induction false} HopsKeepLayout(p: Bytes, q: Bytes)
    requires TransportMetadata(p).Ok? && SameButHops(p, q)
    ensures TransportMetadata(q) == TransportMetadata(p)
    ensures IsFragmented(q) == IsFragmented(p)
  {
    hide TransportMetadata, Ipv6HasFragmentHeader;
    var m := TransportMetadata(p).value;
    assert p[0] == q[0];
    if m.v4 {
      assert p[2] == q[2] && p[3] == q[3] && p[6] == q[6] && p[7] == q[7] && p[9] == q[9];
      LayoutReadsV4(p, q);
    } else {
      assert p[4] == q[4] && p[5] == q[5] && p[6] == q[6];
      LayoutReadsV6(p, q);
      FragmentScanReadsOnly(p, q, 40 + WordAt(p, 4), p[6], 40, 8);
    }
  }

  lemma {:induction false} HopsKeepFlow(p: Bytes, q: Bytes)
    requires TransportMetadata(p).Ok? && SameButHops(p, q)
    ensures ParseFlowKey(q) == ParseFlowKey(p)
  {
    hide TransportMetadata, BuildFlowKey, IsFragmented;
    HopsKeepLayout(p, q);
    var m := TransportMetadata(p).value;
    assert m.v4 ==> p[6] == q[6] && p[7] == q[7];
    assert p[m.offset..m.total] == q[m.offset..m.total];
    assert SourceOf(p, m.v4) == SourceOf(q, m.v4);
    assert DestinationOf(p, m.v4) == DestinationOf(q, m.v4);
  }

  lemma {:induction false} HopsKeepTransportSums(p: Bytes, q: Bytes)
    requires TransportMetadata(p).Ok? && SameButHops(p, q)
    ensures var m := TransportMetadata(p).value;
      && PseudoSum(q, m) == PseudoSum(p, m)
      && q[m.offset..m.total] == p[m.offset..m.total]
      && (m.protocol == PROTO_UDP ==> ValidateUdpLayout(q, m) == ValidateUdpLayout(p, m))
      && (m.protocol == PROTO_UDP && m.offset + 8 <= |p| ==> WordAt(q, m.offset + 6) == WordAt(p, m.offset + 6))
  {
    hide TransportMetadata, PseudoSum;
    var m := TransportMetadata(p).value;
    PseudoReads(q, p, m);
    assert q[m.offset..m.total] == p[m.offset..m.total];
  }

  lemma {:induction false} HopsKeepValidity(p: Bytes, q: Bytes)
    requires ValidateChecksums(p) == Ok(()) && SameButHops(p, q)
    requires Version(p) == 4 ==> Verifies(Sum(q[..TransportMetadata(p).value.offset]))
    ensures ValidateChecksums(q) == Ok(())
  {
    hide TransportMetadata, PseudoSum, Sum, Finish, Verifies, IsFragmented, ValidateUdpLayout;
    HopsKeepLayout(p, q);
    HopsKeepTransportSums(p, q);
    FinishZero(Sum(q[..TransportMetadata(p).value.offset]));
  }

  lemma Validated(p: Bytes)
    requires ValidateChecksums(p).Ok?
    ensures TransportMetadata(p).Ok?
  {
    hide TransportMetadata;
  }

  /** A packet is forwardable exactly when it is whole, its checksums validate and its hop limit
      exceeds one. The forwarded packet has a hop limit one lower, the same flow and layout, valid
      checksums, and no other change but the IPv4 header checksum. */
  lemma {:induction false} PrepareCorrect(p: Bytes)
    ensures PrepareSpec(p).Ok? <==>
      && IsFragmented(p) == Ok(false) && ValidateChecksums(p) == Ok(()) && p[HopIndex(p)] > 1
    ensures PrepareSpec(p).Ok? ==>
      var q := PrepareSpec(p).value;
      && SameButHops(p, q) && q[HopIndex(p)] == p[HopIndex(p)] - 1
      && ValidateChecksums(q) == Ok(())
      && IsFragmented(q) == Ok(false)
      && TransportMetadata(q) == TransportMetadata(p)
      && ParseFlowKey(q) == ParseFlowKey(p)
  {
    hide TransportMetadata, IsFragmented, Sum, Finish, Verifies, ParseFlowKey, PutChecksum;
    if PrepareSpec(p).Ok? {
      Validated(p);
      hide ValidateChecksums;
      var m := TransportMetadata(p).value;
      var lowered := Splice(p, HopIndex(p), [p[HopIndex(p)] - 1]);
      var q := Headed(lowered, m);
      if m.v4 { HeadedVerifies(lowered, m); }
      assert SameButHops(p, q);
      HopsKeepValidity(p, q);
      HopsKeepLayout(p, q);
      HopsKeepFlow(p, q);
    }
  }

  /** `prepare_forwarded_packet`, in place. */
  method PrepareForwardedPacket(packet: array<Byte>) returns (r: Result<(), PacketError>)
    modifies packet
    ensures match PrepareSpec(old(packet[..]))
            case Ok(q) => r == Ok(()) && packet[..] == q
            case Err(e) => r == Err(e) && packet[..] == old(packet[..])
  {
    hide TransportMetadata, IsFragmented, ValidateChecksums, PutChecksum, Sum, Finish;
    ghost var p := packet[..];
    var fragmented := IsFragmented(packet[..]);
    if fragmented.Err? { return Err(fragmented.error); }
    if fragmented.value { return Err(NonInitialFragment); }
    var valid := ValidateChecksums(packet[..]);
    if valid.Err? { return Err(valid.error); }
    Validated(p);
    var m := TransportMetadata(packet[..]).value;
    var hop := HopIndex(packet[..]);
    if packet[hop] <= 1 { return Err(HopLimitExceeded); }
    packet[hop] := packet[hop] - 1;
    assert packet[..] == Splice(p, hop, [p[hop] - 1]);
    if m.v4 {
      StoreChecksum(packet, 0, m.offset, 10, 0, false);
    }
    r := Ok(());
  }

  // ---- The TCP MSS clamp ----

  /** The option walk of `clamp_tcp_mss` from `at`, with the modified flag so far. */
  function ClampOptions(p: Bytes, at: nat, end: nat, max: U16, modified: bool): (r: (Bytes, bool))
    requires end <= |p|
    ensures |r.0| == |p|
    decreases end - at
  {
    if at >= end || p[at] == 0 then (p, modified)
    else if p[at] == 1 then ClampOptions(p, at + 1, end, max, modified)
    else if at + 1 >= end then (p, modified)
    else
      var len := p[at + 1];
      if len < 2 || at + len > end then (p, modified)
      else if p[at] == 2 && len == 4 && WordAt(p, at + 2) > max then
        ClampOptions(Splice(p, at + 2, Octets16(max)), at + len, end, max, true)
      else ClampOptions(p, at + len, end, max, modified)
  }

  /** Every MSS option the walk reaches advertises at most `max`. */
  predicate MssBounded(p: Bytes, at: nat, end: nat, max: U16)
    requires end <= |p|
    decreases end - at
  {
    if at >= end || p[at] == 0 then true
    else if p[at] == 1 then MssBounded(p, at + 1, end, max)
    else if at + 1 >= end then true
    else
      var len := p[at + 1];
      len < 2 || at + len > end
      || ((p[at] == 2 && len == 4 ==> WordAt(p, at + 2) <= max) && MssBounded(p, at + len, end, max))
  }

  /** Where the walk finds the values of the MSS options it reaches. */
  ghost function MssFields(p: Bytes, at: nat, end: nat): (r: set<int>)
    requires end <= |p|
    ensures forall k :: k in r ==> at + 2 <= k && k + 2 <= end
    decreases end - at
  {
    if at >= end || p[at] == 0 then {}
    else if p[at] == 1 then MssFields(p, at + 1, end)
    else if at + 1 >= end then {}
    else
      var len := p[at + 1];
      if len < 2 || at + len > end then {}
      else (if p[at] == 2 && len == 4 then {at + 2} else {}) + MssFields(p, at + len, end)
  }

  /** A byte of one of the two-byte fields. */
  ghost predicate InField(fields: set<int>, i: int) {
    i in fields || i - 1 in fields
  }

  /** `q` differs from `p` in the fields only, and each field is lowered to `max` if it exceeds it. */
  ghost predicate Lowered(p: Bytes, q: Bytes, fields: set<int>, max: U16) {
    && |q| == |p|
    && (forall i :: 0 <= i < |p| && !InField(fields, i) ==> q[i] == p[i])
    && (forall k :: k in fields && 0 <= k && k + 2 <= |p| ==> WordAt(q, k) == AtMost(WordAt(p, k), max))
  }

  function AtMost(word: U16, max: U16): (r: U16) {
    if word > max then max else word
  }

  lemma {:induction false} MssFieldsLocal(p: Bytes, q: Bytes, at: nat, end: nat)
    requires end <= |p| == |q| && forall i :: at <= i < end ==> p[i] == q[i]
    ensures MssFields(p, at, end) == MssFields(q, at, end)
    decreases end - at
  {
    if at < end && p[at] == 1 {
      MssFieldsLocal(p, q, at + 1, end);
    } else if at + 1 < end && p[at + 1] >= 2 {
      MssFieldsLocal(p, q, at + p[at + 1], end);
    }
  }

  /** The walk is not disturbed by its own edits: it bounds every option it reaches, touches
      nothing else, and reports a change exactly when it makes one. */
  lemma {:induction false} ClampBounds(p: Bytes, at: nat, end: nat, max: U16, modified: bool)
    requires end <= |p|
    ensures var r := ClampOptions(p, at, end, max, modified);
      && Lowered(p, r.0, MssFields(p, at, end), max)
      && MssBounded(r.0, at, end, max)
      && r.1 == (modified || r.0 != p)
    decreases end - at
  {
    if at >= end || p[at] == 0 {
    } else if p[at] == 1 {
      ClampBounds(p, at + 1, end, max, modified);
    } else if at + 1 < end {
      var len := p[at + 1];
      if len >= 2 && at + len <= end {
        if p[at] == 2 && len == 4 && WordAt(p, at + 2) > max {
          ClampLowers(p, at, end, max, modified);
        } else {
          ClampBounds(p, at + len, end, max, modified);
          ClampSkips(p, at, end, max, modified);
        }
      }
    }
  }

  /** Lowering one more field, in front of the others. */
  lemma {:induction false} LoweredMore(p: Bytes, q: Bytes, r: Bytes, at: nat, fields: set<int>, max: U16)
    requires at + 2 <= |p| && WordAt(p, at) > max && q == Splice(p, at, Octets16(max))
    requires Lowered(q, r, fields, max) && forall k :: k in fields ==> at + 2 <= k
    ensures Lowered(p, r, {at} + fields, max) && WordAt(r, at) == max
  {
    hide Octets16, Be16;
    assert !InField(fields, at) && !InField(fields, at + 1);
    assert WordAt(q, at) == max && WordAt(r, at) == max;
    forall k | k in fields && 0 <= k && k + 2 <= |p| ensures WordAt(r, k) == AtMost(WordAt(p, k), max) {
      assert q[k] == p[k] && q[k + 1] == p[k + 1];
    }
    forall i | 0 <= i < |p| && !InField({at} + fields, i) ensures r[i] == p[i] {
      assert !InField(fields, i) && i != at && i != at + 1;
    }
  }

  /** An option over the bound: both value bytes are replaced. */
  lemma {:induction false} ClampLowers(p: Bytes, at: nat, end: nat, max: U16, modified: bool)
    requires at + 4 <= end <= |p| && p[at] == 2 && p[at + 1] == 4 && WordAt(p, at + 2) > max
    ensures var r := ClampOptions(p, at, end, max, modified);
      && Lowered(p, r.0, MssFields(p, at, end), max)
      && MssBounded(r.0, at, end, max)
      && r.1 == (modified || r.0 != p)
    decreases end - at, 0
  {
    hide Octets16, Be16;
    var q := Splice(p, at + 2, Octets16(max));
    MssFieldsLocal(p, q, at + 4, end);
    ClampBounds(q, at + 4, end, max, true);
    var r := ClampOptions(q, at + 4, end, max, true);
    assert ClampOptions(p, at, end, max, modified) == r;
    assert MssFields(p, at, end) == {at + 2} + MssFields(p, at + 4, end);
    hide ClampOptions, MssFields;
    LoweredMore(p, q, r.0, at + 2, MssFields(p, at + 4, end), max);
    hide Lowered;
    assert r.0[at] == p[at] && r.0[at + 1] == p[at + 1];
    assert r.0 != p by { assert WordAt(r.0, at + 2) != WordAt(p, at + 2); }
  }

  /** Any other option: the walk continues behind it with the option unchanged. */
  lemma {:induction false} ClampSkips(p: Bytes, at: nat, end: nat, max: U16, modified: bool)
    requires at + 1 < end <= |p| && p[at] > 1 && p[at + 1] >= 2 && at + p[at + 1] <= end
    requires !(p[at] == 2 && p[at + 1] == 4 && WordAt(p, at + 2) > max)
    requires var r := ClampOptions(p, at + p[at + 1], end, max, modified);
      && Lowered(p, r.0, MssFields(p, at + p[at + 1], end), max)
      && MssBounded(r.0, at + p[at + 1], end, max)
    ensures var r := ClampOptions(p, at, end, max, modified);
      && r == ClampOptions(p, at + p[at + 1], end, max, modified)
      && Lowered(p, r.0, MssFields(p, at, end), max)
      && MssBounded(r.0, at, end, max)
  {
    var len := p[at + 1];
    var r := ClampOptions(p, at + len, end, max, modified).0;
    assert ClampOptions(p, at, end, max, modified).0 == r;
    assert MssFields(p, at + len, end) <= MssFields(p, at, end);
    hide ClampOptions, MssFields;
    assert r[at] == p[at] && r[at + 1] == p[at + 1];
    if p[at] == 2 && len == 4 {
      assert r[at + 2] == p[at + 2] && r[at + 3] == p[at + 3];
      assert WordAt(r, at + 2) == WordAt(p, at + 2);
    }
  }

  /** An option area that is already bounded is left alone. */
  lemma {:induction false} ClampIdempotent(p: Bytes, at: nat, end: nat, max: U16, modified: bool)
    requires end <= |p| && MssBounded(p, at, end, max)
    ensures ClampOptions(p, at, end, max, modified) == (p, modified)
    decreases end - at
  {
    if at < end && p[at] == 1 {
      ClampIdempotent(p, at + 1, end, max, modified);
    } else if at + 1 < end && p[at] != 0 && p[at + 1] >= 2 && at + p[at + 1] <= end {
      ClampIdempotent(p, at + p[at + 1], end, max, modified);
    }
  }

  lemma {:induction false} MssBoundedLocal(p: Bytes, q: Bytes, at: nat, end: nat, max: U16)
    requires end <= |p| == |q| && forall i :: at <= i < end ==> p[i] == q[i]
    ensures MssBounded(p, at, end, max) == MssBounded(q, at, end, max)
    decreases end - at
  {
    if at < end && p[at] == 1 {
      MssBoundedLocal(p, q, at + 1, end, max);
    } else if at + 1 < end && p[at + 1] >= 2 && at + p[at + 1] <= end {
      MssBoundedLocal(p, q, at + p[at + 1], end, max);
      if p[at + 1] == 4 { assert WordAt(p, at + 2) == WordAt(q, at + 2); }
    }
  }

  /** The TCP options of a SYN segment, or nothing to clamp. */
  function SynOptions(p: Bytes): (r: Result<Option<(nat, nat)>, PacketError>)
    ensures r.Ok? && r.value.Some? ==> r.value.value.0 <= r.value.value.1 <= |p|
  {
    match TransportMetadata(p)
    case Err(e) => Err(e)
    case Ok(m) =>
      if m.protocol != PROTO_TCP then Ok(None)
      else if m.offset + 20 > |p| then Err(TruncatedTransportHeader)
      else if p[m.offset + 13] / 2 % 2 == 0 then Ok(None)
      else
        var headerLen := p[m.offset + 12] / 16 * 4;
        if headerLen < 20 || m.offset + headerLen > m.total then Err(TruncatedTransportHeader)
        else Ok(Some((m.offset + 20, m.offset + headerLen)))
  }

  /** Where a SYN segment advertises its MSS. */
  ghost function SynFields(p: Bytes): (r: set<int>) {
    match SynOptions(p)
    case Ok(Some((at, end))) => MssFields(p, at, end)
    case _ => {}
  }

  function ClampMssSpec(p: Bytes, max: U16): (r: Result<(Bytes, bool), PacketError>) {
    match SynOptions(p)
    case Err(e) => Err(e)
    case Ok(None) => Ok((p, false))
    case Ok(Some((at, end))) => Ok(ClampOptions(p, at, end, max, false))
  }

  /** One turn of the option walk. */
  lemma ClampUnfold(p: Bytes, at: nat, end: nat, max: U16, modified: bool)
    requires end <= |p|
    ensures at >= end || p[at] == 0 ==> ClampOptions(p, at, end, max, modified) == (p, modified)
    ensures at < end && p[at] == 1 ==>
        ClampOptions(p, at, end, max, modified) == ClampOptions(p, at + 1, end, max, modified)
    ensures at < end && p[at] > 1 ==>
      if at + 1 >= end || p[at + 1] < 2 || at + p[at + 1] > end then
          ClampOptions(p, at, end, max, modified) == (p, modified)
      else if p[at] == 2 && p[at + 1] == 4 && WordAt(p, at + 2) > max then
        ClampOptions(p, at, end, max, modified) == ClampOptions(Splice(p, at + 2, Octets16(max)), at + 4, end, max,
            true)
      else ClampOptions(p, at, end, max, modified) == ClampOptions(p, at + p[at + 1], end, max, modified)
  {
    hide Octets16, Be16;
  }

  /** The option loop of `clamp_tcp_mss`, in place. */
  method ClampOptionArea(packet: array<Byte>, start: nat, end: nat, max: U16) returns (modified: bool)
    requires end <= packet.Length
    modifies packet
    ensures (packet[..], modified) == ClampOptions(old(packet[..]), start, end, max, false)
  {
    hide Octets16, Be16, ClampOptions;
    var at := start;
    modified := false;
    ghost var s := packet[..];
    ghost var goal := ClampOptions(s, at, end, max, false);
    while at < end
      invariant packet[..] == s
      invariant ClampOptions(s, at, end, max, modified) == goal
    {
      ClampUnfold(s, at, end, max, modified);
      assert packet[at] == s[at] && (at + 1 < end ==> packet[at + 1] == s[at + 1]);
      var kind := packet[at];
      if kind == 0 { return; }
      if kind == 1 {
        at := at + 1;
        continue;
      }
      if at + 1 >= end { return; }
      var len := packet[at + 1];
      if len < 2 || at + len > end { return; }
      if kind == 2 && len == 4 && Be16(packet[at + 2], packet[at + 3]) > max {
        CopyInto(packet, at + 2, Octets16(max));
        s := Splice(s, at + 2, Octets16(max));
        modified := true;
      }
      at := at + len;
    }
    ClampUnfold(s, at, end, max, modified);
  }

  /** `clamp_tcp_mss`, in place. */
  method ClampTcpMss(packet: array<Byte>, max: U16) returns (r: Result<bool, PacketError>)
    modifies packet
    ensures match ClampMssSpec(old(packet[..]), max)
            case Ok(q) => r == Ok(q.1) && packet[..] == q.0
            case Err(e) => r == Err(e) && packet[..] == old(packet[..])
  {
    var options := SynOptions(packet[..]);
    if options.Err? { return Err(options.error); }
    if options.value.None? { return Ok(false); }
    var modified := ClampOptionArea(packet, options.value.value.0, options.value.value.1, max);
    r := Ok(modified);
  }

  /** A SYN segment advertises at most `max` in every option the walk reaches. */
  predicate SynBounded(p: Bytes, max: U16) {
    var o := SynOptions(p);
    o.Ok? && o.value.Some? ==> MssBounded(p, o.value.value.0, o.value.value.1, max)
  }

  // ---- The whole forwarding pipeline ----

  /** Prepare, clamp, rewrite: what both directions of the NAT do with an accepted packet. */
  function ForwardSpec(p: Bytes, t: FlowKey): (r: Result<Bytes, PacketError>) {
    match PrepareSpec(p)
    case Err(e) => Err(e)
    case Ok(q) =>
      match ClampMssSpec(q, TCP_MAX_SAFE_MSS)
      case Err(e) => Err(e)
      case Ok((c, _)) => RewritePacketSpec(c, t)
  }

  /** A parsed TCP packet never fails the clamp or the flag parser. */
  lemma {:induction false} ParsedTcpHeader(p: Bytes)
    requires ParseFlowKey(p).Ok?
    ensures SynOptions(p).Ok? && ParseTcpFlags(p).Ok?
    ensures SynOptions(p).value.Some? ==>
      var m := TransportMetadata(p).value;
      && m.protocol == PROTO_TCP && SynOptions(p).value.value.0 == m.offset + 20
      && SynOptions(p).value.value.1 <= m.total
  {
    hide TransportMetadata;
    ParsedIsRewritable(p);
    var m := TransportMetadata(p).value;
    if m.protocol == PROTO_TCP {
      assert p[m.offset..m.total][12] == p[m.offset + 12];
    }
  }

  /** Changing bytes after the fixed TCP header keeps the layout. */
  lemma {:induction false} LaterBytesKeepLayout(p: Bytes, q: Bytes, at: nat)
    requires TransportMetadata(p).Ok? && |p| == |q| && TransportMetadata(p).value.offset + 8 <= at
    requires forall i :: 0 <= i < |p| && i < at ==> p[i] == q[i]
    ensures TransportMetadata(q) == TransportMetadata(p)
    ensures TransportMetadata(p).value.v4 ==> Ipv4Fragmented(p) == Ipv4Fragmented(q)
  {
    hide TransportMetadata;
    var m := TransportMetadata(p).value;
    assert p[0] == q[0];
    if m.v4 {
      assert p[2] == q[2] && p[3] == q[3] && p[6] == q[6] && p[7] == q[7] && p[9] == q[9];
      LayoutReadsV4(p, q);
    } else {
      assert p[4] == q[4] && p[5] == q[5] && p[6] == q[6];
      LayoutReadsV6(p, q);
    }
  }

  /** Changing TCP option bytes keeps the flow, the option area and everything before it. */
  lemma {:induction false} OptionBytesKeepFlow(p: Bytes, q: Bytes, at: nat, end: nat)
    requires ParseFlowKey(p).Ok? && SynOptions(p) == Ok(Some((at, end))) && |p| == |q|
    requires forall i :: 0 <= i < |p| && !(at <= i < end) ==> p[i] == q[i]
    ensures TransportMetadata(q) == TransportMetadata(p) && ParseFlowKey(q) == ParseFlowKey(p)
    ensures SynOptions(q) == SynOptions(p)
  {
    hide TransportMetadata, BuildFlowKey;
    ParsedIsRewritable(p);
    ParsedTcpHeader(p);
    var m := TransportMetadata(p).value;
    LaterBytesKeepLayout(p, q, at);
    assert p[m.offset + 12] == q[m.offset + 12] && p[m.offset + 13] == q[m.offset + 13];
    SynOptionsLocal(p, q, m);
    hide SynOptions;
    assert m.offset + 20 == at;
    assert p[m.offset..at] == q[m.offset..at];
    assert p[m.offset..m.total][..20] == p[m.offset..at] && q[m.offset..m.total][..20] == q[m.offset..at];
    assert SourceOf(p, m.v4) == SourceOf(q, m.v4);
    assert DestinationOf(p, m.v4) == DestinationOf(q, m.v4);
    OptionBytesKeepKey(p[m.offset..m.total], q[m.offset..m.total], SourceOf(p, m.v4), DestinationOf(p, m.v4));
  }

  lemma OptionBytesKeepKey(t: Bytes, u: Bytes, source: IpAddr, destination: IpAddr)
    requires 20 <= |t| == |u| && t[..20] == u[..20]
    ensures BuildFlowKey(source, destination, PROTO_TCP, t) == BuildFlowKey(source, destination, PROTO_TCP, u)
  {
    assert forall i :: 0 <= i < 20 ==> t[i] == t[..20][i] && u[i] == u[..20][i];
  }

  lemma {:induction false} ClampKeepsFlow(p: Bytes)
    requires ParseFlowKey(p).Ok?
    ensures ClampMssSpec(p, TCP_MAX_SAFE_MSS).Ok?
    ensures var c := ClampMssSpec(p, TCP_MAX_SAFE_MSS).value.0;
      && |c| == |p| && TransportMetadata(c) == TransportMetadata(p) && ParseFlowKey(c) == ParseFlowKey(p)
      && SynOptions(c) == SynOptions(p) && SynBounded(c, TCP_MAX_SAFE_MSS)
      && Lowered(p, c, SynFields(p), TCP_MAX_SAFE_MSS)
      && c[0] == p[0] && c[HopIndex(p)] == p[HopIndex(p)]
  {
    hide TransportMetadata, ParseFlowKey, ClampOptions, SynOptions, MssBounded;
    ParsedTcpHeader(p);
    ParsedIsRewritable(p);
    var o := SynOptions(p).value;
    if o.Some? {
      var (at, end) := o.value;
      ClampBounds(p, at, end, TCP_MAX_SAFE_MSS, false);
      OptionBytesKeepFlow(p, ClampOptions(p, at, end, TCP_MAX_SAFE_MSS, false).0, at, end);
    }
  }

  lemma SynOptionsLocal(c: Bytes, q: Bytes, m: Meta)
    requires TransportMetadata(c) == Ok(m) && TransportMetadata(q) == Ok(m) && |c| == |q|
    requires m.protocol == PROTO_TCP && m.offset + 20 <= |c| ==>
        c[m.offset + 12] == q[m.offset + 12] && c[m.offset + 13] == q[m.offset + 13]
    ensures SynOptions(c) == SynOptions(q)
  {
    hide TransportMetadata;
  }

  /** The rewrite touches no TCP option. */
  lemma {:induction false} RewriteKeepsOptions(c: Bytes, q: Bytes, m: Meta)
    requires TransportMetadata(c) == Ok(m) && TransportMetadata(q) == Ok(m) && |c| == |q|
    requires forall i :: 0 <= i < |c| && !Touched(m, i) ==> q[i] == c[i]
    requires SynBounded(c, TCP_MAX_SAFE_MSS)
    ensures SynBounded(q, TCP_MAX_SAFE_MSS)
  {
    hide TransportMetadata, MssBounded;
    if m.protocol == PROTO_TCP {
      assert forall i :: m.offset <= i && !(m.offset <= i < m.offset + 4) && !(m.offset + 16 <= i < m.offset + 18) ==>
          !Touched(m, i);
      SynOptionsLocal(c, q, m);
      var o := SynOptions(c);
      if o.Ok? && o.value.Some? {
        MssBoundedLocal(c, q, o.value.value.0, o.value.value.1, TCP_MAX_SAFE_MSS);
      }
    }
  }

  lemma {:induction false} HopsKeepFields(p: Bytes, q: Bytes)
    requires ParseFlowKey(p).Ok? && SameButHops(p, q)
    ensures SynFields(q) == SynFields(p) && (SynFields(p) != {} ==> TransportMetadata(p).value.protocol == PROTO_TCP)
    ensures forall k :: k in SynFields(p) ==> TransportMetadata(p).value.offset + 20 <= k
  {
    hide TransportMetadata, ParseFlowKey, MssFields;
    ParsedIsRewritable(p);
    ParsedTcpHeader(p);
    HopsKeepLayout(p, q);
    var m := TransportMetadata(p).value;
    SynOptionsLocal(p, q, m);
    hide SynOptions;
    if SynOptions(p).value.Some? {
      var (at, end) := SynOptions(p).value.value;
      MssFieldsLocal(p, q, at, end);
    }
  }

  /** Nothing of `p` but what a forwarder must change differs in `out`: the hop limit, the bytes the
      rewrite writes, and the advertised MSS values, each lowered to the bound if it exceeds it. */
  ghost predicate KeepsRest(p: Bytes, out: Bytes) {
    && |out| == |p| && |p| > 0 && TransportMetadata(p).Ok?
    && (forall i :: 0 <= i < |p| && i != HopIndex(p) && !Touched(TransportMetadata(p).value, i) && !InField(SynFields(p), i) ==> out[i] == p[i])
    && (forall k :: k in SynFields(p) && 0 <= k && k + 2 <= |p| ==> WordAt(out, k) == AtMost(WordAt(p, k), TCP_MAX_SAFE_MSS))
  }

  /** The frames of the three stages add up. */
  lemma {:induction false} StagesKeepRest(p: Bytes, q: Bytes, c: Bytes, out: Bytes, m: Meta, fields: set<int>)
    requires SameButHops(p, q) && Lowered(q, c, fields, TCP_MAX_SAFE_MSS) && |out| == |p|
    requires forall i :: 0 <= i < |c| && !Touched(m, i) ==> out[i] == c[i]
    requires TransportMetadata(p) == Ok(m) && fields == SynFields(p) && (fields != {} ==> m.protocol == PROTO_TCP)
    requires m.v4 == (Version(p) == 4) && m.offset >= (if m.v4 then 20 else 40)
    requires forall k :: k in fields ==> m.offset + 20 <= k
    ensures KeepsRest(p, out)
  {
    hide TransportMetadata, SynFields, Be16, Version;
    forall k | k in fields && 0 <= k && k + 2 <= |p| ensures WordAt(out, k) == AtMost(WordAt(p, k), TCP_MAX_SAFE_MSS) {
      assert !Touched(m, k) && !Touched(m, k + 1);
      assert q[k] == p[k] && q[k + 1] == p[k + 1];
      assert WordAt(q, k) == WordAt(p, k) && WordAt(out, k) == WordAt(c, k);
    }
    forall i | 0 <= i < |p| && i != HopIndex(p) && !Touched(m, i) && !InField(fields, i) ensures out[i] == p[i] {
      assert q[i] == p[i] && c[i] == q[i];
    }
  }

  /** What the pipeline promises of a forwarded packet: the target's flow, valid checksums, a hop
      limit one lower, bounded MSS options, and every other byte as it was. */
  ghost predicate Delivers(p: Bytes, out: Bytes, t: FlowKey) {
    && |p| > 0 && |out| == |p|
    && ParseFlowKey(out) == Ok(t) && ValidateChecksums(out) == Ok(())
    && HopIndex(p) < |p| && p[HopIndex(p)] > 1 && out[HopIndex(p)] == p[HopIndex(p)] - 1
    && SynBounded(out, TCP_MAX_SAFE_MSS) && KeepsRest(p, out)
  }

  /** A forwardable packet of flow `f` sent through the pipeline towards a compatible supported
      `t` comes out as a packet of flow `t` with valid checksums, a hop limit one lower, every
      reachable MSS option at most 1333 and every other byte as it was. */
  lemma {:induction false} ForwardCorrect(p: Bytes, t: FlowKey)
    requires PrepareSpec(p).Ok? && ParseFlowKey(PrepareSpec(p).value).Ok?
    requires Compatible(ParseFlowKey(PrepareSpec(p).value).value, t) && SupportedTarget(t)
    ensures ForwardSpec(p, t).Ok? && Delivers(p, ForwardSpec(p, t).value, t)
  {
    hide TransportMetadata, ParseFlowKey, PrepareSpec, ClampMssSpec, RewritePacketSpec, ValidateChecksums, SynBounded,
      SupportedTarget, IsFragmented, SynOptions, SynFields, Lowered, KeepsRest;
    PrepareCorrect(p);
    var q := PrepareSpec(p).value;
    ClampKeepsFlow(q);
    var c := ClampMssSpec(q, TCP_MAX_SAFE_MSS).value.0;
    RewriteCorrect(c, t);
    ParsedIsRewritable(c);
    var m := TransportMetadata(c).value;
    RewriteKeepsOptions(c, RewritePacketSpec(c, t).value, m);
    assert !Touched(m, HopIndex(p));
    HopsKeepFields(p, q);
    StagesKeepRest(p, q, c, RewritePacketSpec(c, t).value, m, SynFields(p));
  }
}
