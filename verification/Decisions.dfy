/** When the flow worker accepts, forwards, answers or refuses: the exact conditions. */
module Decisions {
  import opened Core
  import opened Packet
  import opened Rewrite
  import opened Forward
  import opened DnsFlow
  import Deadlines
  import opened Session
  import opened Worker
  import DnsWire
  import Nat

  // ---- Accepting a packet ----

  /** Some free port's return tuple is out of quarantine. */
  ghost predicate PortLeft(t: Nat.NatState, flow: FlowKey, clock: Instant) {
    t.SnatFor(flow).Some? && exists p ::
        p in t.available && !Nat.Quarantined(t, Nat.Tuple(flow, t.SnatFor(flow).value, p), clock)
  }

  lemma {:induction false} GetOrCreateIff(s: TableState, range: set<U16>, flow: FlowKey, io: IoOwner, quicFlowId: U64,
          flags: Option<Byte>, now: Instant, clock: Instant)
    requires Inv(s, range, {}) && s.nextId < TOKEN_BASE
    ensures GetOrCreate(s, s.owner, flow, io, quicFlowId, flags, false, now, clock).1.Ok?
       <==> SessionKey(flow, io.ifindex) in s.byKey || PortLeft(s.natTable, flow, clock)
  {
    hide Nat.Inv, Nat.Allocate, TouchTcp, Open, Deadlines.Index, Due, Nat.Quarantined, Nat.Tuple;
    var key := SessionKey(flow, io.ifindex);
    if key in s.byKey {
      hide Numbered, NatLinked;
      TouchKeepsInv(s, range, s.owner, s.byKey[key], flags, false, now);
    } else {
      NextIdFree(s, range);
      Nat.AllocateCorrect(s.natTable, range, s.nextId, flow, Nat.SessionLocator(s.owner, s.nextId), clock);
      var r := Nat.Allocate(s.natTable, s.nextId, flow, Nat.SessionLocator(s.owner, s.nextId), clock).1;
      AllocationOutcomes(s.natTable, s.nextId, flow, Nat.SessionLocator(s.owner, s.nextId), clock);
    }
  }

  lemma AllocationOutcomes(t: Nat.NatState, id: SessionId, flow: FlowKey, locator: Nat.SessionLocator, clock: Instant)
    ensures var r := Nat.Allocate(t, id, flow, locator, clock).1;
      r.Ok? || r == Err(Nat.DuplicateSession(id)) || r == Err(Nat.AddressFamilyMismatch) || r == Err(Nat.PortRangeExhausted)
  {
    hide Nat.Candidates, Nat.Bind;
  }

  /** A packet is accepted if and only if its QUIC flow is this worker's, it is forwardable and
      parses, and its session is known or a port is left for it. */
  lemma {:induction false} AcceptedIff(s: WorkerState, range: set<U16>, listen: SocketAddr, io: IoOwner, packet: Bytes,
          quicWorker: nat, quicFlowId: U64, now: Instant, clock: Instant)
    requires WorkerInv(s, range, listen, {}) && s.table.nextId < TOKEN_BASE
    ensures Intercept(s, io, packet, quicWorker, quicFlowId, now, clock).1.Ok? <==>
      && quicWorker == s.id && PrepareSpec(packet).Ok? && ParseFlowKey(packet).Ok?
      && (SessionKey(ParseFlowKey(packet).value, io.ifindex) in s.table.byKey || PortLeft(s.table.natTable,
          ParseFlowKey(packet).value, clock))
  {
    hide WorkerInv, PrepareSpec, ParseFlowKey, ClampMssSpec, ParseTcpFlags, InterceptFlow, PortLeft;
    if PrepareSpec(packet).Ok? {
      PrepareKeepsFlow(packet);
      if quicWorker == s.id && ParseFlowKey(packet).Ok? {
        PipelineStages(packet);
        var c := ClampMssSpec(PrepareSpec(packet).value, TCP_MAX_SAFE_MSS).value.0;
        InterceptFlowIff(s, range, listen, io, c, ParseFlowKey(packet).value, ParseTcpFlags(c).value, quicFlowId, now,
            clock);
      }
    }
  }

  lemma {:induction false} InterceptFlowIff(s: WorkerState, range: set<U16>, listen: SocketAddr, io: IoOwner, c: Bytes,
          flow: FlowKey, flags: Option<Byte>, quicFlowId: U64, now: Instant, clock: Instant)
    requires WorkerInv(s, range, listen, {}) && s.table.nextId < TOKEN_BASE && ParseFlowKey(c) == Ok(flow)
    ensures InterceptFlow(s, io, c, flow, flags, quicFlowId, now, clock).1.Ok?
       <==> SessionKey(flow, io.ifindex) in s.table.byKey || PortLeft(s.table.natTable, flow, clock)
  {
    hide WorkerInv, GetOrCreate, RewritePacketSpec, ParseFlowKey, PortLeft, Inv, OpensOrTouches, SupportedTarget,
      Compatible;
    TableInv(s, range, listen);
    GetOrCreateIff(s.table, range, flow, io, quicFlowId, flags, now, clock);
    var (t, found) := GetOrCreate(s.table, s.id, flow, io, quicFlowId, flags, false, now, clock);
    if found.Ok? {
      ParsedIsSupported(c, flow);
      GetOrCreateStep(s, range, listen, flow, io, quicFlowId, flags, now, clock);
      OpenedIsLive(s.table, t, found.value, flow, io);
      TableInv(s.(table := t), range, listen);
      SessionTranslation(t, range, found.value);
      RewriteCorrect(c, t.sessions[found.value].binding.translated);
    }
  }

  // ---- Answering with SERVFAIL ----

  /** Every UDP query of the listener's family can be answered, however short its payload. */
  lemma {:induction false} RefusalAnswers(io: IoOwner, p: Bytes, flow: FlowKey, listen: SocketAddr)
    requires ParseFlowKey(p) == Ok(flow) && UdpPayload(p).Ok? && listen.ip.V4? == flow.source.V4?
    ensures var r := Refusal(io, p, flow, listen); r.Ok? && IsRefusal(r.value, io, p, flow, listen)
  {
    hide ParseFlowKey, UdpPayload, ServfailPacket, Refuses;
    ServfailCorrect(p, listen);
  }

  // ---- DNS queries ----

  /** A packet is planned as a query exactly when it is forwardable, parses and goes to the listener
      over UDP; whatever is planned still parses to its flow. */
  lemma {:induction false} PlannedIff(io: IoOwner, packet: Bytes, config: DnsConfig)
    ensures PlanQuery(io, packet, config).Ok? <==>
      && PrepareSpec(packet).Ok? && ParseFlowKey(packet).Ok?
      && var flow := ParseFlowKey(packet).value;
         flow.protocol == Udp && flow.destination == config.listen.ip && flow.destinationPort == config.listen.port
    ensures PlanQuery(io, packet, config).Ok? ==>
      var plan := PlanQuery(io, packet, config).value;
      ParseFlowKey(plan.packet) == Ok(plan.flow) == ParseFlowKey(packet) && UdpPayload(plan.packet).Ok?
  {
    hide ParseFlowKey, UdpPayload, EdnsClampPacket, PrepareSpec, DnsWire.ValidateMessage, DnsWire.RulesMatch,
      DnsWire.ParseQuestion;
    if PrepareSpec(packet).Ok? {
      PrepareKeepsFlow(packet);
      var p := PrepareSpec(packet).value;
      if ParseFlowKey(p).Ok? && ParseFlowKey(p).value.protocol == Udp {
        UdpHasPayload(p);
        EdnsClampKeepsFlow(p);
      }
    }
  }

  lemma UdpHasPayload(p: Bytes)
    requires ParseFlowKey(p).Ok? && ParseFlowKey(p).value.protocol == Udp
    ensures UdpPayload(p).Ok?
  {
    hide TransportMetadata;
    ParsedIsRewritable(p);
  }

  /** What becomes of an admitted query, case by case. */
  ghost predicate Decided(s: WorkerState, plan: Plan, config: DnsConfig, clock: Instant,
          r: Result<DnsOutcome, FlowError>)
    requires plan.Admit?
  {
    var t := s.table.natTable;
    var selected := Selected(plan.flow, plan.resolver);
    if plan.key in s.byKey then r.Ok? && r.value.Forwarded?
    else if (plan.remote && !config.remoteAvailable) || |s.byKey| >= config.capacity then Answered(plan, config, r)
    else if t.SnatFor(selected).None? then r.Err?
    else if PortLeft(t, selected, clock) then r.Ok? && r.value.Forwarded?
    else Answered(plan, config, r)
  }

  ghost predicate Answered(plan: Plan, config: DnsConfig, r: Result<DnsOutcome, FlowError>)
    requires plan.Admit?
  {
    r.Ok? && IsRefusal(r.value, plan.key.ioOwner, plan.packet, plan.flow, config.listen)
  }

  lemma {:induction false} AdmitDecided(s: WorkerState, range: set<U16>, plan: Plan, config: DnsConfig, now: Instant,
          clock: Instant)
    requires WorkerInv(s, range, config.listen, {}) && s.nextToken < TOKEN_BASE
    requires plan.Admit? && Admitted(plan.packet, plan.flow, plan.key, plan.resolver, config)
    ensures Decided(s, plan, config, clock, DnsAdmit(s, plan.packet, plan.flow, plan.key, plan.resolver, plan.remote,
        config, now, clock).1)
  {
    hide WorkerInv, Inv, Nat.Allocate, Refusal, ForwardQuery, AddTransaction, ParseFlowKey, ValidateChecksums,
      UdpPayload, Ready, Tokens, Deadlines.Index, TxIndex, Remembers, IsRefusal, Nat.Quarantined, Nat.Tuple;
    Unpack(s, range, config.listen, {});
    RefusalAnswers(plan.key.ioOwner, plan.packet, plan.flow, config.listen);
    if plan.key in s.byKey {
      TxReady(s, config.listen, plan.key);
      ForwardQueryCorrect(s, config.listen, plan.packet, plan.flow, s.byKey[plan.key]);
    } else if !((plan.remote && !config.remoteAvailable) || |s.byKey| >= config.capacity) {
      NewDecided(s, range, plan, config, now, clock);
    }
  }

  lemma {:induction false} NewDecided(s: WorkerState, range: set<U16>, plan: Plan, config: DnsConfig, now: Instant,
          clock: Instant)
    requires WorkerInv(s, range, config.listen, {}) && s.nextToken < TOKEN_BASE
    requires plan.Admit? && Admitted(plan.packet, plan.flow, plan.key, plan.resolver, config) && plan.key !in s.byKey
    requires !((plan.remote && !config.remoteAvailable) || |s.byKey| >= config.capacity)
    ensures var r := DnsAdmit(s, plan.packet, plan.flow, plan.key, plan.resolver, plan.remote, config, now, clock).1;
      var selected := Selected(plan.flow, plan.resolver);
      if s.table.natTable.SnatFor(selected).None? then r.Err?
      else if PortLeft(s.table.natTable, selected, clock) then r.Ok? && r.value.Forwarded?
      else r == Refusal(plan.key.ioOwner, plan.packet, plan.flow, config.listen)
  {
    hide WorkerInv, Inv, DnsAdmit, Refusal, ForwardQuery, AddTransaction, ParseFlowKey, UdpPayload, Ready, Tokens,
      Deadlines.Index, TxIndex, Remembers, Nat.Inv, PortLeft, Selected, AllReady;
    Unpack(s, range, config.listen, {});
    var token := TokenOf(s.nextToken);
    var selected := Selected(plan.flow, plan.resolver);
    TokenIsFree(s, range);
    NatPart(s.table, range);
    EphemeralDecided(s.table, range, token, selected, clock);
    AdmitOutcome(s, plan, config, now, clock);
    if AllocateEphemeral(s.table, s.id, token, selected, clock).1.Ok? {
      NewForwarded(s, range, plan, config, now, clock);
    }
  }

  /** What the allocation for a token comes to. */
  lemma EphemeralDecided(t: TableState, range: set<U16>, token: SessionId, selected: FlowKey, clock: Instant)
    requires Nat.Inv(t.natTable, range) && token !in t.natTable.forward
    ensures var r := AllocateEphemeral(t, t.owner, token, selected, clock).1;
      if t.natTable.SnatFor(selected).None? then r.Err? && r.error != NatFailure(Nat.PortRangeExhausted)
      else if PortLeft(t.natTable, selected, clock) then r.Ok?
      else r == Err(NatFailure(Nat.PortRangeExhausted))
  {
    hide Nat.Inv, Nat.Allocate, Nat.Quarantined, Nat.Tuple;
    Nat.AllocateCorrect(t.natTable, range, token, selected, Nat.SessionLocator(t.owner, token), clock);
    AllocationOutcomes(t.natTable, token, selected, Nat.SessionLocator(t.owner, token), clock);
  }

  /** What the allocation makes of the query. */
  lemma AdmitOutcome(s: WorkerState, plan: Plan, config: DnsConfig, now: Instant, clock: Instant)
    requires plan.Admit? && plan.key !in s.byKey
        && !((plan.remote && !config.remoteAvailable) || |s.byKey| >= config.capacity)
    ensures var token := TokenOf(s.nextToken);
      var (table, bound) := AllocateEphemeral(s.table, s.id, token, Selected(plan.flow, plan.resolver), clock);
      DnsAdmit(s, plan.packet, plan.flow, plan.key, plan.resolver, plan.remote, config, now, clock).1
        == if bound.Ok? then
             var t := Accounted(token, plan.packet, plan.flow, plan.key, plan.remote, config, now, bound.value);
             ForwardQuery(AddTransaction(s, table, plan.key, t), plan.packet, t).1
           else if bound.error == NatFailure(Nat.PortRangeExhausted) then
               Refusal(plan.key.ioOwner, plan.packet, plan.flow, config.listen)
           else Err(SessionFailure(bound.error))
  {
    hide Forwarding, AddTransaction, Refusal, Nat.Allocate;
  }

  /** A new transaction is always forwarded. */
  lemma {:induction false} NewForwarded(s: WorkerState, range: set<U16>, plan: Plan, config: DnsConfig, now: Instant,
          clock: Instant)
    requires WorkerInv(s, range, config.listen, {}) && s.nextToken < TOKEN_BASE
    requires plan.Admit? && Admitted(plan.packet, plan.flow, plan.key, plan.resolver, config)
    requires AllocateEphemeral(s.table, s.id, TokenOf(s.nextToken), Selected(plan.flow, plan.resolver), clock).1.Ok?
    ensures var token := TokenOf(s.nextToken);
      var (table, bound) := AllocateEphemeral(s.table, s.id, token, Selected(plan.flow, plan.resolver), clock);
      var t := Accounted(token, plan.packet, plan.flow, plan.key, plan.remote, config, now, bound.value);
      var r := ForwardQuery(AddTransaction(s, table, plan.key, t), plan.packet, t).1;
      r.Ok? && r.value.Forwarded?
  {
    hide WorkerInv, Inv, AllocateEphemeral, ForwardQuery, AddTransaction, ParseFlowKey, ValidateChecksums, UdpPayload,
      Ready, Tokens, Deadlines.Index, TxIndex, Remembers, Nat.Inv;
    Unpack(s, range, config.listen, {});
    var token := TokenOf(s.nextToken);
    TokenIsFree(s, range);
    AllocateEphemeralKeepsInv(s.table, range, token, Selected(plan.flow, plan.resolver), clock);
    var (table, bound) := AllocateEphemeral(s.table, s.id, token, Selected(plan.flow, plan.resolver), clock);
    var t := Accounted(token, plan.packet, plan.flow, plan.key, plan.remote, config, now, bound.value);
    NatPart(table, range);
    NewTransactionReady(table, range, t, plan.packet, plan.flow, plan.key, plan.resolver, config);
    ForwardQueryCorrect(AddTransaction(s, table, plan.key, t), config.listen, plan.packet, plan.flow, t);
  }

  /** Every forwardable UDP packet to the listener is decided: an oversized or unparsable query is
      answered with SERVFAIL; an admitted one is forwarded on its live transaction or, within capacity
      and with its resolver reachable, on a new one while a port is left; it is answered with SERVFAIL
      otherwise, and fails only when no NAT address of its family exists. Anything else is not a query. */
  lemma {:induction false} QueryDecided(s: WorkerState, range: set<U16>, io: IoOwner, packet: Bytes, config: DnsConfig,
          now: Instant, clock: Instant)
    requires WorkerInv(s, range, config.listen, {}) && s.nextToken < TOKEN_BASE && OneFamilyConfig(config)
    ensures var r := DnsQuery(s, io, packet, config, now, clock).1;
      match PlanQuery(io, packet, config)
      case Err(_) => r.Err?
      case Ok(Refuse(p, flow)) => r.Ok? && IsRefusal(r.value, io, p, flow, config.listen)
      case Ok(Admit(p, flow, key, resolver, remote)) =>
          Decided(s, Admit(p, flow, key, resolver, remote), config, clock, r)
  {
    hide WorkerInv, PlanQuery, DnsAdmit, ParseFlowKey, UdpPayload, Refusal, Decided, IsRefusal;
    PlannedIff(io, packet, config);
    match PlanQuery(io, packet, config) {
      case Ok(Refuse(p, flow)) =>
        UdpFlow(p);
        RefusalAnswers(io, p, flow, config.listen);
      case Ok(Admit(p, flow, key, resolver, remote)) =>
        PlanCorrect(io, packet, config);
        AdmitDecided(s, range, Admit(p, flow, key, resolver, remote), config, now, clock);
      case _ =>
    }
  }
}
