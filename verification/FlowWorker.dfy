/** The mutable flow worker: each operation updates the tables in place and is proved to take the
    step the model describes. */
module FlowWorker {
  import opened Core
  import opened Packet
  import opened Rewrite
  import opened Forward
  import opened DnsFlow
  import DnsWire
  import opened Deadlines
  import opened Session
  import opened Worker
  import History
  import Nat

  /** `to_vec`. */
  method CopyOf(packet: Bytes) returns (buffer: array<Byte>)
    ensures fresh(buffer) && buffer[..] == packet
  {
    buffer := new Byte[|packet|](i requires 0 <= i < |packet| => packet[i]);
  }

  lemma EndSingle(s: WorkerState, e: Ending<TransactionKey>, listen: SocketAddr)
    ensures EndAll(s, [e], listen) ==
      var (m, removed) := RemoveTransaction(s, e.key, e.clock);
      (m,
       if removed.Err? then Err(SessionFailure(removed.error))
       else if removed.value.None? then Ok([])
       else
         match ServfailFor(removed.value.value, listen)
         case Err(x) => Err(PacketFailure(x))
         case Ok(x) => Ok([x]))
  {
    hide RemoveTransaction, ServfailFor;
    assert [e][..0] == [];
    var none: seq<Ending<TransactionKey>> := [];
    assert EndAll(s, none, listen) == (s, Ok([]));
    assert forall x: Expired :: [] + [x] == [x];
  }

  class FlowWorkerState {
    const id: nat
    const sessions: SessionTable
    var nextToken: U64
    var byKey: map<TransactionKey, Transaction>
    var byReverse: map<FlowKey, TransactionKey>
    var deadlines: Buckets<TransactionKey>
    var history: History.Log

    function State(): WorkerState
      reads this, sessions, sessions.table
    {
      WorkerState(id, sessions.State(), nextToken, byKey, byReverse, deadlines, history)
    }

    constructor (id: nat, sessions: SessionTable)
      ensures this.sessions == sessions
      ensures State() == WorkerState(id, sessions.State(), 1, map[], map[], map[], History.EMPTY)
    {
      this.id := id;
      this.sessions := sessions;
      nextToken := 1;
      byKey := map[];
      byReverse := map[];
      deadlines := map[];
      history := History.EMPTY;
    }

    /** `handle_intercept` and `handle_server_inner`: one buffer, edited in place from stage to stage. */
    method HandleIntercept(io: IoOwner, packet: Bytes, quicWorker: nat, quicFlowId: U64, now: Instant, clock: Instant)
      returns (r: Result<(SessionId, Bytes), FlowError>)
      modifies this, sessions, sessions.table
      ensures (State(), r) == Intercept(old(State()), io, packet, quicWorker, quicFlowId, now, clock)
    {
      hide GetOrCreate, PrepareSpec, ParseFlowKey, ClampMssSpec, ParseTcpFlags, RewritePacketSpec;
      if quicWorker != id { return Err(WrongQuicFlowOwner(id, quicWorker)); }
      var translated := CopyOf(packet);
      var prepared := PrepareForwardedPacket(translated);
      if prepared.Err? { return Err(PacketFailure(prepared.error)); }
      var flow := ParseFlowKey(translated[..]);
      if flow.Err? { return Err(PacketFailure(flow.error)); }
      var clamped := ClampTcpMss(translated, TCP_MAX_SAFE_MSS);
      if clamped.Err? { return Err(PacketFailure(clamped.error)); }
      var flags := ParseTcpFlags(translated[..]);
      if flags.Err? { return Err(PacketFailure(flags.error)); }
      var found := sessions.GetOrCreateWithFlagsAt(id, flow.value, io, quicFlowId, flags.value, false, now, clock);
      if found.Err? { return Err(SessionFailure(found.error)); }
      if found.value !in sessions.sessions { return Err(SessionFailure(UnknownSession(found.value))); }
      var rewritten := RewritePacket(translated, sessions.sessions[found.value].binding.translated);
      r := if rewritten.Ok? then Ok((found.value, translated[..])) else Err(PacketFailure(rewritten.error));
    }

    /** `handle_reverse_for_inner`: one buffer, edited in place from stage to stage. */
    method HandleReverseFor(packet: Bytes, expected: Nat.SessionLocator, observed: Option<IoOwner>, now: Instant)
      returns (r: Result<Option<Restored>, FlowError>)
      modifies sessions
      ensures (State(), r) == ReverseFor(old(State()), packet, expected, observed, now)
    {
      hide TouchTcp, CorrectInterceptIo, PrepareSpec, ParseFlowKey, ClampMssSpec, ParseTcpFlags, RewritePacketSpec,
        LookupReverse;
      var restored := CopyOf(packet);
      var prepared := PrepareForwardedPacket(restored);
      if prepared.Err? { return Err(PacketFailure(prepared.error)); }
      var reply := ParseFlowKey(restored[..]);
      if reply.Err? { return Err(PacketFailure(reply.error)); }
      if LookupReverse(sessions.State(),
          reply.value) != Some(expected) || expected.flowWorkerId != id { return Ok(None); }
      var clamped := ClampTcpMss(restored, TCP_MAX_SAFE_MSS);
      if clamped.Err? { return Err(PacketFailure(clamped.error)); }
      var flags := ParseTcpFlags(restored[..]);
      if flags.Err? { return Err(PacketFailure(flags.error)); }
      r := RestoreReplyInPlace(restored, reply.value, flags.value, expected.sessionId, observed, now);
    }

    method RestoreReplyInPlace(restored: array<Byte>, reply: FlowKey, flags: Option<Byte>, session: SessionId,
            observed: Option<IoOwner>, now: Instant)
      returns (r: Result<Option<Restored>, FlowError>)
      modifies sessions, restored
      ensures (State(), r) == RestoreReply(old(State()), old(restored[..]), reply, flags, session, observed, now)
    {
      hide TouchTcp, CorrectInterceptIo, RewritePacketSpec;
      if observed.Some? {
        var corrected := sessions.CorrectIo(id, session, observed.value);
        if corrected.Err? || corrected.value == Mismatch { return Ok(None); }
      }
      var touched := sessions.TouchSession(id, session, flags, true, now);
      if touched.Err? { return Err(SessionFailure(touched.error)); }
      if session !in sessions.sessions { return Err(SessionFailure(UnknownSession(session))); }
      var e := sessions.sessions[session];
      var rewritten := RewritePacket(restored, RestoredFlow(e.original, reply));
      r := if rewritten.Ok? then Ok(Some(Restored(session, e.quicFlowId, e.interceptIo, restored[..])))
          else Err(PacketFailure(rewritten.error));
    }

    /** `handle_dns_query_at`. */
    method HandleDnsQuery(io: IoOwner, packet: Bytes, config: DnsConfig, now: Instant, clock: Instant)
      returns (r: Result<DnsOutcome, FlowError>)
      modifies this, sessions.table
      ensures (State(), r) == DnsQuery(old(State()), io, packet, config, now, clock)
    {
      hide PlanQuery, ServfailPacket, DnsAdmit;
      var plan := PlanQuery(io, packet, config);
      match plan
      case Err(e) => r := Err(e);
      case Ok(Refuse(p, flow)) =>
        r := Refusal(io, p, flow, config.listen);
      case Ok(Admit(p, flow, key, resolver, remote)) =>
        r := AdmitQuery(p, flow, key, resolver, remote, config, now, clock);
    }

    method AdmitQuery(p: Bytes, flow: FlowKey, key: TransactionKey, resolver: SocketAddr, remote: bool,
            config: DnsConfig, now: Instant, clock: Instant)
      returns (r: Result<DnsOutcome, FlowError>)
      modifies this, sessions.table
      ensures (State(), r) == DnsAdmit(old(State()), p, flow, key, resolver, remote, config, now, clock)
    {
      hide AllocateEphemeral, ServfailPacket, RewritePacketSpec, Insert, History.Forget;
      if key in byKey { return Forwarding(p, byKey[key]); }
      if (remote && !config.remoteAvailable) || |byKey| >= config.capacity { return Refusal(key.ioOwner, p, flow,
          config.listen); }
      var token := TokenOf(nextToken);
      var selected := Selected(flow, resolver);
      nextToken := if Next64(nextToken) == 0 then 1 else Next64(nextToken);
      var bound := sessions.AllocateEphemeralNat(id, token, selected, clock);
      if bound.Err? {
        return if bound.error == NatFailure(Nat.PortRangeExhausted) then Refusal(key.ioOwner, p, flow, config.listen)
               else Err(SessionFailure(bound.error));
      }
      var t := Accounted(token, p, flow, key, remote, config, now, bound.value);
      var answer := t.Answer();
      history := History.Forget(history, answer);
      byReverse := byReverse[answer := key];
      byKey := byKey[key := t];
      deadlines := Insert(deadlines, t.expiresAt, key);
      r := Forwarding(p, t);
    }

    /** `remove_dns_transaction`. */
    method RemoveDnsTransaction(key: TransactionKey, clock: Instant)
            returns (r: Result<Option<Transaction>, SessionError>)
      modifies this, sessions.table
      ensures (State(), r) == RemoveTransaction(old(State()), key, clock)
    {
      hide ReleaseEphemeral, Delete;
      if key !in byKey { return Ok(None); }
      var t := byKey[key];
      byKey := byKey - {key};
      deadlines := Delete(deadlines, t.expiresAt, key);
      byReverse := byReverse - {t.Answer()};
      var released := sessions.ReleaseEphemeralNat(id, t.token, clock);
      r := if released.Ok? then Ok(Some(t)) else Err(released.error);
    }

    /** `handle_dns_response`. */
    method HandleDnsResponse(packet: Bytes, clock: Instant) returns (r: Result<Option<DnsAnswer>, FlowError>)
      requires History.Inverse(history) && history.next < 0xFFFF_FFFF_FFFF_FFFF
      modifies this, sessions.table
      ensures DnsResponse(old(State()), packet, clock, State(), r)
    {
      hide ResponsePacket, MatchFlow, DnsComplete;
      var parsed := ResponsePacket(packet);
      if parsed.Err? { return Err(parsed.error); }
      if parsed.value.None? { return Ok(None); }
      var (p, flow) := parsed.value.value;
      var found := MatchFlow(State(), p, flow);
      if found.Err? { return Err(found.error); }
      if found.value.None? { return Ok(None); }
      MatchedPayload(State(), p, flow);
      r := Complete(p, flow, found.value.value, clock);
    }

    method Complete(p: Bytes, flow: FlowKey, key: TransactionKey, clock: Instant)
            returns (r: Result<Option<DnsAnswer>, FlowError>)
      requires History.Inverse(history) && history.next < 0xFFFF_FFFF_FFFF_FFFF && UdpPayload(p).Ok?
      modifies this, sessions.table
      ensures DnsComplete(old(State()), p, flow, key, clock, State(), r)
    {
      hide AnswerPacket, UdpPayload, ReleaseEphemeral, Delete, History.Evicted, History.Record, History.Inverse;
      var removed := RemoveDnsTransaction(key, clock);
      if removed.Err? { return Err(SessionFailure(removed.error)); }
      if removed.value.None? { return Err(SessionFailure(UnknownSession(0))); }
      var t := removed.value.value;
      history := History.Remember(history, flow);
      var out := AnswerPacket(t, p);
      r := if out.Ok? then Ok(Some(DnsAnswer(t.localTarget, out.value, t.binding, t.token)))
          else Err(PacketFailure(out.error));
    }

    /** The removal loop shared by timeout and abort. */
    method EndEach(keys: set<TransactionKey>, listen: SocketAddr, clock: TransactionKey -> Instant)
      returns (r: Result<seq<Expired>, FlowError>, ghost endings: seq<Ending<TransactionKey>>)
      modifies this, sessions.table
      ensures r.Ok? ==> Enumerates(endings, keys)
      ensures (State(), r) == EndAll(old(State()), endings, listen)
    {
      hide RemoveTransaction, ServfailFor, Enumerates;
      endings := [];
      assert Enumerates(endings, {}) by { NoKeys(); }
      var pending := keys;
      var answers: seq<Expired> := [];
      assert keys - pending == {};
      while pending != {}
        invariant pending <= keys && Enumerates(endings, keys - pending)
        invariant (State(), Ok(answers)) == EndAll(old(State()), endings, listen)
        decreases pending
      {
        var key :| key in pending;
        EnumeratesMore(endings, keys - pending, Ending(key, clock(key)));
        assert keys - pending + {key} == keys - (pending - {key});
        var removed := RemoveDnsTransaction(key, clock(key));
        ghost var longer := endings + [Ending(key, clock(key))];
        assert longer[..|longer| - 1] == endings;
        endings := longer;
        pending := pending - {key};
        if removed.Err? { return Err(SessionFailure(removed.error)), endings; }
        if removed.value.Some? {
          var answer := ServfailFor(removed.value.value, listen);
          if answer.Err? { return Err(PacketFailure(answer.error)), endings; }
          answers := answers + [answer.value];
        }
      }
      assert keys - pending == keys;
      r := Ok(answers);
    }

    /** `expire_dns_transactions`: pop the due buckets, then end every transaction they name. */
    method ExpireDnsTransactions(now: Instant, listen: SocketAddr, clock: TransactionKey -> Instant)
      returns (r: Result<seq<Expired>, FlowError>, ghost endings: seq<Ending<TransactionKey>>)
      requires Index(deadlines, TxDue(byKey, {}))
      modifies this, sessions.table
      ensures r.Ok? ==> Enumerates(endings, DueTransactions(old(State()), now))
      ensures (State(), r) == ExpireDns(old(State()), now, endings, listen)
    {
      hide EndAll, Enumerates;
      var expired, rest := DrainDue(deadlines, TxDue(byKey, {}), now);
      assert expired == DueTransactions(State(), now);
      deadlines := rest;
      r, endings := EndEach(expired, listen, clock);
    }

    /** `abort_remote_dns_transactions`. */
    method AbortRemoteDnsTransactions(listen: SocketAddr, clock: TransactionKey -> Instant)
      returns (r: Result<seq<Expired>, FlowError>, ghost endings: seq<Ending<TransactionKey>>)
      modifies this, sessions.table
      ensures r.Ok? ==> Enumerates(endings, RemoteTransactions(old(State())))
      ensures (State(), r) == EndAll(old(State()), endings, listen)
    {
      hide EndAll, Enumerates;
      var keys := set k | k in byKey && byKey[k].remote;
      assert keys == RemoteTransactions(State());
      r, endings := EndEach(keys, listen, clock);
    }

    /** `abort_dns_transaction`. */
    method AbortDnsTransaction(binding: Nat.NatBinding, listen: SocketAddr, clock: Instant)
      returns (r: Result<seq<Expired>, FlowError>)
      modifies this, sessions.table
      ensures (State(), r) == AbortDns(old(State()), binding, listen, clock)
    {
      hide RemoveTransaction, ServfailFor, EndAll;
      var answer := binding.translated.Reverse();
      if answer !in byReverse { return Ok([]); }
      var key := byReverse[answer];
      EndSingle(State(), Ending(key, clock), listen);
      var removed := RemoveDnsTransaction(key, clock);
      if removed.Err? { return Err(SessionFailure(removed.error)); }
      if removed.value.None? { return Ok([]); }
      var servfail := ServfailFor(removed.value.value, listen);
      r := if servfail.Ok? then Ok([servfail.value]) else Err(PacketFailure(servfail.error));
    }
  }

  lemma NoKeys()
    ensures Enumerates<TransactionKey>([], {})
  {
  }

  lemma MatchedPayload(s: WorkerState, p: Bytes, flow: FlowKey)
    requires MatchFlow(s, p, flow).Ok? && MatchFlow(s, p, flow).value.Some?
    ensures UdpPayload(p).Ok?
  {
    hide UdpPayload, DnsWire.ResponseMatchesQuery;
  }
}
