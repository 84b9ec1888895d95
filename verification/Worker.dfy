/** One flow worker: sessions, DNS transactions and the completed history over one NAT table,
    with the packet operations that drive them. */
module Worker {
  import opened Core
  import opened Packet
  import opened Rewrite
  import opened Forward
  import opened DnsWire
  import opened DnsFlow
  import opened Deadlines
  import opened Session
  import History
  import Nat

  datatype Transaction = Transaction(
    token: SessionId,
    client: SocketAddr,
    dnsVip: SocketAddr,
    binding: Nat.NatBinding,
    localTarget: IoOwner,
    remote: bool,
    createdAt: Instant,
    expiresAt: Instant,
    originalPacket: Bytes)
  {
    /** The tuple on which the resolver's answer comes back. */
    function Answer(): FlowKey {
      binding.translated.Reverse()
    }
  }

  datatype WorkerState = WorkerState(
    id: nat,
    table: TableState,
    nextToken: U64,
    byKey: map<TransactionKey, Transaction>,
    byReverse: map<FlowKey, TransactionKey>,
    deadlines: Buckets<TransactionKey>,
    history: History.Log)

  function FreshWorker(id: nat, natTable: Nat.NatState): WorkerState {
    WorkerState(id, Fresh(id, natTable), 1, map[], map[], map[], History.EMPTY)
  }

  // ---- Sessions ----

  /** `handle_intercept` and `handle_server_inner`: the session and the translated packet. */
  ghost function Intercept(s: WorkerState, io: IoOwner, packet: Bytes, quicWorker: nat, quicFlowId: U64, now: Instant,
          clock: Instant)
    : (r: (WorkerState, Result<(SessionId, Bytes), FlowError>))
  {
    if quicWorker != s.id then (s, Err(WrongQuicFlowOwner(s.id, quicWorker)))
    else
      match PrepareSpec(packet)
      case Err(e) => (s, Err(PacketFailure(e)))
      case Ok(p) =>
        match ParseFlowKey(p)
        case Err(e) => (s, Err(PacketFailure(e)))
        case Ok(flow) =>
          match ClampMssSpec(p, TCP_MAX_SAFE_MSS)
          case Err(e) => (s, Err(PacketFailure(e)))
          case Ok((c, _)) =>
            match ParseTcpFlags(c)
            case Err(e) => (s, Err(PacketFailure(e)))
            case Ok(flags) => InterceptFlow(s, io, c, flow, flags, quicFlowId, now, clock)
  }

  ghost function InterceptFlow(s: WorkerState, io: IoOwner, c: Bytes, flow: FlowKey, flags: Option<Byte>,
          quicFlowId: U64, now: Instant, clock: Instant)
    : (r: (WorkerState, Result<(SessionId, Bytes), FlowError>))
  {
    var (t, found) := GetOrCreate(s.table, s.id, flow, io, quicFlowId, flags, false, now, clock);
    var n := s.(table := t);
    if found.Err? || found.value !in t.sessions then
        (n, Err(SessionFailure(if found.Err? then found.error else UnknownSession(found.value))))
    else
      match RewritePacketSpec(c, t.sessions[found.value].binding.translated)
      case Err(e) => (n, Err(PacketFailure(e)))
      case Ok(out) => (n, Ok((found.value, out)))
  }

  datatype Restored = Restored(id: SessionId, quicFlowId: U64, target: IoOwner, packet: Bytes)

  /** The flow a reply is restored to: the session's flow reversed; an ICMP reply keeps its own
      message type and gets the original identifier back. */
  function RestoredFlow(original: FlowKey, reply: FlowKey): (r: FlowKey) {
    if original.IsIcmp() then
      FlowKey(original.destination, original.source, original.sourcePort, reply.destinationPort, original.protocol)
    else original.Reverse()
  }

  /** `handle_reverse_for_inner`. */
  function ReverseFor(s: WorkerState, packet: Bytes, expected: Nat.SessionLocator, observed: Option<IoOwner>,
          now: Instant)
    : (r: (WorkerState, Result<Option<Restored>, FlowError>))
  {
    match PrepareSpec(packet)
    case Err(e) => (s, Err(PacketFailure(e)))
    case Ok(p) =>
      match ParseFlowKey(p)
      case Err(e) => (s, Err(PacketFailure(e)))
      case Ok(reply) =>
        var found := LookupReverse(s.table, reply);
        if found != Some(expected) || expected.flowWorkerId != s.id then (s, Ok(None))
        else
          match ClampMssSpec(p, TCP_MAX_SAFE_MSS)
          case Err(e) => (s, Err(PacketFailure(e)))
          case Ok((c, _)) =>
            match ParseTcpFlags(c)
            case Err(e) => (s, Err(PacketFailure(e)))
            case Ok(flags) => RestoreReply(s, c, reply, flags, expected.sessionId, observed, now)
  }

  function RestoreReply(s: WorkerState, c: Bytes, reply: FlowKey, flags: Option<Byte>, id: SessionId,
          observed: Option<IoOwner>, now: Instant)
    : (r: (WorkerState, Result<Option<Restored>, FlowError>))
  {
    var (t, corrected) :=
      if observed.None? then (s.table, Ok(Unchanged)) else CorrectInterceptIo(s.table, s.id, id, observed.value);
    if corrected.Err? || corrected.value == Mismatch then (s.(table := t), Ok(None))
    else
      var (u, touched) := TouchTcp(t, s.id, id, flags, true, now);
      var n := s.(table := u);
      if touched.Err? || id !in u.sessions then
          (n, Err(SessionFailure(if touched.Err? then touched.error else UnknownSession(id))))
      else
        var e := u.sessions[id];
        match RewritePacketSpec(c, RestoredFlow(e.original, reply))
        case Err(x) => (n, Err(PacketFailure(x)))
        case Ok(out) => (n, Ok(Some(Restored(id, e.quicFlowId, e.interceptIo, out))))
  }

  // ---- DNS transactions ----

  datatype DnsOutcome =
    | Forwarded(remote: bool, target: IoOwner, packet: Bytes, binding: Nat.NatBinding, token: SessionId)
    | Servfail(target: IoOwner, packet: Bytes)

  function Refusal(io: IoOwner, packet: Bytes, flow: FlowKey, listen: SocketAddr): (r: Result<DnsOutcome, FlowError>) {
    match ServfailPacket(packet, flow, listen)
    case Err(e) => Err(PacketFailure(e))
    case Ok(p) => Ok(Servfail(io, p))
  }

  function AnswerServfail(s: WorkerState, io: IoOwner, packet: Bytes, flow: FlowKey, listen: SocketAddr)
    : (r: (WorkerState, Result<DnsOutcome, FlowError>)) {
    (s, Refusal(io, packet, flow, listen))
  }

  /** `rewrite_dns_query`. */
  function Forwarding(packet: Bytes, t: Transaction): (r: Result<DnsOutcome, FlowError>) {
    match RewritePacketSpec(packet, t.binding.translated)
    case Err(e) => Err(PacketFailure(e))
    case Ok(p) => Ok(Forwarded(t.remote, t.localTarget, p, t.binding, t.token))
  }

  function ForwardQuery(s: WorkerState, packet: Bytes, t: Transaction)
    : (r: (WorkerState, Result<DnsOutcome, FlowError>)) {
    (s, Forwarding(packet, t))
  }

  /** The worker with a new transaction in all three tables. */
  function AddTransaction(s: WorkerState, table: TableState, key: TransactionKey, t: Transaction): (r: WorkerState) {
    s.(table := table,
       nextToken := if Next64(s.nextToken) == 0 then 1 else Next64(s.nextToken),
       byKey := s.byKey[key := t],
       byReverse := s.byReverse[t.Answer() := key],
       deadlines := Insert(s.deadlines, t.expiresAt, key),
       history := History.Forget(s.history, t.Answer()))
  }

  /** `(1 << 63) | next_dns_token`, for tokens below the top bit. */
  function TokenOf(n: U64): (r: SessionId) {
    if n < TOKEN_BASE then TOKEN_BASE + n else n
  }

  /** The flow the resolver is asked on, before translation. */
  function Selected(flow: FlowKey, resolver: SocketAddr): (r: FlowKey) {
    FlowKey(flow.source, resolver.ip, flow.sourcePort, resolver.port, Udp)
  }

  /** What a new transaction keeps of its query. */
  function Accounted(token: SessionId, p: Bytes, flow: FlowKey, key: TransactionKey, remote: bool, config: DnsConfig,
          now: Instant, binding: Nat.NatBinding)
    : (r: Transaction)
  {
    Transaction(token, SocketAddr(flow.source, flow.sourcePort), config.listen, binding, key.ioOwner, remote, now,
        now + config.timeout, p)
  }

  /** `handle_dns_query_at`. */
  ghost function DnsQuery(s: WorkerState, io: IoOwner, packet: Bytes, config: DnsConfig, now: Instant, clock: Instant)
    : (r: (WorkerState, Result<DnsOutcome, FlowError>))
  {
    match PlanQuery(io, packet, config)
    case Err(e) => (s, Err(e))
    case Ok(Refuse(p, flow)) => AnswerServfail(s, io, p, flow, config.listen)
    case Ok(Admit(p, flow, key, resolver, remote)) => DnsAdmit(s, p, flow, key, resolver, remote, config, now, clock)
  }

  ghost function DnsAdmit(s: WorkerState, p: Bytes, flow: FlowKey, key: TransactionKey, resolver: SocketAddr,
          remote: bool, config: DnsConfig, now: Instant, clock: Instant)
    : (r: (WorkerState, Result<DnsOutcome, FlowError>))
  {
    if key in s.byKey then ForwardQuery(s, p, s.byKey[key])
    else if (remote && !config.remoteAvailable) || |s.byKey| >= config.capacity then
      AnswerServfail(s, key.ioOwner, p, flow, config.listen)
    else
      var token := TokenOf(s.nextToken);
      var selected := Selected(flow, resolver);
      var (table, bound) := AllocateEphemeral(s.table, s.id, token, selected, clock);
      if bound.Err? then
        var n := s.(table := table, nextToken := if Next64(s.nextToken) == 0 then 1 else Next64(s.nextToken));
        if bound.error == NatFailure(Nat.PortRangeExhausted) then AnswerServfail(n, key.ioOwner, p, flow, config.listen)
        else (n, Err(SessionFailure(bound.error)))
      else
        var t := Accounted(token, p, flow, key, remote, config, now, bound.value);
        ForwardQuery(AddTransaction(s, table, key, t), p, t)
  }

  /** `remove_dns_transaction`. */
  function RemoveTransaction(s: WorkerState, key: TransactionKey, clock: Instant)
    : (r: (WorkerState, Result<Option<Transaction>, SessionError>)) {
    if key !in s.byKey then (s, Ok(None))
    else
      var t := s.byKey[key];
      var (table, released) := ReleaseEphemeral(s.table, s.id, t.token, clock);
      (s.(table := table, byKey := s.byKey - {key}, byReverse := s.byReverse - {t.Answer()},
          deadlines := Delete(s.deadlines, t.expiresAt, key)),
       if released.Ok? then Ok(Some(t)) else Err(released.error))
  }

  datatype DnsAnswer = DnsAnswer(target: IoOwner, packet: Bytes, binding: Nat.NatBinding, token: SessionId)

  /** The packet stage of `handle_dns_response`: the forwardable packet and its flow. */
  function ResponsePacket(packet: Bytes): (r: Result<Option<(Bytes, FlowKey)>, FlowError>) {
    match IsFragmented(packet)
    case Err(e) => Err(PacketFailure(e))
    case Ok(true) => Ok(None)
    case Ok(false) =>
      match PrepareSpec(packet)
      case Err(e) => Err(PacketFailure(e))
      case Ok(p) =>
        match ParseFlowKey(p)
        case Err(e) => Err(PacketFailure(e))
        case Ok(flow) => Ok(Some((p, flow)))
  }

  /** The live transaction a response answers, if any. */
  function MatchFlow(s: WorkerState, p: Bytes, flow: FlowKey): (r: Result<Option<TransactionKey>, FlowError>) {
    if flow !in s.byReverse || s.byReverse[flow] !in s.byKey then Ok(None)
    else
      var key := s.byReverse[flow];
      match UdpPayload(p)
      case Err(e) => Err(PacketFailure(e))
      case Ok(payload) =>
        match UdpPayload(s.byKey[key].originalPacket)
        case Err(e) => Err(PacketFailure(e))
        case Ok(query) => if ResponseMatchesQuery(query, payload).Err? then Ok(None) else Ok(Some(key))
  }

  /** The packet a matched response is turned into; an oversized one becomes a SERVFAIL. */
  function AnswerPacket(t: Transaction, p: Bytes): (r: Result<Bytes, PacketError>)
    requires UdpPayload(p).Ok?
  {
    if |UdpPayload(p).value| > DNS_PAYLOAD_MAX then
      match ParseFlowKey(t.originalPacket)
      case Err(e) => Err(e)
      case Ok(flow) => ServfailPacket(t.originalPacket, flow, t.dnsVip)
    else RewritePacketSpec(p, FlowKey(t.dnsVip.ip, t.client.ip, t.dnsVip.port, t.client.port, Udp))
  }

  /** `handle_dns_response` after a match; the new history is what the eviction loop leaves. */
  ghost predicate DnsComplete(s: WorkerState, p: Bytes, flow: FlowKey, key: TransactionKey, clock: Instant,
          n: WorkerState, r: Result<Option<DnsAnswer>, FlowError>) {
    var (m, removed) := RemoveTransaction(s, key, clock);
    if removed.Err? || removed.value.None? then n == m && r.Err?
    else
      var t := removed.value.value;
      && History.Evicted(History.Record(m.history, flow), n.history) && n == m.(history := n.history)
      && UdpPayload(p).Ok?
      && r == (match AnswerPacket(t, p)
               case Err(e) => Err(PacketFailure(e))
               case Ok(out) => Ok(Some(DnsAnswer(t.localTarget, out, t.binding, t.token))))
  }

  /** `handle_dns_response`. */
  ghost predicate DnsResponse(s: WorkerState, packet: Bytes, clock: Instant, n: WorkerState,
          r: Result<Option<DnsAnswer>, FlowError>) {
    match ResponsePacket(packet)
    case Err(e) => n == s && r == Err(e)
    case Ok(None) => n == s && r == Ok(None)
    case Ok(Some((p, flow))) =>
      match MatchFlow(s, p, flow)
      case Err(e) => n == s && r == Err(e)
      case Ok(None) => n == s && r == Ok(None)
      case Ok(Some(key)) => DnsComplete(s, p, flow, key, clock, n, r)
  }

  datatype Expired = Expired(target: IoOwner, packet: Bytes, binding: Nat.NatBinding, token: SessionId)

  /** The removal loop of timeout and abort: each ended transaction is answered with SERVFAIL; an
      error ends the loop early. */
  function EndAll(s: WorkerState, endings: seq<Ending<TransactionKey>>, listen: SocketAddr)
    : (r: (WorkerState, Result<seq<Expired>, FlowError>)) {
    if |endings| == 0 then (s, Ok([]))
    else
      var (n, before) := EndAll(s, endings[..|endings| - 1], listen);
      if before.Err? then (n, before)
      else
        var last := endings[|endings| - 1];
        var (m, removed) := RemoveTransaction(n, last.key, last.clock);
        if removed.Err? then (m, Err(SessionFailure(removed.error)))
        else if removed.value.None? then (m, before)
        else
          match ServfailFor(removed.value.value, listen)
          case Err(e) => (m, Err(PacketFailure(e)))
          case Ok(x) => (m, Ok(before.value + [x]))
  }

  function ServfailFor(t: Transaction, listen: SocketAddr): (r: Result<Expired, PacketError>) {
    match ParseFlowKey(t.originalPacket)
    case Err(e) => Err(e)
    case Ok(flow) =>
      match ServfailPacket(t.originalPacket, flow, listen)
      case Err(e) => Err(e)
      case Ok(p) => Ok(Expired(t.localTarget, p, t.binding, t.token))
  }

  ghost function DueTransactions(s: WorkerState, now: Instant): set<TransactionKey> {
    set k | k in s.byKey && s.byKey[k].expiresAt <= now
  }

  /** `expire_dns_transactions`: pop the due buckets, then end every transaction they name. */
  function ExpireDns(s: WorkerState, now: Instant, endings: seq<Ending<TransactionKey>>, listen: SocketAddr)
    : (r: (WorkerState, Result<seq<Expired>, FlowError>)) {
    EndAll(s.(deadlines := Later(s.deadlines, now)), endings, listen)
  }

  ghost function RemoteTransactions(s: WorkerState): set<TransactionKey> {
    set k | k in s.byKey && s.byKey[k].remote
  }

  /** `abort_dns_transaction`. */
  function AbortDns(s: WorkerState, binding: Nat.NatBinding, listen: SocketAddr, clock: Instant)
    : (r: (WorkerState, Result<seq<Expired>, FlowError>)) {
    var answer := binding.translated.Reverse();
    if answer !in s.byReverse then (s, Ok([])) else EndAll(s, [Ending(s.byReverse[answer], clock)], listen)
  }

  // ---- The invariant ----

  /** Transactions and their answer tuples are in bijection. */
  ghost predicate TxIndex(byKey: map<TransactionKey, Transaction>, byReverse: map<FlowKey, TransactionKey>) {
    && (forall k :: k in byKey ==> byKey[k].Answer() in byReverse && byReverse[byKey[k].Answer()] == k)
    && (forall f :: f in byReverse ==> byReverse[f] in byKey && byKey[byReverse[f]].Answer() == f)
  }

  ghost function TxDue(byKey: map<TransactionKey, Transaction>, pending: set<TransactionKey>)
    : map<TransactionKey, Instant> {
    map k | k in byKey && k !in pending :: byKey[k].expiresAt
  }

  /** Each transaction owns the NAT binding of its token; every binding that is not a session's
      belongs to a transaction. */
  ghost predicate Tokens(s: WorkerState) {
    && 0 < s.nextToken <= TOKEN_BASE
    && (forall k :: k in s.byKey ==> OwnsToken(s, s.byKey[k]))
    && (forall id :: id in s.table.natTable.forward && id !in s.table.sessions ==> OwnedToken(s, id))
  }

  ghost predicate OwnsToken(s: WorkerState, t: Transaction) {
    && TOKEN_BASE < t.token < TOKEN_BASE + s.nextToken
    && t.token in s.table.natTable.forward && s.table.natTable.forward[t.token] == t.binding
    && t.binding.translated.protocol == Udp
  }

  ghost predicate OwnedToken(s: WorkerState, id: SessionId)
    requires id in s.table.natTable.forward
  {
    var f := s.table.natTable.forward[id].translated.Reverse();
    f in s.byReverse && s.byReverse[f] in s.byKey && s.byKey[s.byReverse[f]].token == id
  }

  /** The completed history is well formed and disjoint from the live answer tuples. */
  ghost predicate Remembers(h: History.Log, byReverse: map<FlowKey, TransactionKey>) {
    && History.Inverse(h) && |h.completed| <= History.CAPACITY
    && forall f :: f in h.completed ==> f !in byReverse
  }

  /** A transaction keeps a whole UDP query of the listener's family, so that it can always be
      answered, and a binding of that family. */
  ghost predicate Ready(t: Transaction, listen: SocketAddr) {
    && t.dnsVip == listen
    && ParseFlowKey(t.originalPacket).Ok?
    && UdpPayload(t.originalPacket).Ok? && |UdpPayload(t.originalPacket).value| >= 12
    && ParseFlowKey(t.originalPacket).value.source == t.client.ip && t.client.ip.V4? == listen.ip.V4?
    && ParseFlowKey(t.originalPacket).value.sourcePort == t.client.port
    && t.binding.translated.source.V4? == t.binding.translated.destination.V4? == listen.ip.V4?
  }

  ghost predicate OneFamilySessions(t: TableState) {
    forall id :: id in t.sessions ==> t.sessions[id].original.OneFamily()
  }

  /** The invariant while the transactions of `pending` have been popped from the deadline buckets
      but not yet removed; `pending` is empty between operations. */
  ghost predicate WorkerInv(s: WorkerState, range: set<U16>, listen: SocketAddr, pending: set<TransactionKey>) {
    && Inv(s.table, range, {}) && s.table.owner == s.id && OneFamilySessions(s.table)
    && TxIndex(s.byKey, s.byReverse)
    && Index(s.deadlines, TxDue(s.byKey, pending))
    && Tokens(s)
    && Remembers(s.history, s.byReverse)
    && AllReady(s.byKey, listen)
  }

  ghost predicate AllReady(byKey: map<TransactionKey, Transaction>, listen: SocketAddr) {
    forall k :: k in byKey ==> Ready(byKey[k], listen)
  }

  lemma FreshWorkerInv(id: nat, natTable: Nat.NatState, range: set<U16>, listen: SocketAddr)
    requires Nat.Inv(natTable, range) && natTable.forward == map[]
    ensures WorkerInv(FreshWorker(id, natTable), range, listen, {})
  {
    FreshInv(id, natTable, range);
  }

  /** NAT bindings are exactly the live sessions and the live transactions, and the two kinds
      never share an identifier. */
  lemma {:induction false} BindingsPartition(s: WorkerState, range: set<U16>, listen: SocketAddr)
    requires WorkerInv(s, range, listen, {})
    ensures var tokens := set k | k in s.byKey :: s.byKey[k].token;
      s.table.natTable.forward.Keys == s.table.sessions.Keys + tokens && s.table.sessions.Keys !! tokens
  {
    hide WorkerInv, Inv, Index, Remembers, AllReady;
    Unpack(s, range, listen, {});
    TokensAreNoSessions(s, range, listen);
    SessionsAreBound(s.table, range);
    var tokens := set k | k in s.byKey :: s.byKey[k].token;
    forall id | id in s.table.natTable.forward ensures id in s.table.sessions || id in tokens {
      if id !in s.table.sessions { assert OwnedToken(s, id); }
    }
    forall id | id in tokens ensures id in s.table.natTable.forward && id !in s.table.sessions {
      var k :| k in s.byKey && s.byKey[k].token == id;
      assert OwnsToken(s, s.byKey[k]);
    }
  }

  lemma SessionsAreBound(t: TableState, range: set<U16>)
    requires Inv(t, range, {})
    ensures t.sessions.Keys <= t.natTable.forward.Keys
  {
    hide KeyIndex, Index, Nat.Inv, Located;
  }

  /** The answer tuple of a live DNS transaction is never resolved as an ordinary session. */
  lemma {:induction false} DnsAnswerIsNoSession(s: WorkerState, range: set<U16>, listen: SocketAddr, f: FlowKey)
    requires WorkerInv(s, range, listen, {}) && f in s.byReverse
    ensures LookupReverse(s.table, f) == None
  {
    hide WorkerInv, Inv, Index, Remembers, AllReady, LookupReverse;
    Unpack(s, range, listen, {});
    TokensAreNoSessions(s, range, listen);
    var t := s.byKey[s.byReverse[f]];
    assert OwnsToken(s, t);
    ReverseIsReply(t.binding.translated);
    LookupFindsOwner(s.table, range, f, t.token);
  }

  lemma ReverseIsReply(f: FlowKey)
    requires f.protocol == Udp
    ensures Nat.IsReplyTo(f.Reverse(), f)
  {
  }

  /** Distinct transactions hold distinct tokens. */
  lemma {:induction false} TokensDistinct(s: WorkerState, j: TransactionKey, k: TransactionKey)
    requires TxIndex(s.byKey, s.byReverse) && Tokens(s) && j in s.byKey && k in s.byKey && j != k
    ensures s.byKey[j].token != s.byKey[k].token
  {
    assert OwnsToken(s, s.byKey[j]) && OwnsToken(s, s.byKey[k]);
  }

  // ---- Session operations ----

  /** Replacing the session table by one with the same non-session bindings keeps the DNS side. */
  lemma {:induction false} TableChange(s: WorkerState, t: TableState, range: set<U16>, listen: SocketAddr)
    requires WorkerInv(s, range, listen, {})
    requires Inv(t, range, {}) && t.owner == s.id && OneFamilySessions(t)
    requires forall id :: id in s.table.natTable.forward && id !in s.table.sessions ==>
      id in t.natTable.forward && t.natTable.forward[id] == s.table.natTable.forward[id]
    requires forall id :: id in t.natTable.forward && id !in t.sessions ==>
        id in s.table.natTable.forward && id !in s.table.sessions
    ensures WorkerInv(s.(table := t), range, listen, {})
  {
    hide Inv, TxIndex, Index, AllReady, Remembers;
    var n := s.(table := t);
    TokensAreNoSessions(s, range, listen);
    forall k | k in n.byKey ensures OwnsToken(n, n.byKey[k]) {
      assert OwnsToken(s, s.byKey[k]);
    }
    forall id | id in n.table.natTable.forward && id !in n.table.sessions ensures OwnedToken(n, id) {
      assert OwnedToken(s, id);
    }
  }

  lemma {:induction false} TokensAreNoSessions(s: WorkerState, range: set<U16>, listen: SocketAddr)
    requires WorkerInv(s, range, listen, {})
    ensures forall k :: k in s.byKey ==> s.byKey[k].token !in s.table.sessions
  {
    forall k | k in s.byKey ensures s.byKey[k].token !in s.table.sessions {
      assert OwnsToken(s, s.byKey[k]);
    }
  }

  /** A parsed flow is a supported rewrite target, whatever its addresses and source port become. */
  lemma {:induction false} ParsedIsSupported(c: Bytes, t: FlowKey)
    requires ParseFlowKey(c).Ok?
    requires t.protocol == ParseFlowKey(c).value.protocol
    requires t.IsIcmp() ==> t.destinationPort == ParseFlowKey(c).value.destinationPort
    ensures SupportedTarget(t) && ParseFlowKey(c).value.OneFamily()
  {
    ParsedIsRewritable(c);
    var m := TransportMetadata(c).value;
    var body := c[m.offset..m.total];
    assert t.IsIcmp() ==> t.destinationPort == WordAt(body, 0);
  }

  /** The translated flow of a live session differs from its own flow in source address and port only. */
  lemma {:induction false} SessionTranslation(t: TableState, range: set<U16>, id: SessionId)
    requires Inv(t, range, {}) && id in t.sessions
    ensures var e := t.sessions[id]; var x := e.binding.translated;
      && x == e.original.(source := x.source, sourcePort := x.sourcePort)
      && x.source.V4? == e.original.source.V4?
      && Compatible(e.original, x)
  {
    assert Nat.Shaped(t.natTable, id);
  }

  lemma {:induction false} GetOrCreateStep(s: WorkerState, range: set<U16>, listen: SocketAddr, flow: FlowKey,
          io: IoOwner, quicFlowId: U64, flags: Option<Byte>, now: Instant, clock: Instant)
    requires WorkerInv(s, range, listen, {}) && s.table.nextId < TOKEN_BASE && flow.OneFamily()
    ensures var (t, r) := GetOrCreate(s.table, s.id, flow, io, quicFlowId, flags, false, now, clock);
      && WorkerInv(s.(table := t), range, listen, {})
      && (r.Ok? ==> OpensOrTouches(s.table, t, r.value, flow, io))
      && (r.Err? ==> t.sessions == s.table.sessions && t.natTable.forward == s.table.natTable.forward && t.nextId == s.table.nextId)
  {
    hide GetOrCreate, Inv, TxIndex, Index, AllReady, Remembers, Tokens;
    GetOrCreateKeepsInv(s.table, range, s.id, flow, io, quicFlowId, flags, false, now, clock);
    var (t, r) := GetOrCreate(s.table, s.id, flow, io, quicFlowId, flags, false, now, clock);
    assert OneFamilySessions(t);
    NextIdFree(s.table, range);
    TableChange(s, t, range, listen);
  }

  lemma {:induction false} PipelineDelivers(packet: Bytes, t: FlowKey)
    requires PrepareSpec(packet).Ok? && ParseFlowKey(PrepareSpec(packet).value).Ok?
    requires Compatible(ParseFlowKey(PrepareSpec(packet).value).value, t) && SupportedTarget(t)
    ensures var p := PrepareSpec(packet).value;
      && ParseFlowKey(packet) == ParseFlowKey(p)
      && ClampMssSpec(p, TCP_MAX_SAFE_MSS).Ok?
      && var c := ClampMssSpec(p, TCP_MAX_SAFE_MSS).value.0;
      && ParseFlowKey(c) == ParseFlowKey(p) && ParseTcpFlags(c).Ok?
      && RewritePacketSpec(c, t).Ok? && Delivers(packet, RewritePacketSpec(c, t).value, t)
  {
    PipelineStages(packet);
    ForwardCorrect(packet, t);
    PrepareCorrect(packet);
    hide PrepareSpec, ParseFlowKey, ClampMssSpec, ParseTcpFlags, RewritePacketSpec, ValidateChecksums, SynBounded,
      IsFragmented;
  }

  lemma {:induction false} PipelineStages(packet: Bytes)
    requires PrepareSpec(packet).Ok? && ParseFlowKey(PrepareSpec(packet).value).Ok?
    ensures var p := PrepareSpec(packet).value;
      && ParseFlowKey(packet) == ParseFlowKey(p)
      && ClampMssSpec(p, TCP_MAX_SAFE_MSS).Ok?
      && var c := ClampMssSpec(p, TCP_MAX_SAFE_MSS).value.0;
      && ParseFlowKey(c) == ParseFlowKey(p) && ParseTcpFlags(c).Ok?
  {
    hide PrepareSpec, ParseFlowKey, ClampMssSpec, ParseTcpFlags, ValidateChecksums, IsFragmented, SynOptions,
      SynBounded;
    var p := PrepareSpec(packet).value;
    PrepareCorrect(packet);
    ClampKeepsFlow(p);
    ParsedTcpHeader(ClampMssSpec(p, TCP_MAX_SAFE_MSS).value.0);
  }

  /** The session stage of accepting a packet. */
  lemma {:induction false} InterceptFlowCorrect(s: WorkerState, range: set<U16>, listen: SocketAddr, io: IoOwner,
          c: Bytes, flow: FlowKey, flags: Option<Byte>, quicFlowId: U64, now: Instant, clock: Instant)
    requires WorkerInv(s, range, listen, {}) && s.table.nextId < TOKEN_BASE && ParseFlowKey(c) == Ok(flow)
    ensures var (n, r) := InterceptFlow(s, io, c, flow, flags, quicFlowId, now, clock);
      && WorkerInv(n, range, listen, {}) && n == s.(table := n.table)
      && (r.Err? ==> n.table.sessions == s.table.sessions && n.table.natTable.forward == s.table.natTable.forward && n.table.nextId == s.table.nextId)
      && (r.Ok? ==>
            && OpensOrTouches(s.table, n.table, r.value.0, flow, io)
            && var x := n.table.sessions[r.value.0].binding.translated;
            && Compatible(flow, x) && SupportedTarget(x) && RewritePacketSpec(c, x) == Ok(r.value.1))
  {
    hide GetOrCreate, WorkerInv, RewritePacketSpec, ParseFlowKey, SupportedTarget, Compatible;
    ParsedIsSupported(c, flow);
    GetOrCreateStep(s, range, listen, flow, io, quicFlowId, flags, now, clock);
    var (t, found) := GetOrCreate(s.table, s.id, flow, io, quicFlowId, flags, false, now, clock);
    if found.Ok? {
      TableInv(s.(table := t), range, listen);
      SessionTranslation(t, range, found.value);
      var x := t.sessions[found.value].binding.translated;
      ParsedIsSupported(c, x);
      RewriteCorrect(c, x);
    }
  }

  lemma TableInv(s: WorkerState, range: set<U16>, listen: SocketAddr)
    requires WorkerInv(s, range, listen, {})
    ensures Inv(s.table, range, {}) && s.table.owner == s.id && OneFamilySessions(s.table)
  {
  }

  /** Accepting a packet: every failure leaves sessions and bindings alone, and success yields the
      session of the packet's flow on its interface together with the translated packet, which
      carries the session's translated flow, validates, has a hop limit one lower and a bounded MSS. */
  lemma {:induction false} InterceptCorrect(s: WorkerState, range: set<U16>, listen: SocketAddr, io: IoOwner,
          packet: Bytes, quicWorker: nat, quicFlowId: U64, now: Instant, clock: Instant)
    requires WorkerInv(s, range, listen, {}) && s.table.nextId < TOKEN_BASE
    ensures var (n, r) := Intercept(s, io, packet, quicWorker, quicFlowId, now, clock);
      && WorkerInv(n, range, listen, {}) && n == s.(table := n.table)
      && (r.Err? ==> n.table.sessions == s.table.sessions && n.table.natTable.forward == s.table.natTable.forward && n.table.nextId == s.table.nextId)
      && (r.Ok? ==>
            && ParseFlowKey(packet).Ok?
            && OpensOrTouches(s.table, n.table, r.value.0, ParseFlowKey(packet).value, io)
            && Delivers(packet, r.value.1, n.table.sessions[r.value.0].binding.translated))
  {
    hide InterceptFlow, WorkerInv, PrepareSpec, ParseFlowKey, ClampMssSpec, ParseTcpFlags, RewritePacketSpec,
      OpensOrTouches, Delivers, SupportedTarget, Compatible;
    if quicWorker == s.id && PrepareSpec(packet).Ok? && ParseFlowKey(PrepareSpec(packet).value).Ok? {
      var p := PrepareSpec(packet).value;
      var flow := ParseFlowKey(p).value;
      PipelineStages(packet);
      var c := ClampMssSpec(p, TCP_MAX_SAFE_MSS).value.0;
      var flags := ParseTcpFlags(c).value;
      InterceptFlowCorrect(s, range, listen, io, c, flow, flags, quicFlowId, now, clock);
      var (n, r) := InterceptFlow(s, io, c, flow, flags, quicFlowId, now, clock);
      if r.Ok? {
        OpenedIsLive(s.table, n.table, r.value.0, flow, io);
        PipelineDelivers(packet, n.table.sessions[r.value.0].binding.translated);
      }
    }
  }

  lemma OpenedIsLive(s: TableState, n: TableState, id: SessionId, flow: FlowKey, io: IoOwner)
    requires OpensOrTouches(s, n, id, flow, io)
    ensures id in n.sessions && n.sessions[id].original == flow && n.sessions[id].interceptIo.ifindex == io.ifindex
  {
  }

  // ---- Replies ----

  /** A reply to a translated flow has its family and protocol, so the restored flow is compatible
      with it and a supported target. */
  lemma {:induction false} RestoredIsCompatible(c: Bytes, reply: FlowKey, e: Entry)
    requires ParseFlowKey(c) == Ok(reply) && Nat.IsReplyTo(reply, e.binding.translated)
    requires Compatible(e.original, e.binding.translated) && e.original.OneFamily()
    requires e.binding.translated.destination == e.original.destination
        && e.binding.translated.protocol == e.original.protocol
    ensures Compatible(reply, RestoredFlow(e.original, reply)) && SupportedTarget(RestoredFlow(e.original, reply))
  {
    hide ParseFlowKey, SupportedTarget;
    ParsedIsSupported(c, RestoredFlow(e.original, reply));
  }

  /** What replies may change: a deadline, a TCP state, a corrected queue; never which sessions and
      bindings exist. */
  ghost predicate SameBindings(s: TableState, n: TableState) {
    && n.owner == s.owner && n.natTable == s.natTable && n.nextId == s.nextId && n.sessions.Keys == s.sessions.Keys
    && forall k :: k in n.sessions ==> SameSession(s.sessions[k], n.sessions[k])
  }

  ghost predicate SameSession(e: Entry, f: Entry) {
    && f.original == e.original && f.binding == e.binding && f.quicFlowId == e.quicFlowId
    && f.interceptIo.ifindex == e.interceptIo.ifindex
  }

  /** Every session still belongs to the queue it was recorded for. */
  ghost predicate SameOwners(s: TableState, n: TableState) {
    forall k :: k in n.sessions && k in s.sessions ==> n.sessions[k].interceptIo == s.sessions[k].interceptIo
  }

  /** Whether a reply is let through to a session recorded for queue `io`: always when it was not
      observed on a queue, and otherwise on that very queue, or on any queue of the interface while
      the recorded one is queue 0. */
  predicate Admits(io: IoOwner, observed: Option<IoOwner>) {
    observed.None? || io == observed.value || (io.ifindex == observed.value.ifindex && io.queueId == 0)
  }

  /** The queue a session belongs to, and a restored reply goes to, once a reply was let through. */
  function Settled(io: IoOwner, observed: Option<IoOwner>): (r: IoOwner) {
    if observed.Some? && Admits(io, observed) then observed.value else io
  }

  /** A reply settles the queue of its own session and no other. */
  ghost predicate Settles(s: TableState, n: TableState, id: SessionId, observed: Option<IoOwner>) {
    forall k :: k in n.sessions && k in s.sessions ==>
      n.sessions[k].interceptIo == if k == id then Settled(s.sessions[k].interceptIo, observed)
          else s.sessions[k].interceptIo
  }

  lemma {:induction false} SameBindingsStep(s: WorkerState, t: TableState, range: set<U16>, listen: SocketAddr)
    requires WorkerInv(s, range, listen, {}) && Inv(t, range, {}) && SameBindings(s.table, t)
    ensures WorkerInv(s.(table := t), range, listen, {})
  {
    hide Inv, TxIndex, Index, AllReady, Remembers, Tokens;
    assert OneFamilySessions(t) by {
      forall id | id in t.sessions ensures t.sessions[id].original.OneFamily() {
        assert SameSession(s.table.sessions[id], t.sessions[id]);
      }
    }
    TableChange(s, t, range, listen);
  }

  lemma {:induction false} CorrectStep(s: WorkerState, range: set<U16>, listen: SocketAddr, id: SessionId,
          observed: IoOwner)
    requires WorkerInv(s, range, listen, {})
    ensures var (t, r) := CorrectInterceptIo(s.table, s.id, id, observed);
      && WorkerInv(s.(table := t), range, listen, {}) && SameBindings(s.table, t)
      && (r.Ok? <==> id in s.table.sessions) && (r.Ok? ==> Settles(s.table, t, id, Some(observed)))
      && (r.Ok? ==> (r.value != Mismatch <==> Admits(s.table.sessions[id].interceptIo, Some(observed))))
      && (r.Ok? && r.value == Mismatch ==> t == s.table)
  {
    hide Inv, TxIndex, Index, AllReady, Remembers, Tokens;
    CorrectKeepsInv(s.table, range, s.id, id, observed);
    var (t, r) := CorrectInterceptIo(s.table, s.id, id, observed);
    forall k | k in t.sessions ensures SameSession(s.table.sessions[k], t.sessions[k]) {
      assert t.sessions[k].Key() == s.table.sessions[k].Key();
    }
    SameBindingsStep(s, t, range, listen);
  }

  lemma {:induction false} TouchStep(s: WorkerState, range: set<U16>, listen: SocketAddr, id: SessionId,
          flags: Option<Byte>, isReverse: bool, now: Instant)
    requires WorkerInv(s, range, listen, {})
    ensures var (t, r) := TouchTcp(s.table, s.id, id, flags, isReverse, now);
      && WorkerInv(s.(table := t), range, listen, {}) && SameBindings(s.table, t)
      && (r.Ok? <==> id in s.table.sessions) && SameOwners(s.table, t)
  {
    hide TouchTcp, Inv, TxIndex, Index, AllReady, Remembers, Tokens;
    TouchKeepsInv(s.table, range, s.id, id, flags, isReverse, now);
    var (t, r) := TouchTcp(s.table, s.id, id, flags, isReverse, now);
    SameBindingsStep(s, t, range, listen);
  }

  /** A reply is restored to its session exactly when it is let through; otherwise nothing changes. */
  ghost predicate Restores(s: WorkerState, n: WorkerState, c: Bytes, reply: FlowKey, id: SessionId,
          observed: Option<IoOwner>, r: Result<Option<Restored>, FlowError>)
    requires id in s.table.sessions
  {
    var e := s.table.sessions[id];
    var flow := RestoredFlow(e.original, reply);
    && r.Ok?
    && (r.value.Some? <==> Admits(e.interceptIo, observed))
    && (r.value.None? ==> n == s)
    && (r.value.Some? ==>
          && r.value.value.id == id && r.value.value.quicFlowId == e.quicFlowId
          && r.value.value.target == Settled(e.interceptIo, observed) && Settles(s.table, n.table, id, observed)
          && Compatible(reply, flow) && SupportedTarget(flow)
          && RewritePacketSpec(c, flow) == Ok(r.value.value.packet))
  }

  /** The restored flow of a live session's reply, and the rewrite to it, which cannot fail. */
  lemma {:induction false} ReplyRewrites(s: WorkerState, range: set<U16>, listen: SocketAddr, c: Bytes, reply: FlowKey,
          id: SessionId)
    requires WorkerInv(s, range, listen, {}) && id in s.table.sessions
    requires ParseFlowKey(c) == Ok(reply) && Nat.IsReplyTo(reply, s.table.sessions[id].binding.translated)
    ensures var flow := RestoredFlow(s.table.sessions[id].original, reply);
      Compatible(reply, flow) && SupportedTarget(flow) && RewritePacketSpec(c, flow).Ok?
  {
    hide WorkerInv, RewritePacketSpec, ParseFlowKey, RestoredFlow, SupportedTarget, Nat.IsReplyTo;
    TableInv(s, range, listen);
    SessionTranslation(s.table, range, id);
    var e := s.table.sessions[id];
    RestoredIsCompatible(c, reply, e);
    RewriteCorrect(c, RestoredFlow(e.original, reply));
  }

  lemma {:induction false} RestoreReplyCorrect(s: WorkerState, range: set<U16>, listen: SocketAddr, c: Bytes,
          reply: FlowKey, flags: Option<Byte>, id: SessionId, observed: Option<IoOwner>, now: Instant)
    requires WorkerInv(s, range, listen, {}) && id in s.table.sessions
    requires ParseFlowKey(c) == Ok(reply) && Nat.IsReplyTo(reply, s.table.sessions[id].binding.translated)
    ensures var (n, r) := RestoreReply(s, c, reply, flags, id, observed, now);
      && WorkerInv(n, range, listen, {}) && n == s.(table := n.table) && SameBindings(s.table, n.table)
      && Restores(s, n, c, reply, id, observed, r)
  {
    hide TouchTcp, CorrectInterceptIo, WorkerInv, RewritePacketSpec, ParseFlowKey, RestoredFlow, SupportedTarget,
      Compatible, Nat.IsReplyTo, SameBindings, Settles, SameOwners;
    ReplyRewrites(s, range, listen, c, reply, id);
    if observed.Some? {
      CorrectStep(s, range, listen, id, observed.value);
    }
    var m := if observed.None? then s else s.(table := CorrectInterceptIo(s.table, s.id, id, observed.value).0);
    SameBindingsReflexive(s.table);
    if observed.None? { SettlesNothing(s.table, id); }
    BoundInBoth(s.table, m.table, id);
    TouchStep(m, range, listen, id, flags, true, now);
    var n := m.(table := TouchTcp(m.table, s.id, id, flags, true, now).0);
    SameBindingsTransitive(s.table, m.table, n.table);
    BoundInBoth(s.table, n.table, id);
    SettlesThenTouched(s.table, m.table, n.table, id, observed);
    SettledIs(s.table, n.table, id, observed);
  }

  lemma SettlesNothing(s: TableState, id: SessionId)
    ensures Settles(s, s, id, None)
  {
  }

  lemma BoundInBoth(s: TableState, n: TableState, id: SessionId)
    requires SameBindings(s, n) && id in s.sessions
    ensures id in n.sessions && SameSession(s.sessions[id], n.sessions[id]) && n.owner == s.owner
        && n.sessions.Keys == s.sessions.Keys
  {
  }

  lemma SettledIs(s: TableState, n: TableState, id: SessionId, observed: Option<IoOwner>)
    requires Settles(s, n, id, observed) && id in s.sessions && id in n.sessions
    ensures n.sessions[id].interceptIo == Settled(s.sessions[id].interceptIo, observed)
  {
  }

  lemma SettlesThenTouched(s: TableState, m: TableState, n: TableState, id: SessionId, observed: Option<IoOwner>)
    requires Settles(s, m, id, observed) && SameOwners(m, n) && m.sessions.Keys == s.sessions.Keys
    ensures Settles(s, n, id, observed)
  {
  }

  lemma SameBindingsTransitive(a: TableState, b: TableState, c: TableState)
    requires SameBindings(a, b) && SameBindings(b, c)
    ensures SameBindings(a, c)
  {
    forall k | k in c.sessions ensures SameSession(a.sessions[k], c.sessions[k]) {
      assert SameSession(a.sessions[k], b.sessions[k]) && SameSession(b.sessions[k], c.sessions[k]);
    }
  }

  /** Whatever the lookup resolves is a live session whose translated flow the packet replies to. */
  lemma {:induction false} LookupIsReply(t: TableState, range: set<U16>, reply: FlowKey)
    requires Inv(t, range, {}) && LookupReverse(t, reply).Some?
    ensures var id := LookupReverse(t, reply).value.sessionId;
      id in t.sessions && Nat.IsReplyTo(reply, t.sessions[id].binding.translated)
  {
    var k := Nat.ReplyTuple(reply);
    assert k in t.natTable.LiveTuples();
    var id :| id in t.natTable.forward && Nat.ReturnTuple(t.natTable.forward[id].translated) == k;
    assert t.natTable.reverse[k] == Nat.SessionLocator(t.owner, id);
  }

  /** The packet is a forwardable reply to the named live session of this worker, and its queue lets
      it through. */
  ghost predicate Restorable(s: WorkerState, packet: Bytes, expected: Nat.SessionLocator, observed: Option<IoOwner>) {
    && PrepareSpec(packet).Ok? && ParseFlowKey(packet).Ok?
    && expected.flowWorkerId == s.id && expected.sessionId in s.table.sessions
    && var e := s.table.sessions[expected.sessionId];
    Nat.IsReplyTo(ParseFlowKey(packet).value, e.binding.translated) && Admits(e.interceptIo, observed)
  }

  /** A packet on the return path never disturbs sessions, bindings or DNS state. It fails exactly when
      it is not forwardable or does not parse. It is restored exactly when it replies to the named live
      session and its queue lets it through; it then goes to the settled queue, and otherwise nothing
      changes at all. */
  lemma {:induction false} ReverseForCorrect(s: WorkerState, range: set<U16>, listen: SocketAddr, packet: Bytes,
          expected: Nat.SessionLocator, observed: Option<IoOwner>, now: Instant)
    requires WorkerInv(s, range, listen, {})
    ensures var (n, r) := ReverseFor(s, packet, expected, observed, now);
      && WorkerInv(n, range, listen, {}) && n == s.(table := n.table) && SameBindings(s.table, n.table)
      && (r.Ok? <==> PrepareSpec(packet).Ok? && ParseFlowKey(packet).Ok?)
      && (r.Ok? && r.value.Some? <==> Restorable(s, packet, expected, observed))
      && (r.Ok? && r.value.Some? ==> RestoredTo(s, n, packet, expected.sessionId, observed, r.value.value))
      && (r.Err? || r.value.None? ==> n == s)
  {
    hide RestoreReply, WorkerInv, PrepareSpec, ParseFlowKey, ClampMssSpec, ParseTcpFlags, RewritePacketSpec, Delivers,
      SupportedTarget, Compatible, Nat.IsReplyTo, LookupReverse, RestoredFlow, SameSession, Settles, Settled, Admits;
    SameBindingsReflexive(s.table);
    if PrepareSpec(packet).Ok? {
      PrepareKeepsFlow(packet);
    }
    if PrepareSpec(packet).Ok? && ParseFlowKey(packet).Ok? {
      var p := PrepareSpec(packet).value;
      var reply := ParseFlowKey(p).value;
      PipelineStages(packet);
      var c := ClampMssSpec(p, TCP_MAX_SAFE_MSS).value.0;
      var id := expected.sessionId;
      TableInv(s, range, listen);
      if expected.flowWorkerId == s.id { LookupIff(s.table, range, reply, expected); }
      if LookupReverse(s.table, reply) == Some(expected) && expected.flowWorkerId == s.id {
        RestoreReplyCorrect(s, range, listen, c, reply, ParseTcpFlags(c).value, id, observed, now);
        var (n, r) := RestoreReply(s, c, reply, ParseTcpFlags(c).value, id, observed, now);
        if r.value.Some? {
          PipelineDelivers(packet, RestoredFlow(s.table.sessions[id].original, reply));
        }
      }
    }
  }

  /** What a restored reply is: for its session, to the settled queue, with the restored flow. */
  ghost predicate RestoredTo(s: WorkerState, n: WorkerState, packet: Bytes, id: SessionId, observed: Option<IoOwner>,
          x: Restored)
    requires id in s.table.sessions && ParseFlowKey(packet).Ok?
  {
    var e := s.table.sessions[id];
    && x.id == id && x.quicFlowId == e.quicFlowId
    && x.target == Settled(e.interceptIo, observed) && Settles(s.table, n.table, id, observed)
    && Delivers(packet, x.packet, RestoredFlow(e.original, ParseFlowKey(packet).value))
  }

  /** The worker's own lookup finds the named locator exactly for a reply to that live session. */
  lemma {:induction false} LookupIff(t: TableState, range: set<U16>, reply: FlowKey, expected: Nat.SessionLocator)
    requires Inv(t, range, {}) && expected.flowWorkerId == t.owner
    ensures LookupReverse(t, reply) == Some(expected) <==>
      expected.sessionId in t.sessions && Nat.IsReplyTo(reply, t.sessions[expected.sessionId].binding.translated)
  {
    hide Inv, LookupReverse, Nat.IsReplyTo;
    if LookupReverse(t, reply) == Some(expected) {
      LookupIsReply(t, range, reply);
    }
    if expected.sessionId in t.sessions && Nat.IsReplyTo(reply, t.sessions[expected.sessionId].binding.translated) {
      LookupSession(t, range, reply, expected.sessionId);
    }
  }

  lemma SameBindingsReflexive(t: TableState)
    ensures SameBindings(t, t)
  {
  }

  /** A forwardable reply to a live session's translated tuple is restored exactly when its queue lets
      it through, wherever it was observed; it goes to the recorded queue when it was observed on
      none, and to the queue it was observed on otherwise. A reply that is not let through is dropped
      without a trace. */
  lemma {:induction false} ReplyReachesOwner(s: WorkerState, range: set<U16>, listen: SocketAddr, packet: Bytes,
          id: SessionId, observed: Option<IoOwner>, now: Instant)
    requires WorkerInv(s, range, listen, {}) && id in s.table.sessions
    requires PrepareSpec(packet).Ok? && ParseFlowKey(packet).Ok?
    requires Nat.IsReplyTo(ParseFlowKey(packet).value, s.table.sessions[id].binding.translated)
    ensures var (n, r) := ReverseFor(s, packet, Nat.SessionLocator(s.id, id), observed, now);
        var e := s.table.sessions[id];
      && r.Ok? && (r.value.Some? <==> Admits(e.interceptIo, observed))
      && (r.value.None? ==> n == s)
      && (r.value.Some? ==>
            && RestoredTo(s, n, packet, id, observed, r.value.value)
            && r.value.value.target == (if observed.None? then e.interceptIo else observed.value))
  {
    hide WorkerInv, PrepareSpec, ParseFlowKey, Delivers, Nat.IsReplyTo, RestoredFlow, ReverseFor;
    ReverseForCorrect(s, range, listen, packet, Nat.SessionLocator(s.id, id), observed, now);
  }

  lemma PrepareKeepsFlow(packet: Bytes)
    requires PrepareSpec(packet).Ok?
    ensures ParseFlowKey(PrepareSpec(packet).value) == ParseFlowKey(packet)
  {
    PrepareCorrect(packet);
  }

  lemma LookupSession(t: TableState, range: set<U16>, reply: FlowKey, id: SessionId)
    requires Inv(t, range, {}) && id in t.sessions && Nat.IsReplyTo(reply, t.sessions[id].binding.translated)
    ensures LookupReverse(t, reply) == Some(Nat.SessionLocator(t.owner, id))
  {
    LookupFindsOwner(t, range, reply, id);
  }

  // ---- DNS transactions keep the invariant ----

  lemma {:induction false} TxIndexInsert(byKey: map<TransactionKey, Transaction>,
          byReverse: map<FlowKey, TransactionKey>, k: TransactionKey, t: Transaction)
    requires TxIndex(byKey, byReverse) && k !in byKey && t.Answer() !in byReverse
    ensures TxIndex(byKey[k := t], byReverse[t.Answer() := k])
  {
  }

  lemma {:induction false} TxIndexRemove(byKey: map<TransactionKey, Transaction>,
          byReverse: map<FlowKey, TransactionKey>, k: TransactionKey)
    requires TxIndex(byKey, byReverse) && k in byKey
    ensures TxIndex(byKey - {k}, byReverse - {byKey[k].Answer()})
  {
    var n := byKey - {k};
    forall j | j in n ensures n[j].Answer() in byReverse - {byKey[k].Answer()} {
      assert byReverse[byKey[j].Answer()] == j && byReverse[byKey[k].Answer()] == k;
    }
  }

  lemma PortsDiffer(t: Nat.NatState, range: set<U16>, a: SessionId, b: SessionId)
    requires Nat.Inv(t, range) && a in t.forward && b in t.forward && a != b
    ensures t.forward[a].translated.sourcePort != t.forward[b].translated.sourcePort
  {
  }

  /** A freshly bound port answers on a tuple no live transaction uses. */
  lemma {:induction false} AnswerIsFresh(s: WorkerState, range: set<U16>, table: TableState, t: Transaction)
    requires TxIndex(s.byKey, s.byReverse) && Tokens(s) && Nat.Inv(table.natTable, range)
    requires t.token !in s.table.natTable.forward
        && table.natTable.forward == s.table.natTable.forward[t.token := t.binding]
    ensures t.Answer() !in s.byReverse
  {
    hide Nat.Inv;
    forall k | k in s.byKey ensures s.byKey[k].Answer() != t.Answer() {
      assert OwnsToken(s, s.byKey[k]);
      PortsDiffer(table.natTable, range, s.byKey[k].token, t.token);
    }
  }

  lemma {:induction false} AddTokens(s: WorkerState, n: WorkerState, key: TransactionKey, t: Transaction)
    requires Tokens(s) && TxIndex(s.byKey, s.byReverse) && s.nextToken < TOKEN_BASE
    requires key !in s.byKey && t.Answer() !in s.byReverse
    requires t.token == TokenOf(s.nextToken) && t.token !in s.table.natTable.forward
        && t.binding.translated.protocol == Udp
    requires n.table.natTable.forward == s.table.natTable.forward[t.token := t.binding]
        && n.table.sessions == s.table.sessions
    requires n.byKey == s.byKey[key := t] && n.byReverse == s.byReverse[t.Answer() := key]
        && n.nextToken == s.nextToken + 1
    ensures Tokens(n)
  {
    hide OwnsToken, OwnedToken, TxIndex;
    forall k | k in n.byKey ensures OwnsToken(n, n.byKey[k]) {
      if k != key { OtherToken(s, n, n.byKey[k], t); } else { NewToken(s, n, t); }
    }
    forall id | id in n.table.natTable.forward && id !in n.table.sessions ensures OwnedToken(n, id) {
      if id == t.token { NewOwned(n, key, t); } else { OtherOwned(s, n, key, t, id); }
    }
  }

  lemma OtherToken(s: WorkerState, n: WorkerState, u: Transaction, t: Transaction)
    requires OwnsToken(s, u) && t.token !in s.table.natTable.forward && n.nextToken == s.nextToken + 1
    requires n.table.natTable.forward == s.table.natTable.forward[t.token := t.binding]
    ensures OwnsToken(n, u)
  {
  }

  lemma NewToken(s: WorkerState, n: WorkerState, t: Transaction)
    requires t.token == TokenOf(s.nextToken) && 0 < s.nextToken < TOKEN_BASE && n.nextToken == s.nextToken + 1
    requires t.binding.translated.protocol == Udp
        && n.table.natTable.forward == s.table.natTable.forward[t.token := t.binding]
    ensures OwnsToken(n, t)
  {
  }

  lemma NewOwned(n: WorkerState, key: TransactionKey, t: Transaction)
    requires t.token in n.table.natTable.forward && n.table.natTable.forward[t.token] == t.binding
    requires key in n.byKey && n.byKey[key] == t && t.Answer() in n.byReverse && n.byReverse[t.Answer()] == key
    ensures OwnedToken(n, t.token)
  {
  }

  lemma OtherOwned(s: WorkerState, n: WorkerState, key: TransactionKey, t: Transaction, id: SessionId)
    requires id in s.table.natTable.forward && OwnedToken(s, id) && key !in s.byKey && t.Answer() !in s.byReverse
    requires id in n.table.natTable.forward && n.table.natTable.forward[id] == s.table.natTable.forward[id]
    requires n.byKey == s.byKey[key := t] && n.byReverse == s.byReverse[t.Answer() := key]
    ensures OwnedToken(n, id)
  {
  }

  /** The parts of the invariant, and their assembly. */
  lemma Unpack(s: WorkerState, range: set<U16>, listen: SocketAddr, pending: set<TransactionKey>)
    requires WorkerInv(s, range, listen, pending)
    ensures Inv(s.table, range, {}) && s.table.owner == s.id && OneFamilySessions(s.table)
    ensures TxIndex(s.byKey, s.byReverse) && Index(s.deadlines, TxDue(s.byKey, pending)) && Tokens(s)
    ensures Remembers(s.history, s.byReverse) && AllReady(s.byKey, listen)
  {
  }

  lemma Pack(s: WorkerState, range: set<U16>, listen: SocketAddr, pending: set<TransactionKey>)
    requires Inv(s.table, range, {}) && s.table.owner == s.id && OneFamilySessions(s.table)
    requires TxIndex(s.byKey, s.byReverse) && Index(s.deadlines, TxDue(s.byKey, pending)) && Tokens(s)
    requires Remembers(s.history, s.byReverse) && AllReady(s.byKey, listen)
    ensures WorkerInv(s, range, listen, pending)
  {
  }

  lemma NatPart(t: TableState, range: set<U16>)
    requires Inv(t, range, {})
    ensures Nat.Inv(t.natTable, range)
  {
  }

  lemma {:induction false} ForgetRemembers(h: History.Log, byReverse: map<FlowKey, TransactionKey>, f: FlowKey,
          k: TransactionKey)
    requires Remembers(h, byReverse)
    ensures Remembers(History.Forget(h, f), byReverse[f := k])
  {
    History.ForgetKeeps(h, f);
  }

  lemma {:induction false} AddTransactionKeeps(s: WorkerState, range: set<U16>, listen: SocketAddr, table: TableState,
          key: TransactionKey, t: Transaction)
    requires WorkerInv(s, range, listen, {}) && key !in s.byKey && s.nextToken < TOKEN_BASE
    requires Inv(table, range, {}) && table == s.table.(natTable := table.natTable)
    requires t.token == TokenOf(s.nextToken) && t.token !in s.table.natTable.forward
        && t.binding.translated.protocol == Udp
    requires table.natTable.forward == s.table.natTable.forward[t.token := t.binding]
    requires Ready(t, listen)
    ensures WorkerInv(AddTransaction(s, table, key, t), range, listen, {})
  {
    hide WorkerInv, Inv, Index, Ready, TxIndex, TxDue, Insert, Tokens, Remembers, History.Forget, Nat.Inv,
      OneFamilySessions;
    Unpack(s, range, listen, {});
    NatPart(table, range);
    AnswerIsFresh(s, range, table, t);
    var n := AddTransaction(s, table, key, t);
    TxIndexInsert(s.byKey, s.byReverse, key, t);
    AddTokens(s, n, key, t);
    TxDueInsert(s.byKey, key, t);
    InsertIndexes(s.deadlines, TxDue(s.byKey, {}), t.expiresAt, key);
    ForgetRemembers(s.history, s.byReverse, t.Answer(), key);
    SameSessionsOneFamily(s.table, table);
    assert AllReady(n.byKey, listen);
    Pack(n, range, listen, {});
  }

  lemma SameSessionsOneFamily(t: TableState, u: TableState)
    requires OneFamilySessions(t) && u.sessions == t.sessions
    ensures OneFamilySessions(u)
  {
  }

  lemma TxDueInsert(byKey: map<TransactionKey, Transaction>, key: TransactionKey, t: Transaction)
    ensures TxDue(byKey[key := t], {}) == TxDue(byKey, {})[key := t.expiresAt]
    ensures key !in byKey ==> key !in TxDue(byKey, {})
  {
  }

  lemma {:induction false} TxDueRemove(s: WorkerState, pending: set<TransactionKey>, key: TransactionKey)
    requires Index(s.deadlines, TxDue(s.byKey, pending)) && key in s.byKey
    ensures Index(Delete(s.deadlines, s.byKey[key].expiresAt, key), TxDue(s.byKey - {key}, pending - {key}))
  {
    hide Index, Delete;
    var due := TxDue(s.byKey, pending);
    if key in pending {
      DeleteAbsent(s.deadlines, due, s.byKey[key].expiresAt, key);
      assert due - {key} == due;
    } else {
      DeleteIndexes(s.deadlines, due, s.byKey[key].expiresAt, key);
    }
    assert TxDue(s.byKey - {key}, pending - {key}) == due - {key};
  }

  lemma {:induction false} RemoveTokens(s: WorkerState, n: WorkerState, key: TransactionKey)
    requires Tokens(s) && TxIndex(s.byKey, s.byReverse) && key in s.byKey
    requires n.table.natTable.forward == s.table.natTable.forward - {s.byKey[key].token}
        && n.table.sessions == s.table.sessions
    requires n.byKey == s.byKey - {key} && n.byReverse == s.byReverse - {s.byKey[key].Answer()}
        && n.nextToken == s.nextToken
    ensures Tokens(n)
  {
    hide OwnsToken, OwnedToken, TxIndex;
    forall k | k in n.byKey ensures OwnsToken(n, n.byKey[k]) {
      TokensDistinct(s, k, key);
      StillOwns(s, n, n.byKey[k]);
    }
    forall id | id in n.table.natTable.forward && id !in n.table.sessions ensures OwnedToken(n, id) {
      StillOwned(s, n, key, id);
    }
  }

  lemma StillOwns(s: WorkerState, n: WorkerState, t: Transaction)
    requires OwnsToken(s, t) && s.nextToken <= n.nextToken
    requires t.token in n.table.natTable.forward <== t.token in s.table.natTable.forward
    requires t.token in n.table.natTable.forward && t.token in s.table.natTable.forward ==>
      n.table.natTable.forward[t.token] == s.table.natTable.forward[t.token]
    ensures OwnsToken(n, t)
  {
  }

  /** A binding that is left belongs to another transaction, which is left too. */
  lemma StillOwned(s: WorkerState, n: WorkerState, key: TransactionKey, id: SessionId)
    requires id in s.table.natTable.forward && OwnedToken(s, id) && TxIndex(s.byKey, s.byReverse) && key in s.byKey
        && id != s.byKey[key].token
    requires id in n.table.natTable.forward && n.table.natTable.forward[id] == s.table.natTable.forward[id]
    requires n.byKey == s.byKey - {key} && n.byReverse == s.byReverse - {s.byKey[key].Answer()}
    ensures OwnedToken(n, id)
  {
    var f := s.table.natTable.forward[id].translated.Reverse();
    assert s.byReverse[f] != key;
  }

  /** Ending a transaction never fails and removes exactly it and its binding. */
  lemma {:induction false} RemoveTransactionKeeps(s: WorkerState, range: set<U16>, listen: SocketAddr,
          pending: set<TransactionKey>, key: TransactionKey, clock: Instant)
    requires WorkerInv(s, range, listen, pending)
    ensures var (n, r) := RemoveTransaction(s, key, clock);
      && r.Ok? && (r.value.Some? <==> key in s.byKey)
      && WorkerInv(n, range, listen, pending - {key})
      && n.byKey == s.byKey - {key} && n.history == s.history && n.nextToken == s.nextToken && n.id == s.id
      && n.table == s.table.(natTable := n.table.natTable)
      && (r.value.Some? ==>
            && r.value.value == s.byKey[key] && r.value.value.Answer() !in n.byReverse
            && n.table.natTable.forward == s.table.natTable.forward - {s.byKey[key].token})
      && (r.value.None? ==> n == s)
  {
    hide WorkerInv;
    if key in s.byKey {
      RemoveLiveKeeps(s, range, listen, pending, key, clock);
    } else {
      assert s.byKey - {key} == s.byKey;
      PendingAbsent(s, range, listen, pending, key);
    }
  }

  lemma PendingAbsent(s: WorkerState, range: set<U16>, listen: SocketAddr, pending: set<TransactionKey>,
          key: TransactionKey)
    requires WorkerInv(s, range, listen, pending) && key !in s.byKey
    ensures WorkerInv(s, range, listen, pending - {key})
  {
    hide Inv, Index, AllReady, TxIndex, Tokens, Remembers;
    assert TxDue(s.byKey, pending - {key}) == TxDue(s.byKey, pending);
  }

  lemma {:induction false} RemoveLiveKeeps(s: WorkerState, range: set<U16>, listen: SocketAddr,
          pending: set<TransactionKey>, key: TransactionKey, clock: Instant)
    requires WorkerInv(s, range, listen, pending) && key in s.byKey
    ensures var (n, r) := RemoveTransaction(s, key, clock);
      && r == Ok(Some(s.byKey[key]))
      && WorkerInv(n, range, listen, pending - {key})
      && n.table == s.table.(natTable := n.table.natTable)
      && s.byKey[key].Answer() !in n.byReverse
      && n.table.natTable.forward == s.table.natTable.forward - {s.byKey[key].token}
  {
    hide WorkerInv, Inv, Index, Ready, TxIndex, TxDue, Delete, Tokens, Remembers, ReleaseEphemeral, OneFamilySessions;
    Unpack(s, range, listen, pending);
    var t := s.byKey[key];
    TokenIsBound(s, key);
    ReleaseEphemeralKeepsInv(s.table, range, t.token, clock);
    var (n, r) := RemoveTransaction(s, key, clock);
    TxIndexRemove(s.byKey, s.byReverse, key);
    RemoveTokens(s, n, key);
    TxDueRemove(s, pending, key);
    SameSessionsOneFamily(s.table, n.table);
    StillRemembers(s.history, s.byReverse, n.byReverse);
    assert AllReady(n.byKey, listen);
    Pack(n, range, listen, pending - {key});
  }

  lemma StillRemembers(h: History.Log, byReverse: map<FlowKey, TransactionKey>, n: map<FlowKey, TransactionKey>)
    requires Remembers(h, byReverse) && n.Keys <= byReverse.Keys
    ensures Remembers(h, n)
  {
  }

  lemma TokenIsBound(s: WorkerState, key: TransactionKey)
    requires Tokens(s) && key in s.byKey
    ensures s.byKey[key].token >= TOKEN_BASE && s.byKey[key].token in s.table.natTable.forward
    ensures s.table.natTable.forward[s.byKey[key].token] == s.byKey[key].binding
  {
    assert OwnsToken(s, s.byKey[key]);
  }

  // ---- DNS queries ----

  /** Listener and resolvers share one address family, as the configuration parser demands. */
  ghost predicate OneFamilyConfig(config: DnsConfig) {
    config.localResolver.ip.V4? == config.remoteResolver.ip.V4? == config.listen.ip.V4?
  }

  /** What planning establishes about an admitted query. */
  ghost predicate Admitted(p: Bytes, flow: FlowKey, key: TransactionKey, resolver: SocketAddr, config: DnsConfig) {
    && ParseFlowKey(p) == Ok(flow) && flow.protocol == Udp && flow.OneFamily() && flow.destination == config.listen.ip
    && UdpPayload(p).Ok? && |UdpPayload(p).value| >= 12
    && resolver.ip.V4? == config.listen.ip.V4?
  }

  /** The outcome of an admitted query: it is forwarded, payload unchanged, on the existing or a new
      transaction of its key; or it is answered with SERVFAIL or fails, and every binding is left
      alone. */
  ghost predicate QueryOutcome(s: WorkerState, n: WorkerState, plan: Plan, config: DnsConfig, now: Instant,
          r: Result<DnsOutcome, FlowError>)
    requires plan.Admit?
  {
    var key := plan.key;
    && n.table == s.table.(natTable := n.table.natTable) && s.nextToken <= n.nextToken <= s.nextToken + 1
        && n.id == s.id
    && (if r.Ok? && r.value.Forwarded? then
          && key in n.byKey && n.byKey == s.byKey[key := n.byKey[key]]
          && CarriesQuery(r.value, n.byKey[key], plan.packet)
          && (if key in s.byKey then n == s else Opens(s, n, plan, config, now))
        else
          && n == s.(table := n.table, nextToken := n.nextToken) && n.table.natTable.forward == s.table.natTable.forward
          && (r.Ok? ==> IsRefusal(r.value, key.ioOwner, plan.packet, plan.flow, config.listen)))
  }

  /** The new transaction of an admitted query: all it keeps of the query, under the next token with a
      binding of its own; its answer tuple is no longer a completed one. */
  ghost predicate Opens(s: WorkerState, n: WorkerState, plan: Plan, config: DnsConfig, now: Instant)
    requires plan.Admit? && plan.key in n.byKey
  {
    var t := n.byKey[plan.key];
    && t == Accounted(TokenOf(s.nextToken), plan.packet, plan.flow, plan.key, plan.remote, config, now, t.binding)
    && n.nextToken == s.nextToken + 1 && n.history == History.Forget(s.history, t.Answer())
    && n.table.natTable.forward == s.table.natTable.forward[t.token := t.binding]
  }

  /** The forwarded query: the transaction's translated flow around the payload of `p`. */
  ghost predicate CarriesQuery(x: DnsOutcome, t: Transaction, p: Bytes) {
    && x.Forwarded? && x.token == t.token && x.binding == t.binding && x.remote == t.remote && x.target == t.localTarget
    && ParseFlowKey(x.packet) == Ok(t.binding.translated) && ValidateChecksums(x.packet) == Ok(())
    && UdpPayload(x.packet) == UdpPayload(p)
  }

  /** The SERVFAIL answer to the query in `p`, for the client it came from. */
  ghost predicate IsRefusal(x: DnsOutcome, io: IoOwner, p: Bytes, flow: FlowKey, listen: SocketAddr) {
    && x.Servfail? && x.target == io && UdpPayload(p).Ok?
    && Refuses(x.packet, SocketAddr(flow.source, flow.sourcePort), listen, UdpPayload(p).value)
  }

  lemma {:induction false} ForwardQueryCorrect(s: WorkerState, listen: SocketAddr, p: Bytes, flow: FlowKey,
          t: Transaction)
    requires ParseFlowKey(p) == Ok(flow) && flow.protocol == Udp && flow.OneFamily()
        && flow.destination.V4? == listen.ip.V4?
    requires Ready(t, listen) && t.binding.translated.protocol == Udp && UdpPayload(p).Ok?
    ensures var (n, r) := ForwardQuery(s, p, t); n == s && r.Ok? && CarriesQuery(r.value, t, p)
  {
    hide ParseFlowKey, UdpPayload, RewritePacketSpec, ValidateChecksums, TransportMetadata;
    RewriteCorrect(p, t.binding.translated);
    RewriteKeepsPayload(p, t.binding.translated);
  }

  lemma {:induction false} AnswerServfailCorrect(s: WorkerState, io: IoOwner, p: Bytes, flow: FlowKey,
          listen: SocketAddr)
    requires ParseFlowKey(p) == Ok(flow) && UdpPayload(p).Ok? && flow.source.V4? == listen.ip.V4?
    ensures var (n, r) := AnswerServfail(s, io, p, flow, listen);
        n == s && r.Ok? && IsRefusal(r.value, io, p, flow, listen)
  {
    hide ParseFlowKey, UdpPayload, ServfailPacket, Refuses;
    ServfailCorrect(p, listen);
  }

  lemma {:induction false} NewTransactionReady(table: TableState, range: set<U16>, t: Transaction, p: Bytes,
          flow: FlowKey, key: TransactionKey, resolver: SocketAddr, config: DnsConfig)
    requires Admitted(p, flow, key, resolver, config)
    requires Nat.Inv(table.natTable, range) && t.token in table.natTable.forward
        && table.natTable.forward[t.token] == t.binding
    requires t.binding.original == Selected(flow, resolver)
    requires t.client == SocketAddr(flow.source, flow.sourcePort) && t.dnsVip == config.listen && t.originalPacket == p
    ensures Ready(t, config.listen) && t.binding.translated.protocol == Udp
  {
    hide ParseFlowKey, UdpPayload;
    assert Nat.Shaped(table.natTable, t.token);
  }

  lemma TokenIsFree(s: WorkerState, range: set<U16>)
    requires Inv(s.table, range, {}) && Tokens(s) && s.nextToken < TOKEN_BASE
    ensures TokenOf(s.nextToken) !in s.table.natTable.forward && TokenOf(s.nextToken) >= TOKEN_BASE
  {
    forall id | id in s.table.natTable.forward && id !in s.table.sessions ensures id < TOKEN_BASE + s.nextToken {
      assert OwnedToken(s, id);
      assert OwnsToken(s, s.byKey[s.byReverse[s.table.natTable.forward[id].translated.Reverse()]]);
    }
  }

  /** The new-transaction branch. */
  lemma {:induction false} DnsOpenCorrect(s: WorkerState, range: set<U16>, p: Bytes, flow: FlowKey, key: TransactionKey,
          resolver: SocketAddr, remote: bool, config: DnsConfig, now: Instant, clock: Instant)
    requires WorkerInv(s, range, config.listen, {}) && s.nextToken < TOKEN_BASE && key !in s.byKey
    requires Admitted(p, flow, key, resolver, config)
    requires AllocateEphemeral(s.table, s.id, TokenOf(s.nextToken), Selected(flow, resolver), clock).1.Ok?
    ensures var token := TokenOf(s.nextToken);
      var (table, bound) := AllocateEphemeral(s.table, s.id, token, Selected(flow, resolver), clock);
      var t := Accounted(token, p, flow, key, remote, config, now, bound.value);
      var (n, r) := ForwardQuery(AddTransaction(s, table, key, t), p, t);
      WorkerInv(n, range, config.listen, {})
          && QueryOutcome(s, n, Admit(p, flow, key, resolver, remote), config, now, r)
  {
    hide WorkerInv, Inv, AllocateEphemeral, ForwardQuery, Ready, Tokens, Nat.Inv, ParseFlowKey, ValidateChecksums,
      UdpPayload, Insert, History.Forget;
    var token := TokenOf(s.nextToken);
    var selected := Selected(flow, resolver);
    Unpack(s, range, config.listen, {});
    TokenIsFree(s, range);
    AllocateEphemeralKeepsInv(s.table, range, token, selected, clock);
    var (table, bound) := AllocateEphemeral(s.table, s.id, token, selected, clock);
    var t := Accounted(token, p, flow, key, remote, config, now, bound.value);
    NatPart(table, range);
    NewTransactionReady(table, range, t, p, flow, key, resolver, config);
    AddTransactionKeeps(s, range, config.listen, table, key, t);
    ForwardQueryCorrect(AddTransaction(s, table, key, t), config.listen, p, flow, t);
  }

  lemma {:induction false} TokenSkipped(s: WorkerState, range: set<U16>, listen: SocketAddr, table: TableState)
    requires WorkerInv(s, range, listen, {}) && s.nextToken < TOKEN_BASE
    requires Inv(table, range, {}) && table == s.table.(natTable := table.natTable)
        && table.natTable.forward == s.table.natTable.forward
    ensures WorkerInv(s.(table := table, nextToken := s.nextToken + 1), range, listen, {})
  {
    hide WorkerInv, Inv, Index, TxIndex, TxDue, Remembers, AllReady, OneFamilySessions;
    Unpack(s, range, listen, {});
    var n := s.(table := table, nextToken := s.nextToken + 1);
    SameSessionsOneFamily(s.table, table);
    forall k | k in n.byKey ensures OwnsToken(n, n.byKey[k]) { assert OwnsToken(s, s.byKey[k]); }
    forall id | id in n.table.natTable.forward && id !in n.table.sessions
        ensures OwnedToken(n, id) { assert OwnedToken(s, id); }
    Pack(n, range, listen, {});
  }

  lemma {:induction false} DnsAdmitCorrect(s: WorkerState, range: set<U16>, p: Bytes, flow: FlowKey,
          key: TransactionKey, resolver: SocketAddr, remote: bool, config: DnsConfig, now: Instant, clock: Instant)
    requires WorkerInv(s, range, config.listen, {}) && s.nextToken < TOKEN_BASE
    requires Admitted(p, flow, key, resolver, config)
    ensures var (n, r) := DnsAdmit(s, p, flow, key, resolver, remote, config, now, clock);
      WorkerInv(n, range, config.listen, {})
          && QueryOutcome(s, n, Admit(p, flow, key, resolver, remote), config, now, r)
  {
    hide WorkerInv, Inv, AllocateEphemeral, AnswerServfail, ForwardQuery, AddTransaction, ParseFlowKey, UdpPayload,
      Ready, Tokens, Index, TxIndex, Remembers, QueryOutcome, CarriesQuery, IsRefusal, Selected, Accounted, AllReady;
    Unpack(s, range, config.listen, {});
    var plan := Admit(p, flow, key, resolver, remote);
    if key in s.byKey {
      TxReady(s, config.listen, key);
      ForwardQueryCorrect(s, config.listen, p, flow, s.byKey[key]);
      KnownOutcome(s, plan, config, now, ForwardQuery(s, p, s.byKey[key]).1);
    } else if (remote && !config.remoteAvailable) || |s.byKey| >= config.capacity {
      AnswerServfailCorrect(s, key.ioOwner, p, flow, config.listen);
      RefusalOutcome(s, s, plan, config, now, AnswerServfail(s, key.ioOwner, p, flow, config.listen).1);
    } else {
      var token := TokenOf(s.nextToken);
      var selected := Selected(flow, resolver);
      TokenIsFree(s, range);
      AllocateEphemeralKeepsInv(s.table, range, token, selected, clock);
      var (table, bound) := AllocateEphemeral(s.table, s.id, token, selected, clock);
      if bound.Ok? {
        DnsOpenCorrect(s, range, p, flow, key, resolver, remote, config, now, clock);
      } else {
        TokenSkipped(s, range, config.listen, table);
        var n := s.(table := table, nextToken := s.nextToken + 1);
        AnswerServfailCorrect(n, key.ioOwner, p, flow, config.listen);
        RefusalOutcome(s, n, plan, config, now, DnsAdmit(s, p, flow, key, resolver, remote, config, now, clock).1);
      }
    }
  }

  lemma KnownOutcome(s: WorkerState, plan: Plan, config: DnsConfig, now: Instant, r: Result<DnsOutcome, FlowError>)
    requires plan.Admit? && plan.key in s.byKey && r.Ok? && CarriesQuery(r.value, s.byKey[plan.key], plan.packet)
    ensures QueryOutcome(s, s, plan, config, now, r)
  {
    hide ParseFlowKey, UdpPayload, ValidateChecksums;
    assert s.byKey[plan.key := s.byKey[plan.key]] == s.byKey;
  }

  lemma RefusalOutcome(s: WorkerState, n: WorkerState, plan: Plan, config: DnsConfig, now: Instant,
          r: Result<DnsOutcome, FlowError>)
    requires plan.Admit? && n == s.(table := n.table, nextToken := n.nextToken)
        && s.nextToken <= n.nextToken <= s.nextToken + 1
    requires n.table == s.table.(natTable := n.table.natTable) && n.table.natTable.forward == s.table.natTable.forward
    requires r.Ok? ==> IsRefusal(r.value, plan.key.ioOwner, plan.packet, plan.flow, config.listen)
    ensures QueryOutcome(s, n, plan, config, now, r)
  {
    hide Refuses, UdpPayload;
  }

  lemma TxReady(s: WorkerState, listen: SocketAddr, key: TransactionKey)
    requires AllReady(s.byKey, listen) && Tokens(s) && key in s.byKey
    ensures Ready(s.byKey[key], listen) && s.byKey[key].binding.translated.protocol == Udp
  {
    assert OwnsToken(s, s.byKey[key]);
  }

  /** A DNS query: whatever happens, the invariant holds and a binding is created exactly when a new
      transaction is forwarded. An admitted query is forwarded with the transaction's translated flow
      around the client's edited payload, or answered with SERVFAIL, or fails and changes no binding;
      a query to refuse is answered with SERVFAIL and changes nothing. */
  lemma {:induction false} DnsQueryCorrect(s: WorkerState, range: set<U16>, io: IoOwner, packet: Bytes,
          config: DnsConfig, now: Instant, clock: Instant)
    requires WorkerInv(s, range, config.listen, {}) && s.nextToken < TOKEN_BASE && OneFamilyConfig(config)
    ensures var (n, r) := DnsQuery(s, io, packet, config, now, clock);
      && WorkerInv(n, range, config.listen, {})
      && match PlanQuery(io, packet, config)
         case Ok(Admit(p, flow, key, resolver, remote)) =>
             QueryOutcome(s, n, Admit(p, flow, key, resolver, remote), config, now, r)
         case Ok(Refuse(p, flow)) => n == s && r.Ok? && IsRefusal(r.value, io, p, flow, config.listen)
         case Err(e) => n == s && r == Err(e)
    ensures PlanQuery(io, packet, config).Ok? ==>
      UdpPayload(packet).Ok?
          && UdpPayload(PlanQuery(io, packet, config).value.packet) == Ok(Edited(UdpPayload(packet).value))
  {
    hide WorkerInv, PlanQuery, DnsAdmit, ParseFlowKey, UdpPayload, AnswerServfail, QueryOutcome, IsRefusal, Edited,
      ClampEdnsSpec, ParseQuestion, IsRemote;
    match PlanQuery(io, packet, config) {
      case Ok(Admit(p, flow, key, resolver, remote)) =>
        PlanCorrect(io, packet, config);
        DnsAdmitCorrect(s, range, p, flow, key, resolver, remote, config, now, clock);
      case Ok(Refuse(p, flow)) =>
        PlanCorrect(io, packet, config);
        AnswerServfailCorrect(s, io, p, flow, config.listen);
      case _ =>
    }
  }

  // ---- DNS endings ----

  lemma {:induction false} RecordRemembers(h: History.Log, byReverse: map<FlowKey, TransactionKey>, f: FlowKey,
          g: History.Log)
    requires Remembers(h, byReverse) && f !in byReverse && h.next < 0xFFFF_FFFF_FFFF_FFFF
    requires History.Evicted(History.Record(h, f), g)
    ensures Remembers(g, byReverse) && f in g.completed
  {
    History.RecordKeeps(h, f);
    History.RememberedIsKept(History.Record(h, f), g, f);
    forall x | x in g.completed ensures x !in byReverse {
      assert g.order[g.completed[x]] == x && g.completed[x] in History.Record(h, f).order;
    }
  }

  lemma {:induction false} HistoryChange(s: WorkerState, range: set<U16>, listen: SocketAddr, h: History.Log)
    requires WorkerInv(s, range, listen, {}) && Remembers(h, s.byReverse)
    ensures WorkerInv(s.(history := h), range, listen, {})
  {
    hide Inv, Index, AllReady, TxIndex, Remembers;
    var n := s.(history := h);
    assert forall k :: k in s.byKey ==> OwnsToken(s, s.byKey[k]) && OwnsToken(n, s.byKey[k]);
    assert forall id :: id in s.table.natTable.forward && id !in s.table.sessions ==>
        OwnedToken(s, id) && OwnedToken(n, id);
  }

  lemma {:induction false} MatchedTransaction(s: WorkerState, p: Bytes, flow: FlowKey)
    requires TxIndex(s.byKey, s.byReverse) && MatchFlow(s, p, flow).Ok? && MatchFlow(s, p, flow).value.Some?
    ensures var key := MatchFlow(s, p, flow).value.value;
      && key in s.byKey && flow == s.byKey[key].Answer() && UdpPayload(p).Ok?
          && UdpPayload(s.byKey[key].originalPacket).Ok?
      && ResponseMatchesQuery(UdpPayload(s.byKey[key].originalPacket).value, UdpPayload(p).value).Ok?
  {
    hide UdpPayload, ResponseMatchesQuery;
  }

  /** A completed transaction: it and its binding are gone, its tuple is remembered, and the answer
      goes to the client's own port on the queue it asked from. */
  ghost predicate Completes(s: WorkerState, n: WorkerState, key: TransactionKey, p: Bytes, x: DnsAnswer,
          listen: SocketAddr)
    requires key in s.byKey
  {
    var t := s.byKey[key];
    && n.byKey == s.byKey - {key} && n.table.natTable.forward == s.table.natTable.forward - {t.token}
    && t.Answer() in n.history.completed && t.Answer() !in n.byReverse
    && x.target == t.localTarget && x.token == t.token && x.binding == t.binding
    && Relays(x.packet, t, p, listen)
  }

  /** The answer made of the response `p`: valid, from the listener to the client, with the
      response's payload, or the query failed when that payload is oversized. */
  ghost predicate Relays(out: Bytes, t: Transaction, p: Bytes, listen: SocketAddr) {
    && UdpPayload(p).Ok? && UdpPayload(t.originalPacket).Ok?
    && if |UdpPayload(p).value| <= DNS_PAYLOAD_MAX then ToClient(out, t.client, listen)
        && UdpPayload(out) == UdpPayload(p)
       else Refuses(out, t.client, listen, UdpPayload(t.originalPacket).value)
  }

  lemma {:induction false} DnsCompleteCorrect(s: WorkerState, range: set<U16>, listen: SocketAddr, p: Bytes,
          flow: FlowKey, key: TransactionKey, clock: Instant, n: WorkerState, r: Result<Option<DnsAnswer>, FlowError>)
    requires WorkerInv(s, range, listen, {}) && s.history.next < 0xFFFF_FFFF_FFFF_FFFF
    requires key in s.byKey && flow == s.byKey[key].Answer() && ParseFlowKey(p) == Ok(flow) && UdpPayload(p).Ok?
    requires DnsComplete(s, p, flow, key, clock, n, r)
    ensures WorkerInv(n, range, listen, {})
    ensures n.table == s.table.(natTable := n.table.natTable) && n.nextToken == s.nextToken && n.id == s.id
    ensures r.Ok? && r.value.Some? && Completes(s, n, key, p, r.value.value, listen)
  {
    hide WorkerInv, RemoveTransaction, AnswerPacket, ParseFlowKey, UdpPayload, ValidateChecksums, History.Evicted,
      History.Record, Remembers, Ready, Relays, TxIndex, Tokens, Index, Inv;
    RemoveTransactionKeeps(s, range, listen, {}, key, clock);
    assert {} - {key} == {};
    var (m, removed) := RemoveTransaction(s, key, clock);
    Unpack(m, range, listen, {});
    RecordRemembers(m.history, m.byReverse, flow, n.history);
    HistoryChange(m, range, listen, n.history);
    Unpack(s, range, listen, {});
    ReadyOf(s, listen, key);
    AnswerPacketCorrect(s.byKey[key], p, flow, listen);
  }

  lemma {:induction false} ResponsePacketFlow(packet: Bytes)
    requires ResponsePacket(packet).Ok? && ResponsePacket(packet).value.Some?
    ensures ParseFlowKey(ResponsePacket(packet).value.value.0) == Ok(ResponsePacket(packet).value.value.1)
    ensures UdpPayload(ResponsePacket(packet).value.value.0) == UdpPayload(packet)
  {
    hide ParseFlowKey, PrepareSpec, IsFragmented, UdpPayload, TransportMetadata;
    PlannedParses(packet);
    PrepareKeepsPayload(packet);
  }

  /** A response ends at most the one live transaction whose tuple it arrives on and whose question
      it repeats, and then answers the client; otherwise nothing changes. */
  lemma {:induction false} DnsResponseCorrect(s: WorkerState, range: set<U16>, listen: SocketAddr, packet: Bytes,
          clock: Instant, n: WorkerState, r: Result<Option<DnsAnswer>, FlowError>)
    requires WorkerInv(s, range, listen, {}) && s.history.next < 0xFFFF_FFFF_FFFF_FFFF
    requires DnsResponse(s, packet, clock, n, r)
    ensures WorkerInv(n, range, listen, {})
    ensures n.table == s.table.(natTable := n.table.natTable) && n.nextToken == s.nextToken && n.id == s.id
    ensures if r.Err? || r.value.None? then n == s
            else
              && ResponsePacket(packet).Ok? && ResponsePacket(packet).value.Some?
              && var (p, flow) := ResponsePacket(packet).value.value; var key := s.byReverse[flow];
              && flow in s.byReverse && key in s.byKey && Completes(s, n, key, p, r.value.value, listen)
              && UdpPayload(p) == UdpPayload(packet) && UdpPayload(p).Ok? && UdpPayload(s.byKey[key].originalPacket).Ok?
              && ResponseMatchesQuery(UdpPayload(s.byKey[key].originalPacket).value, UdpPayload(p).value).Ok?
  {
    hide WorkerInv, ResponsePacket, MatchFlow, DnsComplete, ParseFlowKey, UdpPayload, ResponseMatchesQuery, Completes,
      Index, Inv, Tokens, Remembers;
    match ResponsePacket(packet) {
      case Ok(Some((p, flow))) =>
        match MatchFlow(s, p, flow) {
          case Ok(Some(key)) =>
            Unpack(s, range, listen, {});
            ResponsePacketFlow(packet);
            MatchedTransaction(s, p, flow);
            DnsCompleteCorrect(s, range, listen, p, flow, key, clock, n, r);
          case _ =>
        }
      case _ =>
    }
  }

  /** The answer to a matched response can always be built. */
  lemma {:induction false} AnswerPacketCorrect(t: Transaction, p: Bytes, flow: FlowKey, listen: SocketAddr)
    requires Ready(t, listen) && ParseFlowKey(p) == Ok(flow) && UdpPayload(p).Ok? && flow == t.Answer()
    ensures AnswerPacket(t, p).Ok? && Relays(AnswerPacket(t, p).value, t, p, listen)
  {
    hide ParseFlowKey, UdpPayload, ServfailPacket, RewritePacketSpec, ValidateChecksums, TransportMetadata, Fails;
    UdpFlow(p);
    if |UdpPayload(p).value| > DNS_PAYLOAD_MAX {
      ServfailCorrect(t.originalPacket, listen);
    } else {
      var back := FlowKey(t.dnsVip.ip, t.client.ip, t.dnsVip.port, t.client.port, Udp);
      RewriteCorrect(p, back);
      RewriteKeepsPayload(p, back);
    }
  }

  /** The SERVFAIL answer of an ended transaction, to the client that asked, for its query. */
  ghost predicate AnswersClient(x: Expired, t: Transaction, listen: SocketAddr) {
    && x.target == t.localTarget && x.binding == t.binding && x.token == t.token
    && UdpPayload(t.originalPacket).Ok? && Refuses(x.packet, t.client, listen, UdpPayload(t.originalPacket).value)
  }

  lemma {:induction false} ServfailForCorrect(t: Transaction, listen: SocketAddr)
    requires Ready(t, listen)
    ensures ServfailFor(t, listen).Ok? && AnswersClient(ServfailFor(t, listen).value, t, listen)
  {
    hide ParseFlowKey, UdpPayload, ServfailPacket, Refuses;
    ServfailCorrect(t.originalPacket, listen);
  }

  /** What a list of endings leaves. */
  ghost predicate Ends(s: WorkerState, n: WorkerState, keys: set<TransactionKey>) {
    && n.byKey == s.byKey - keys && n.history == s.history && n.nextToken == s.nextToken && n.id == s.id
    && n.table == s.table.(natTable := n.table.natTable)
    && forall id :: id in n.table.natTable.forward ==>
         id in s.table.natTable.forward && n.table.natTable.forward[id] == s.table.natTable.forward[id]
  }

  lemma {:induction false} EndsMore(s: WorkerState, m: WorkerState, n: WorkerState, keys: set<TransactionKey>,
          key: TransactionKey)
    requires Ends(s, m, keys) && Ends(m, n, {key})
    ensures Ends(s, n, keys + {key})
  {
    assert s.byKey - keys - {key} == s.byKey - (keys + {key});
  }

  /** One round of the removal loop. */
  lemma {:induction false} EndOne(m: WorkerState, range: set<U16>, listen: SocketAddr, pending: set<TransactionKey>,
          key: TransactionKey, clock: Instant)
    requires WorkerInv(m, range, listen, pending) && key in m.byKey
    ensures var (n, r) := RemoveTransaction(m, key, clock);
      && WorkerInv(n, range, listen, pending - {key}) && Ends(m, n, {key}) && r == Ok(Some(m.byKey[key]))
      && ServfailFor(m.byKey[key], listen).Ok?
          && AnswersClient(ServfailFor(m.byKey[key], listen).value, m.byKey[key], listen)
  {
    hide WorkerInv, RemoveTransaction, ServfailFor, AnswersClient, Ready, TxIndex, Tokens, Index, Inv, Remembers;
    RemoveTransactionKeeps(m, range, listen, pending, key, clock);
    Unpack(m, range, listen, pending);
    ReadyOf(m, listen, key);
    ServfailForCorrect(m.byKey[key], listen);
  }

  /** Ending a list of distinct live transactions never fails, removes exactly them and answers each. */
  lemma {:induction false} EndAllCorrect(s: WorkerState, range: set<U16>, listen: SocketAddr,
          pending: set<TransactionKey>, endings: seq<Ending<TransactionKey>>)
    requires WorkerInv(s, range, listen, pending)
    requires forall i, j :: 0 <= i < j < |endings| ==> endings[i].key != endings[j].key
    requires forall i :: 0 <= i < |endings| ==> endings[i].key in s.byKey
    ensures var (n, r) := EndAll(s, endings, listen);
      && WorkerInv(n, range, listen, pending - EndedKeys(endings)) && Ends(s, n, EndedKeys(endings))
      && r.Ok? && |r.value| == |endings|
      && (forall i :: 0 <= i < |endings| ==> AnswersClient(r.value[i], s.byKey[endings[i].key], listen))
  {
    hide WorkerInv, RemoveTransaction, ServfailFor, AnswersClient, EndedKeys, Ends;
    if |endings| == 0 {
      EndedNone(endings);
      assert pending - {} == pending;
      EndsNothing(s);
    } else {
      var front := endings[..|endings| - 1];
      var last := endings[|endings| - 1];
      EndAllCorrect(s, range, listen, pending, front);
      var (m, before) := EndAll(s, front, listen);
      EndedLast(endings);
      EndedNot(front, last.key);
      StillLive(s, m, EndedKeys(front), last.key);
      EndOne(m, range, listen, pending - EndedKeys(front), last.key, last.clock);
      assert pending - EndedKeys(front) - {last.key} == pending - EndedKeys(endings);
      EndsMore(s, m, RemoveTransaction(m, last.key, last.clock).0, EndedKeys(front), last.key);
    }
  }

  lemma EndsNothing(s: WorkerState)
    ensures Ends(s, s, {})
  {
    assert s.byKey - {} == s.byKey;
  }

  lemma StillLive(s: WorkerState, m: WorkerState, keys: set<TransactionKey>, key: TransactionKey)
    requires Ends(s, m, keys) && key in s.byKey && key !in keys
    ensures key in m.byKey && m.byKey[key] == s.byKey[key]
  {
  }

  lemma ReadyOf(s: WorkerState, listen: SocketAddr, key: TransactionKey)
    requires AllReady(s.byKey, listen) && key in s.byKey
    ensures Ready(s.byKey[key], listen)
  {
  }

  /** The timeout sweep ends and answers exactly the transactions whose deadline has passed, in
      whatever order the buckets name them, and never fails. */
  lemma {:induction false} ExpireDnsCorrect(s: WorkerState, range: set<U16>, listen: SocketAddr, now: Instant,
          endings: seq<Ending<TransactionKey>>)
    requires WorkerInv(s, range, listen, {}) && Enumerates(endings, DueTransactions(s, now))
    ensures var (n, r) := ExpireDns(s, now, endings, listen);
      && WorkerInv(n, range, listen, {}) && Ends(s, n, DueTransactions(s, now))
      && r.Ok? && |r.value| == |endings|
      && (forall i :: 0 <= i < |endings| ==>
          endings[i].key in s.byKey && AnswersClient(r.value[i], s.byKey[endings[i].key], listen))
  {
    hide WorkerInv, EndAll, AnswersClient;
    var due := DueTransactions(s, now);
    TxPopped(s, range, listen, now);
    EnumeratedEnded(endings, due);
    EndAllCorrect(s.(deadlines := Later(s.deadlines, now)), range, listen, due, endings);
    assert due - due == {};
  }

  lemma {:induction false} TxPopped(s: WorkerState, range: set<U16>, listen: SocketAddr, now: Instant)
    requires WorkerInv(s, range, listen, {})
    ensures WorkerInv(s.(deadlines := Later(s.deadlines, now)), range, listen, DueTransactions(s, now))
  {
    hide WorkerInv, Inv, Index, AllReady, TxIndex, Remembers, Later, Tokens, TxDue, OneFamilySessions;
    Unpack(s, range, listen, {});
    var n := s.(deadlines := Later(s.deadlines, now));
    LaterIndexes(s.deadlines, TxDue(s.byKey, {}), now);
    DueLater(s, now);
    SameTokens(s, n);
    Pack(n, range, listen, DueTransactions(s, now));
  }

  lemma DueLater(s: WorkerState, now: Instant)
    ensures var all := TxDue(s.byKey, {}); TxDue(s.byKey, DueTransactions(s, now)) == map k | k in all && all[k] > now :: all[k]
  {
  }

  lemma SameTokens(s: WorkerState, n: WorkerState)
    requires Tokens(s) && n.table == s.table && n.byKey == s.byKey && n.byReverse == s.byReverse
        && n.nextToken == s.nextToken
    ensures Tokens(n)
  {
    forall k | k in n.byKey ensures OwnsToken(n, n.byKey[k]) { assert OwnsToken(s, s.byKey[k]); }
    forall id | id in n.table.natTable.forward && id !in n.table.sessions
        ensures OwnedToken(n, id) { assert OwnedToken(s, id); }
  }
}
