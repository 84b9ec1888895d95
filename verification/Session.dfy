/** The session table of one flow worker: key index, session map, deadline buckets and the
    embedded NAT table, kept in agreement by every operation. */
module Session {
  import opened Core
  import opened Packet
  import opened Deadlines
  import Nat

  type SessionId = Nat.SessionId

  /** DNS tokens have the top bit of the identifier set; session identifiers do not. */
  const TOKEN_BASE: SessionId := 0x8000_0000_0000_0000

  const TCP_IDLE: nat := 300 * SECOND
  const TCP_CLOSING: nat := 5 * SECOND
  const TCP_RST: nat := 2 * SECOND
  const UDP_IDLE: nat := 60 * SECOND
  const ICMP_IDLE: nat := 30 * SECOND

  datatype IoOwner = IoOwner(ifindex: U32, queueId: U32)

  datatype TcpState = Established | FinSeenForward | FinSeenReverse | Closing | Reset

  datatype SessionKey = SessionKey(original: FlowKey, ifindex: U32)

  datatype Entry = Entry(
    id: SessionId,
    original: FlowKey,
    binding: Nat.NatBinding,
    flowWorkerId: nat,
    interceptIo: IoOwner,
    quicFlowId: U64,
    expiresAt: Instant,
    tcpState: Option<TcpState>)
  {
    function Key(): SessionKey {
      SessionKey(original, interceptIo.ifindex)
    }
  }

  datatype SessionError =
    | WrongOwner(expected: nat, actual: nat)
    | UnknownSession(id: SessionId)
    | NatFailure(error: Nat.NatError)

  datatype IoUpdate = Unchanged | Corrected | Mismatch

  datatype TableState = TableState(
    owner: nat,
    nextId: U64,
    byKey: map<SessionKey, SessionId>,
    sessions: map<SessionId, Entry>,
    deadlines: Buckets<SessionId>,
    natTable: Nat.NatState)

  // ---- Timeouts ----

  predicate Rst(flags: Option<Byte>) {
    flags.Some? && flags.value / 4 % 2 == 1
  }

  predicate Fin(flags: Option<Byte>) {
    flags.Some? && flags.value % 2 == 1
  }

  function IdleTimeout(protocol: TransportProtocol): (r: nat) {
    match protocol
    case Tcp => TCP_IDLE
    case Udp => UDP_IDLE
    case Icmp => ICMP_IDLE
    case Icmpv6 => ICMP_IDLE
  }

  /** State and lifetime of a new session. */
  function Opening(protocol: TransportProtocol, flags: Option<Byte>): (r: (Option<TcpState>, nat)) {
    if protocol != Tcp then (None, IdleTimeout(protocol))
    else (Some(Established), if Rst(flags) then TCP_RST else if Fin(flags) then TCP_CLOSING else TCP_IDLE)
  }

  /** The state after a FIN in one direction. */
  function AfterFin(state: Option<TcpState>, isReverse: bool): (r: TcpState) {
    match state
    case Some(FinSeenReverse) => if isReverse then FinSeenReverse else Closing
    case Some(FinSeenForward) => if isReverse then Closing else FinSeenForward
    case Some(Closing) => Closing
    case Some(Reset) => Reset
    case _ => if isReverse then FinSeenReverse else FinSeenForward
  }

  /** State and lifetime after a packet in either direction. */
  function AfterPacket(e: Entry, flags: Option<Byte>, isReverse: bool): (r: (Option<TcpState>, nat)) {
    if e.original.protocol != Tcp then (e.tcpState, IdleTimeout(e.original.protocol))
    else if Rst(flags) then (Some(Reset), TCP_RST)
    else if Fin(flags) then
      var next := AfterFin(e.tcpState, isReverse);
      (Some(next), if next == Closing || next == Reset then TCP_CLOSING else TCP_IDLE)
    else
      (e.tcpState, match e.tcpState case Some(Closing) => TCP_CLOSING case Some(Reset) => TCP_RST case _ => TCP_IDLE)
  }

  // ---- What the TCP state means ----

  /** A TCP packet of a session: its flags and direction. */
  datatype Segment = Segment(flags: Option<Byte>, isReverse: bool)

  /** The TCP state after a list of packets. */
  ghost function TcpStateAfter(e: Entry, segments: seq<Segment>): Option<TcpState> {
    if |segments| == 0 then e.tcpState
    else
      var last := segments[|segments| - 1];
      AfterPacket(e.(tcpState := TcpStateAfter(e, segments[..|segments| - 1])), last.flags, last.isReverse).0
  }

  ghost predicate SawRst(segments: seq<Segment>) {
    exists i :: 0 <= i < |segments| && Rst(segments[i].flags)
  }

  ghost predicate SawFin(segments: seq<Segment>, isReverse: bool) {
    exists i :: 0 <= i < |segments| && Fin(segments[i].flags) && segments[i].isReverse == isReverse
  }

  lemma {:induction false} SawLast(segments: seq<Segment>)
    requires |segments| > 0
    ensures var front := segments[..|segments| - 1]; var last := segments[|segments| - 1];
      && (SawRst(segments) <==> SawRst(front) || Rst(last.flags))
      && (forall d :: SawFin(segments, d) <==> SawFin(front, d) || (Fin(last.flags) && last.isReverse == d))
  {
    var front := segments[..|segments| - 1];
    var last := segments[|segments| - 1];
    assert segments == front + [last];
    if SawRst(front) {
      var i :| 0 <= i < |front| && Rst(front[i].flags);
      assert segments[i] == front[i];
    }
    forall d | SawFin(front, d) ensures SawFin(segments, d) {
      var i :| 0 <= i < |front| && Fin(front[i].flags) && front[i].isReverse == d;
      assert segments[i] == front[i];
    }
  }

  /** The TCP state of a session is exactly what it has seen since it opened: reset after any RST,
      closing after a FIN in both directions, half closed after a FIN in one, in whatever order. */
  lemma {:induction false} TcpHistory(e: Entry, segments: seq<Segment>)
    requires e.original.protocol == Tcp && e.tcpState == Some(Established)
    ensures TcpStateAfter(e, segments) == Some(
      if SawRst(segments) then Reset
      else if SawFin(segments, false) && SawFin(segments, true) then Closing
      else if SawFin(segments, false) then FinSeenForward
      else if SawFin(segments, true) then FinSeenReverse
      else Established)
  {
    hide SawRst, SawFin, Rst, Fin;
    if |segments| == 0 {
      NothingSeen();
    } else {
      TcpHistory(e, segments[..|segments| - 1]);
      SawLast(segments);
    }
  }

  lemma NothingSeen()
    ensures !SawRst([]) && !SawFin([], false) && !SawFin([], true)
  {
  }

  // ---- Operations on values ----

  function Fresh(owner: nat, table: Nat.NatState): TableState {
    TableState(owner, 1, map[], map[], map[], table)
  }

  function TouchTcp(s: TableState, caller: nat, id: SessionId, flags: Option<Byte>, isReverse: bool, now: Instant)
    : (r: (TableState, Result<(), SessionError>))
  {
    if caller != s.owner then (s, Err(WrongOwner(s.owner, caller)))
    else if id !in s.sessions then (s, Err(UnknownSession(id)))
    else
      var e := s.sessions[id];
      var (state, timeout) := AfterPacket(e, flags, isReverse);
      (s.(sessions := s.sessions[id := e.(tcpState := state, expiresAt := now + timeout)],
          deadlines := Insert(Delete(s.deadlines, e.expiresAt, id), now + timeout, id)), Ok(()))
  }

  /** The table with a new session under the next identifier. */
  function Open(s: TableState, table: Nat.NatState, binding: Nat.NatBinding, original: FlowKey, io: IoOwner,
          quicFlowId: U64, flags: Option<Byte>, now: Instant)
    : (r: TableState)
  {
    var id := s.nextId;
    var (state, timeout) := Opening(original.protocol, flags);
    var e := Entry(id, original, binding, s.owner, io, quicFlowId, now + timeout, state);
    TableState(s.owner, Next64(s.nextId), s.byKey[e.Key() := id], s.sessions[id := e],
               Insert(s.deadlines, now + timeout, id), table)
  }

  /** `get_or_create_with_flags_at`; `clock` is the allocator's own clock reading. */
  ghost function GetOrCreate(s: TableState, caller: nat, original: FlowKey, io: IoOwner, quicFlowId: U64,
          flags: Option<Byte>, isReverse: bool, now: Instant, clock: Instant)
    : (r: (TableState, Result<SessionId, SessionError>))
  {
    var key := SessionKey(original, io.ifindex);
    if caller != s.owner then (s, Err(WrongOwner(s.owner, caller)))
    else if key in s.byKey then
      var (n, touched) := TouchTcp(s, caller, s.byKey[key], flags, isReverse, now);
      (n, if touched.Ok? then Ok(s.byKey[key]) else Err(touched.error))
    else
      var (table, bound) := Nat.Allocate(s.natTable, s.nextId, original, Nat.SessionLocator(s.owner, s.nextId), clock);
      if bound.Err? then (s.(natTable := table), Err(NatFailure(bound.error)))
      else (Open(s, table, bound.value, original, io, quicFlowId, flags, now), Ok(s.nextId))
  }

  function Remove(s: TableState, caller: nat, id: SessionId, clock: Instant)
    : (r: (TableState, Result<Entry, SessionError>)) {
    if caller != s.owner then (s, Err(WrongOwner(s.owner, caller)))
    else if id !in s.sessions then (s, Err(UnknownSession(id)))
    else
      var e := s.sessions[id];
      var (table, released) := Nat.Release(s.natTable, id, clock);
      if released.Err? then (s, Err(NatFailure(released.error)))
      else
        (s.(natTable := table, sessions := s.sessions - {id}, deadlines := Delete(s.deadlines, e.expiresAt, id),
            byKey := s.byKey - {e.Key()}), Ok(e))
  }

  /** The removals of `expire_idle`, in the order the hash sets produce them. */
  function RemoveAll(s: TableState, caller: nat, removals: seq<Ending<SessionId>>)
    : (r: (TableState, Result<seq<Entry>, SessionError>)) {
    if |removals| == 0 then (s, Ok([]))
    else
      var (n, gone) := RemoveAll(s, caller, removals[..|removals| - 1]);
      if gone.Err? then (n, gone)
      else
        var last := removals[|removals| - 1];
        var (n', e) := Remove(n, caller, last.key, last.clock);
        (n', if e.Ok? then Ok(gone.value + [e.value]) else Err(e.error))
  }

  ghost function DueSessions(s: TableState, now: Instant): set<SessionId> {
    set id | id in s.sessions && s.sessions[id].expiresAt <= now
  }

  /** `expire_idle`: pop the due buckets, then remove every session they named. */
  function ExpireIdle(s: TableState, caller: nat, now: Instant, removals: seq<Ending<SessionId>>)
    : (r: (TableState, Result<seq<Entry>, SessionError>)) {
    if caller != s.owner then (s, Err(WrongOwner(s.owner, caller)))
    else RemoveAll(s.(deadlines := Later(s.deadlines, now)), caller, removals)
  }

  function CorrectInterceptIo(s: TableState, caller: nat, id: SessionId, observed: IoOwner)
    : (r: (TableState, Result<IoUpdate, SessionError>)) {
    if caller != s.owner then (s, Err(WrongOwner(s.owner, caller)))
    else if id !in s.sessions then (s, Err(UnknownSession(id)))
    else
      var io := s.sessions[id].interceptIo;
      if io == observed then (s, Ok(Unchanged))
      else if io.ifindex == observed.ifindex && io.queueId == 0 then
        (s.(sessions := s.sessions[id := s.sessions[id].(interceptIo := observed)]), Ok(Corrected))
      else (s, Ok(Mismatch))
  }

  /** The sessions on a QUIC flow. */
  ghost function OnFlow(s: TableState, flow: U64): (r: set<SessionId>) {
    set id | id in s.sessions && s.sessions[id].quicFlowId == flow
  }

  /** `rebind_quic_flow`: the table afterwards and how many sessions moved. */
  ghost function RebindQuicFlow(s: TableState, caller: nat, before: U64, after: U64)
    : (r: (TableState, Result<nat, SessionError>)) {
    if caller != s.owner then (s, Err(WrongOwner(s.owner, caller)))
    else
      (s.(sessions := map id | id in s.sessions ::
            if s.sessions[id].quicFlowId == before then s.sessions[id].(quicFlowId := after) else s.sessions[id]),
                Ok(|OnFlow(s, before)|))
  }

  ghost function AllocateEphemeral(s: TableState, caller: nat, token: SessionId, original: FlowKey, clock: Instant)
    : (r: (TableState, Result<Nat.NatBinding, SessionError>))
  {
    if caller != s.owner then (s, Err(WrongOwner(s.owner, caller)))
    else
      var (table, bound) := Nat.Allocate(s.natTable, token, original, Nat.SessionLocator(s.owner, token), clock);
      (s.(natTable := table), if bound.Ok? then Ok(bound.value) else Err(NatFailure(bound.error)))
  }

  function ReleaseEphemeral(s: TableState, caller: nat, token: SessionId, clock: Instant)
    : (r: (TableState, Result<Nat.NatBinding, SessionError>))
  {
    if caller != s.owner then (s, Err(WrongOwner(s.owner, caller)))
    else
      var (table, released) := Nat.Release(s.natTable, token, clock);
      (s.(natTable := table), if released.Ok? then Ok(released.value) else Err(NatFailure(released.error)))
  }

  /** `lookup_reverse_locator`: only sessions of this worker are resolved. */
  function LookupReverse(s: TableState, reply: FlowKey): (r: Option<Nat.SessionLocator>) {
    var found := Nat.LookupReverse(s.natTable, reply);
    if found.Some? && found.value.flowWorkerId == s.owner && found.value.sessionId in s.sessions then found else None
  }

  // ---- The invariant ----

  /** `by_key` and the session map are inverse to each other. */
  ghost predicate KeyIndex(byKey: map<SessionKey, SessionId>, sessions: map<SessionId, Entry>) {
    && (forall k :: k in byKey ==> byKey[k] in sessions && sessions[byKey[k]].Key() == k)
    && (forall id :: id in sessions ==> sessions[id].Key() in byKey && byKey[sessions[id].Key()] == id)
  }

  ghost function Due(sessions: map<SessionId, Entry>, pending: set<SessionId>): map<SessionId, Instant> {
    map id | id in sessions && id !in pending :: sessions[id].expiresAt
  }

  ghost predicate Numbered(s: TableState) {
    && 0 < s.nextId <= TOKEN_BASE
    && forall id :: id in s.sessions ==>
        0 < id < s.nextId && s.sessions[id].id == id && s.sessions[id].flowWorkerId == s.owner
  }

  /** Every session owns one NAT binding of its flow; every other binding belongs to a token; the
      reverse map leads back to the binding's own identifier. */
  ghost predicate NatLinked(s: TableState) {
    && (forall id :: id in s.sessions ==>
          id in s.natTable.forward && s.natTable.forward[id] == s.sessions[id].binding
              && s.sessions[id].binding.original == s.sessions[id].original)
    && (forall id :: id in s.natTable.forward ==> id in s.sessions || id >= TOKEN_BASE)
    && Located(s.natTable, s.owner)
  }

  ghost predicate Located(t: Nat.NatState, owner: nat) {
    forall id :: id in t.forward ==>
      var k := Nat.ReturnTuple(t.forward[id].translated);
      k in t.reverse && t.reverse[k] == Nat.SessionLocator(owner, id)
  }

  /** The invariant while the sessions of `pending` have been popped from the buckets but not yet
      removed; `pending` is empty between operations. */
  ghost predicate Inv(s: TableState, range: set<U16>, pending: set<SessionId>) {
    && KeyIndex(s.byKey, s.sessions)
    && Index(s.deadlines, Due(s.sessions, pending))
    && Numbered(s)
    && Nat.Inv(s.natTable, range)
    && NatLinked(s)
  }

  lemma FreshInv(owner: nat, table: Nat.NatState, range: set<U16>)
    requires Nat.Inv(table, range) && table.forward == map[]
    ensures Inv(Fresh(owner, table), range, {})
  {
  }

  // ---- The NAT side ----

  lemma {:induction false} BindLocates(t: Nat.NatState, range: set<U16>, id: SessionId, original: FlowKey, owner: nat,
          clock: Instant)
    requires Nat.Inv(t, range) && Located(t, owner)
    ensures Located(Nat.Allocate(t, id, original, Nat.SessionLocator(owner, id), clock).0, owner)
  {
    var (n, r) := Nat.Allocate(t, id, original, Nat.SessionLocator(owner, id), clock);
    Nat.AllocateCorrect(t, range, id, original, Nat.SessionLocator(owner, id), clock);
    if r.Ok? {
      forall a | a in t.forward
        ensures Nat.ReturnTuple(t.forward[a].translated) != Nat.ReturnTuple(r.value.translated)
      {
        assert t.forward[a].translated.sourcePort in t.LivePorts();
        assert Nat.TuplePort(Nat.ReturnTuple(t.forward[a].translated)) == t.forward[a].translated.sourcePort;
      }
    }
  }

  lemma {:induction false} ReleaseLocates(t: Nat.NatState, range: set<U16>, id: SessionId, owner: nat, clock: Instant)
    requires Nat.Inv(t, range) && Located(t, owner)
    ensures Located(Nat.Release(t, id, clock).0, owner)
  {
    if id in t.forward {
      forall a | a in t.forward && a != id
        ensures Nat.ReturnTuple(t.forward[a].translated) != Nat.ReturnTuple(t.forward[id].translated)
      {
        assert Nat.TuplePort(Nat.ReturnTuple(t.forward[a].translated)) == t.forward[a].translated.sourcePort;
        assert Nat.TuplePort(Nat.ReturnTuple(t.forward[id].translated)) == t.forward[id].translated.sourcePort;
      }
    }
  }

  // ---- Index maintenance, one table at a time ----

  lemma {:induction false} KeyIndexUpdate(byKey: map<SessionKey, SessionId>, sessions: map<SessionId, Entry>,
          id: SessionId, e: Entry)
    requires KeyIndex(byKey, sessions) && id in sessions && e.Key() == sessions[id].Key()
    ensures KeyIndex(byKey, sessions[id := e])
  {
  }

  lemma {:induction false} KeyIndexInsert(byKey: map<SessionKey, SessionId>, sessions: map<SessionId, Entry>,
          id: SessionId, e: Entry)
    requires KeyIndex(byKey, sessions) && id !in sessions && e.Key() !in byKey
    ensures KeyIndex(byKey[e.Key() := id], sessions[id := e])
  {
  }

  lemma {:induction false} KeyIndexRemove(byKey: map<SessionKey, SessionId>, sessions: map<SessionId, Entry>,
          id: SessionId)
    requires KeyIndex(byKey, sessions) && id in sessions
    ensures KeyIndex(byKey - {sessions[id].Key()}, sessions - {id})
  {
    var n := sessions - {id};
    forall j | j in n ensures n[j].Key() in byKey - {sessions[id].Key()} {
      assert byKey[sessions[j].Key()] == j && byKey[sessions[id].Key()] == id;
    }
  }

  lemma {:induction false} KeyIndexSameKeys(byKey: map<SessionKey, SessionId>, sessions: map<SessionId, Entry>,
          n: map<SessionId, Entry>)
    requires KeyIndex(byKey, sessions) && n.Keys == sessions.Keys
    requires forall id :: id in sessions ==> n[id].Key() == sessions[id].Key()
    ensures KeyIndex(byKey, n)
  {
  }

  lemma SameDue(sessions: map<SessionId, Entry>, n: map<SessionId, Entry>)
    requires n.Keys == sessions.Keys && forall id :: id in sessions ==> n[id].expiresAt == sessions[id].expiresAt
    ensures Due(n, {}) == Due(sessions, {})
  {
  }

  lemma DueUpdate(sessions: map<SessionId, Entry>, id: SessionId, e: Entry)
    ensures Due(sessions[id := e], {}) == Due(sessions, {})[id := e.expiresAt]
  {
  }

  // ---- Every operation keeps the invariant ----

  /** Touching a session moves it to its new bucket and changes nothing but its TCP state and
      deadline; it fails exactly for a foreign caller or an unknown session. */
  lemma {:induction false} TouchKeepsInv(s: TableState, range: set<U16>, caller: nat, id: SessionId,
          flags: Option<Byte>, isReverse: bool, now: Instant)
    requires Inv(s, range, {})
    ensures var (n, r) := TouchTcp(s, caller, id, flags, isReverse, now);
      && Inv(n, range, {})
      && (r.Ok? <==> caller == s.owner && id in s.sessions)
      && n.natTable == s.natTable && n.sessions.Keys == s.sessions.Keys && n.byKey == s.byKey && n.nextId == s.nextId
      && n.owner == s.owner
      && (forall k :: k in s.sessions ==>
            n.sessions[k] == s.sessions[k].(tcpState := n.sessions[k].tcpState, expiresAt := n.sessions[k].expiresAt))
      && (forall k :: k in s.sessions && k != id ==> n.sessions[k] == s.sessions[k])
  {
    hide Index, KeyIndex, Nat.Inv, Located, AfterPacket, Insert, Delete, Due;
    var (n, r) := TouchTcp(s, caller, id, flags, isReverse, now);
    if r.Ok? {
      var due := Due(s.sessions, {});
      var e, e' := s.sessions[id], n.sessions[id];
      DueOf(s.sessions, id);
      DeleteIndexes(s.deadlines, due, e.expiresAt, id);
      InsertIndexes(Delete(s.deadlines, e.expiresAt, id), due - {id}, e'.expiresAt, id);
      DueUpdate(s.sessions, id, e');
      assert (due - {id})[id := e'.expiresAt] == due[id := e'.expiresAt];
      KeyIndexUpdate(s.byKey, s.sessions, id, e');
    }
  }

  lemma DueOf(sessions: map<SessionId, Entry>, id: SessionId)
    ensures id in Due(sessions, {}) <==> id in sessions
    ensures id in sessions ==> Due(sessions, {})[id] == sessions[id].expiresAt
  {
  }

  lemma {:induction false} OpenKeepsInv(s: TableState, range: set<U16>, table: Nat.NatState, binding: Nat.NatBinding,
          original: FlowKey, io: IoOwner, quicFlowId: U64, flags: Option<Byte>, now: Instant)
    requires Inv(s, range, {}) && SessionKey(original, io.ifindex) !in s.byKey && s.nextId < TOKEN_BASE
    requires Nat.Inv(table, range) && Located(table, s.owner)
    requires table.forward == s.natTable.forward[s.nextId := binding] && binding.original == original
    ensures Inv(Open(s, table, binding, original, io, quicFlowId, flags, now), range, {})
  {
    hide Index, KeyIndex, Nat.Inv, Located, Opening, Insert, Due;
    var id := s.nextId;
    var n := Open(s, table, binding, original, io, quicFlowId, flags, now);
    DueOf(s.sessions, id);
    InsertIndexes(s.deadlines, Due(s.sessions, {}), n.sessions[id].expiresAt, id);
    DueUpdate(s.sessions, id, n.sessions[id]);
    KeyIndexInsert(s.byKey, s.sessions, id, n.sessions[id]);
  }

  lemma {:induction false} OpenOpens(s: TableState, table: Nat.NatState, binding: Nat.NatBinding, original: FlowKey,
          io: IoOwner, quicFlowId: U64, flags: Option<Byte>, now: Instant)
    requires Numbered(s) && s.nextId < TOKEN_BASE && table.forward == s.natTable.forward[s.nextId := binding]
    ensures OpensOrTouches(s, Open(s, table, binding, original, io, quicFlowId, flags, now), s.nextId, original, io)
    ensures Open(s, table, binding, original, io, quicFlowId, flags, now).owner == s.owner
  {
    hide Opening, Insert;
  }

  lemma {:induction false} TouchTouches(s: TableState, range: set<U16>, key: SessionKey, io: IoOwner,
          flags: Option<Byte>, isReverse: bool, now: Instant)
    requires Inv(s, range, {}) && key in s.byKey && key.ifindex == io.ifindex
    ensures TouchTcp(s, s.owner, s.byKey[key], flags, isReverse, now).1.Ok?
    ensures OpensOrTouches(s, TouchTcp(s, s.owner, s.byKey[key], flags, isReverse, now).0, s.byKey[key], key.original,
        io)
  {
    hide TouchTcp, Nat.Inv, Index, NatLinked, Due, Numbered;
    TouchKeepsInv(s, range, s.owner, s.byKey[key], flags, isReverse, now);
  }

  /** What a lookup-or-create does to the sessions. */
  ghost predicate OpensOrTouches(s: TableState, n: TableState, id: SessionId, original: FlowKey, io: IoOwner) {
    && id in n.sessions && n.sessions[id].Key() == SessionKey(original, io.ifindex)
    && n.sessions.Keys == s.sessions.Keys + {id}
    && (forall k :: k in s.sessions && k != id ==> n.sessions[k] == s.sessions[k])
    && (if id in s.sessions then
          n.sessions[id] == s.sessions[id].(tcpState := n.sessions[id].tcpState, expiresAt := n.sessions[id].expiresAt)
          && n.natTable == s.natTable && n.nextId == s.nextId
        else
          id == s.nextId && n.nextId == s.nextId + 1 && n.sessions[id].interceptIo == io
          && n.natTable.forward == s.natTable.forward[id := n.sessions[id].binding])
  }

  /** Looking a session up or creating it: a known key is touched, a new key gets the next
      identifier and a binding of its flow, and a failure leaves sessions and bindings alone. */
  lemma {:induction false} GetOrCreateKeepsInv(s: TableState, range: set<U16>, caller: nat, original: FlowKey,
          io: IoOwner, quicFlowId: U64, flags: Option<Byte>, isReverse: bool, now: Instant, clock: Instant)
    requires Inv(s, range, {}) && s.nextId < TOKEN_BASE
    ensures var (n, r) := GetOrCreate(s, caller, original, io, quicFlowId, flags, isReverse, now, clock);
      && Inv(n, range, {}) && n.owner == s.owner
      && (r.Ok? ==> OpensOrTouches(s, n, r.value, original, io))
      && (r.Err? ==> n.sessions == s.sessions && n.natTable.forward == s.natTable.forward && n.nextId == s.nextId)
  {
    hide Index, Nat.Inv, Located, Opening, AfterPacket, Insert, Delete, Due, Nat.Allocate, TouchTcp, Open,
      OpensOrTouches, KeyIndex;
    var key := SessionKey(original, io.ifindex);
    if caller == s.owner {
      if key in s.byKey {
        TouchKeepsInv(s, range, caller, s.byKey[key], flags, isReverse, now);
        TouchTouches(s, range, key, io, flags, isReverse, now);
      } else {
        var locator := Nat.SessionLocator(s.owner, s.nextId);
        var (table, bound) := Nat.Allocate(s.natTable, s.nextId, original, locator, clock);
        Nat.AllocateCorrect(s.natTable, range, s.nextId, original, locator, clock);
        BindLocates(s.natTable, range, s.nextId, original, s.owner, clock);
        if bound.Ok? {
          OpenKeepsInv(s, range, table, bound.value, original, io, quicFlowId, flags, now);
          OpenOpens(s, table, bound.value, original, io, quicFlowId, flags, now);
        }
      }
    }
  }

  /** Removing a live session never fails for the owner, and releases exactly its binding. */
  lemma {:induction false} RemoveKeepsInv(s: TableState, range: set<U16>, pending: set<SessionId>, caller: nat,
          id: SessionId, clock: Instant)
    requires Inv(s, range, pending)
    ensures var (n, r) := Remove(s, caller, id, clock);
      && (r.Ok? <==> caller == s.owner && id in s.sessions)
      && (r.Ok? ==>
            && Inv(n, range, pending - {id})
            && r.value == s.sessions[id] && n.sessions == s.sessions - {id}
            && n.natTable.forward == s.natTable.forward - {id} && n.owner == s.owner && n.nextId == s.nextId)
      && (r.Err? ==> n == s)
  {
    hide Index, KeyIndex, Nat.Inv, Nat.Release, Nat.Quarantined, Located, Delete, Due, NatLinked, Numbered;
    if caller == s.owner && id in s.sessions {
      LinkedBinding(s, id);
      Nat.ReleaseKeepsInv(s.natTable, range, id, clock);
      ReleaseLocates(s.natTable, range, id, s.owner, clock);
      KeyIndexRemove(s.byKey, s.sessions, id);
      DueRemove(s, pending, id);
      RemoveLinked(s, Remove(s, caller, id, clock).0, id);
    }
  }

  lemma LinkedBinding(s: TableState, id: SessionId)
    requires NatLinked(s) && id in s.sessions
    ensures id in s.natTable.forward && Located(s.natTable, s.owner)
  {
  }

  lemma RemoveLinked(s: TableState, n: TableState, id: SessionId)
    requires NatLinked(s) && Numbered(s) && Located(n.natTable, s.owner)
    requires n.sessions == s.sessions - {id} && n.natTable.forward == s.natTable.forward - {id} && n.owner == s.owner
        && n.nextId == s.nextId
    ensures NatLinked(n) && Numbered(n)
  {
    hide Located;
  }

  lemma {:induction false} DueRemove(s: TableState, pending: set<SessionId>, id: SessionId)
    requires Index(s.deadlines, Due(s.sessions, pending)) && id in s.sessions
    ensures Index(Delete(s.deadlines, s.sessions[id].expiresAt, id), Due(s.sessions - {id}, pending - {id}))
  {
    hide Index, Delete;
    var due := Due(s.sessions, pending);
    if id in pending {
      DeleteAbsent(s.deadlines, due, s.sessions[id].expiresAt, id);
      assert due - {id} == due;
    } else {
      DeleteIndexes(s.deadlines, due, s.sessions[id].expiresAt, id);
    }
    assert Due(s.sessions - {id}, pending - {id}) == due - {id};
  }

  lemma {:induction false} RemoveAllKeepsInv(s: TableState, range: set<U16>, pending: set<SessionId>,
          removals: seq<Ending<SessionId>>)
    requires Inv(s, range, pending)
    requires forall i, j :: 0 <= i < j < |removals| ==> removals[i].key != removals[j].key
    requires forall i :: 0 <= i < |removals| ==> removals[i].key in s.sessions
    ensures var (n, r) := RemoveAll(s, s.owner, removals);
      && r.Ok? && |r.value| == |removals| && (forall i :: 0 <= i < |removals| ==>
          r.value[i] == s.sessions[removals[i].key])
      && n.sessions == s.sessions - EndedKeys(removals)
          && n.natTable.forward == s.natTable.forward - EndedKeys(removals)
      && n.owner == s.owner && n.nextId == s.nextId
      && Inv(n, range, pending - EndedKeys(removals))
  {
    hide Inv, Remove;
    if |removals| > 0 {
      var front := removals[..|removals| - 1];
      var last := removals[|removals| - 1];
      RemoveAllKeepsInv(s, range, pending, front);
      var m := RemoveAll(s, s.owner, front).0;
      EndedLast(removals);
      assert last.key !in EndedKeys(front);
      RemoveKeepsInv(m, range, pending - EndedKeys(front), s.owner, last.key, last.clock);
      assert pending - EndedKeys(front) - {last.key} == pending - EndedKeys(removals);
    } else {
      assert EndedKeys(removals) == {};
      assert pending - EndedKeys(removals) == pending;
      assert s.sessions - EndedKeys(removals) == s.sessions
          && s.natTable.forward - EndedKeys(removals) == s.natTable.forward;
    }
  }

  /** Expiry removes and returns exactly the sessions whose deadline has passed, in whatever order
      the buckets name them, and never fails for the owner. */
  lemma {:induction false} ExpireIdleCorrect(s: TableState, range: set<U16>, now: Instant,
          removals: seq<Ending<SessionId>>)
    requires Inv(s, range, {}) && Enumerates(removals, DueSessions(s, now))
    ensures var (n, r) := ExpireIdle(s, s.owner, now, removals);
      && Inv(n, range, {}) && r.Ok?
      && n.sessions == s.sessions - DueSessions(s, now)
      && n.natTable.forward == s.natTable.forward - DueSessions(s, now)
      && n.owner == s.owner && n.nextId == s.nextId
      && |r.value| == |removals|
      && (forall i :: 0 <= i < |removals| ==>
          removals[i].key in s.sessions && r.value[i] == s.sessions[removals[i].key])
  {
    var due := DueSessions(s, now);
    var popped := s.(deadlines := Later(s.deadlines, now));
    EnumeratedEnded(removals, due);
    PoppedInv(s, range, now);
    RemoveAllKeepsInv(popped, range, due, removals);
    assert due - due == {};
  }

  lemma {:induction false} PoppedInv(s: TableState, range: set<U16>, now: Instant)
    requires Inv(s, range, {})
    ensures Inv(s.(deadlines := Later(s.deadlines, now)), range, DueSessions(s, now))
  {
    hide Index, KeyIndex, Nat.Inv, Located, Later;
    LaterIndexes(s.deadlines, Due(s.sessions, {}), now);
    var all := Due(s.sessions, {});
    assert Due(s.sessions, DueSessions(s, now)) == map id | id in all && all[id] > now :: all[id];
  }

  /** Queue correction changes only the queue, so every key still leads to its session. */
  lemma {:induction false} CorrectKeepsInv(s: TableState, range: set<U16>, caller: nat, id: SessionId,
          observed: IoOwner)
    requires Inv(s, range, {})
    ensures var (n, r) := CorrectInterceptIo(s, caller, id, observed);
      && Inv(n, range, {}) && n == s.(sessions := n.sessions) && n.sessions.Keys == s.sessions.Keys
      && (forall k :: k in s.sessions ==>
            n.sessions[k] == s.sessions[k].(interceptIo := n.sessions[k].interceptIo)
                && n.sessions[k].Key() == s.sessions[k].Key())
      && (r.Ok? <==> caller == s.owner && id in s.sessions)
      && (r == Ok(Unchanged) || r == Ok(Corrected) ==> n.sessions[id].interceptIo == observed)
  {
    hide Index, KeyIndex, Nat.Inv, Located, Due, NatLinked, Numbered;
    var (n, r) := CorrectInterceptIo(s, caller, id, observed);
    if r == Ok(Corrected) {
      SameDue(s.sessions, n.sessions);
      KeyIndexUpdate(s.byKey, s.sessions, id, n.sessions[id]);
      CorrectLinked(s, n);
    } else {
      assert n == s;
    }
  }

  lemma CorrectLinked(s: TableState, n: TableState)
    requires NatLinked(s) && Numbered(s) && n == s.(sessions := n.sessions) && n.sessions.Keys == s.sessions.Keys
    requires forall k :: k in s.sessions ==> n.sessions[k] == s.sessions[k].(interceptIo := n.sessions[k].interceptIo)
    ensures NatLinked(n) && Numbered(n)
  {
    hide Located;
  }

  /** Who is on a flow once those on `before` have moved to `after`. */
  ghost function FlowAfter(s: TableState, before: U64, after: U64, flow: U64): (r: set<SessionId>) {
    if flow == after then OnFlow(s, before) + OnFlow(s, after) else if flow == before then {} else OnFlow(s, flow)
  }

  lemma RebindMoves(s: TableState, before: U64, after: U64, flow: U64)
    ensures OnFlow(RebindQuicFlow(s, s.owner, before, after).0, flow) == FlowAfter(s, before, after, flow)
  {
  }

  /** Rebinding moves exactly the sessions of the old QUIC flow to the new one, counts them, and leaves
      every index alone. */
  lemma {:induction false} RebindKeepsInv(s: TableState, range: set<U16>, caller: nat, before: U64, after: U64)
    requires Inv(s, range, {})
    ensures var (n, r) := RebindQuicFlow(s, caller, before, after);
      && Inv(n, range, {}) && n == s.(sessions := n.sessions) && n.sessions.Keys == s.sessions.Keys
      && (forall k :: k in s.sessions ==> n.sessions[k] == s.sessions[k].(quicFlowId := n.sessions[k].quicFlowId))
      && (r.Ok? <==> caller == s.owner) && (r.Err? ==> n == s)
      && (r.Ok? ==> r.value == |OnFlow(s, before)| && forall flow ::
          OnFlow(n, flow) == FlowAfter(s, before, after, flow))
  {
    hide Index, KeyIndex, Nat.Inv, Located, Due, OnFlow, FlowAfter;
    if caller == s.owner {
      forall flow ensures OnFlow(RebindQuicFlow(s, caller, before, after).0, flow) == FlowAfter(s, before, after,
          flow) {
        RebindMoves(s, before, after, flow);
      }
    }
    var (n, r) := RebindQuicFlow(s, caller, before, after);
    SameDue(s.sessions, n.sessions);
    KeyIndexSameKeys(s.byKey, s.sessions, n.sessions);
  }

  lemma {:induction false} AllocateEphemeralKeepsInv(s: TableState, range: set<U16>, token: SessionId,
          original: FlowKey, clock: Instant)
    requires Inv(s, range, {}) && token >= TOKEN_BASE
    ensures var (n, r) := AllocateEphemeral(s, s.owner, token, original, clock);
      && Inv(n, range, {}) && n == s.(natTable := n.natTable)
      && (r.Ok? ==>
            && token !in s.natTable.forward && n.natTable.forward == s.natTable.forward[token := r.value]
            && r.value.original == original)
      && (r.Err? ==> n.natTable.forward == s.natTable.forward)
  {
    hide Index, KeyIndex, Nat.Inv, Located, Due, Nat.Allocate;
    Nat.AllocateCorrect(s.natTable, range, token, original, Nat.SessionLocator(s.owner, token), clock);
    BindLocates(s.natTable, range, token, original, s.owner, clock);
  }

  lemma {:induction false} ReleaseEphemeralKeepsInv(s: TableState, range: set<U16>, token: SessionId, clock: Instant)
    requires Inv(s, range, {}) && token >= TOKEN_BASE
    ensures var (n, r) := ReleaseEphemeral(s, s.owner, token, clock);
      && Inv(n, range, {}) && n == s.(natTable := n.natTable)
      && (r.Ok? <==> token in s.natTable.forward)
      && (r.Ok? ==> r.value == s.natTable.forward[token])
      && n.natTable.forward == s.natTable.forward - {token}
  {
    hide Index, KeyIndex, Nat.Inv, Located, Due;
    Nat.ReleaseKeepsInv(s.natTable, range, token, clock);
    ReleaseLocates(s.natTable, range, token, s.owner, clock);
    if token !in s.natTable.forward {
      assert s.natTable.forward - {token} == s.natTable.forward;
    }
  }

  lemma NextIdFree(s: TableState, range: set<U16>)
    requires Inv(s, range, {}) && s.nextId < TOKEN_BASE
    ensures s.nextId !in s.natTable.forward && s.nextId !in s.sessions
  {
  }

  /** A reply to a live session's translated flow is resolved to that session; a reply to a
      binding held by a token is resolved to no session. */
  lemma {:induction false} LookupFindsOwner(s: TableState, range: set<U16>, reply: FlowKey, id: SessionId)
    requires Inv(s, range, {}) && id in s.natTable.forward
    requires Nat.IsReplyTo(reply, s.natTable.forward[id].translated)
    ensures LookupReverse(s, reply) == if id in s.sessions then Some(Nat.SessionLocator(s.owner, id)) else None
  {
  }

  // ---- The mutable table ----

  /** The sessions on a flow that the rebinding loop has passed. */
  ghost function Moved(sessions: map<SessionId, Entry>, left: set<SessionId>, before: U64): (r: set<SessionId>) {
    set id | id in sessions && id !in left && sessions[id].quicFlowId == before
  }

  lemma MovedMore(sessions: map<SessionId, Entry>, left: set<SessionId>, before: U64, id: SessionId)
    requires id in left && id in sessions
    ensures |Moved(sessions, left - {id}, before)| == |Moved(sessions, left,
        before)| + (if sessions[id].quicFlowId == before then 1 else 0)
  {
    if sessions[id].quicFlowId == before {
      assert Moved(sessions, left - {id}, before) == Moved(sessions, left, before) + {id};
    } else {
      assert Moved(sessions, left - {id}, before) == Moved(sessions, left, before);
    }
  }

  class SessionTable {
    const owner: nat
    const table: Nat.NatTable
    var nextId: U64
    var byKey: map<SessionKey, SessionId>
    var sessions: map<SessionId, Entry>
    var deadlines: Buckets<SessionId>

    function State(): TableState
      reads this, table
    {
      TableState(owner, nextId, byKey, sessions, deadlines, table.State())
    }

    constructor (owner: nat, table: Nat.NatTable)
      ensures this.table == table && State() == Fresh(owner, table.State())
    {
      this.owner := owner;
      this.table := table;
      nextId := 1;
      byKey := map[];
      sessions := map[];
      deadlines := map[];
    }

    method TouchSession(caller: nat, id: SessionId, flags: Option<Byte>, isReverse: bool, now: Instant)
      returns (r: Result<(), SessionError>)
      modifies this
      ensures (State(), r) == TouchTcp(old(State()), caller, id, flags, isReverse, now)
    {
      if caller != owner { return Err(WrongOwner(owner, caller)); }
      if id !in sessions { return Err(UnknownSession(id)); }
      var e := sessions[id];
      var (state, timeout) := AfterPacket(e, flags, isReverse);
      var expiresAt := now + timeout;
      sessions := sessions[id := e.(tcpState := state, expiresAt := expiresAt)];
      deadlines := Delete(deadlines, e.expiresAt, id);
      deadlines := Insert(deadlines, expiresAt, id);
      r := Ok(());
    }

    method GetOrCreateWithFlagsAt(caller: nat, original: FlowKey, io: IoOwner, quicFlowId: U64, flags: Option<Byte>,
            isReverse: bool, now: Instant, clock: Instant)
      returns (r: Result<SessionId, SessionError>)
      modifies this, table
      ensures (State(), r) == GetOrCreate(old(State()), caller, original, io, quicFlowId, flags, isReverse, now, clock)
    {
      hide Nat.Allocate;
      if caller != owner { return Err(WrongOwner(owner, caller)); }
      var key := SessionKey(original, io.ifindex);
      if key in byKey {
        var id := byKey[key];
        var touched := TouchSession(caller, id, flags, isReverse, now);
        return if touched.Ok? then Ok(id) else Err(touched.error);
      }
      var id := nextId;
      var bound := table.AllocateAt(id, original, Nat.SessionLocator(owner, id), clock);
      if bound.Err? { return Err(NatFailure(bound.error)); }
      var (state, timeout) := Opening(original.protocol, flags);
      var e := Entry(id, original, bound.value, owner, io, quicFlowId, now + timeout, state);
      byKey := byKey[key := id];
      sessions := sessions[id := e];
      deadlines := Insert(deadlines, now + timeout, id);
      nextId := Next64(nextId);
      r := Ok(id);
    }

    method RemoveSession(caller: nat, id: SessionId, clock: Instant) returns (r: Result<Entry, SessionError>)
      modifies this, table
      ensures (State(), r) == Remove(old(State()), caller, id, clock)
    {
      if caller != owner { return Err(WrongOwner(owner, caller)); }
      if id !in sessions { return Err(UnknownSession(id)); }
      var e := sessions[id];
      var released := table.RemoveAt(id, clock);
      if released.Err? { return Err(NatFailure(released.error)); }
      sessions := sessions - {id};
      deadlines := Delete(deadlines, e.expiresAt, id);
      byKey := byKey - {e.Key()};
      r := Ok(e);
    }

    /** The removal loop of `expire_idle`; `clock` gives the reading made at each release. */
    method RemoveEach(caller: nat, ids: set<SessionId>, clock: SessionId -> Instant)
      returns (r: Result<seq<Entry>, SessionError>, ghost removals: seq<Ending<SessionId>>)
      modifies this, table
      ensures r.Ok? ==> Enumerates(removals, ids)
      ensures (State(), r) == RemoveAll(old(State()), caller, removals)
    {
      hide Remove;
      removals := [];
      var pending := ids;
      var entries: seq<Entry> := [];
      while pending != {}
        invariant pending <= ids && Enumerates(removals, ids - pending)
        invariant (State(), Ok(entries)) == RemoveAll(old(State()), caller, removals)
        decreases pending
      {
        var id :| id in pending;
        EnumeratesMore(removals, ids - pending, Ending(id, clock(id)));
        assert ids - pending + {id} == ids - (pending - {id});
        var e := RemoveSession(caller, id, clock(id));
        ghost var longer := removals + [Ending(id, clock(id))];
        assert longer[..|longer| - 1] == removals;
        removals := longer;
        pending := pending - {id};
        if e.Err? { return Err(e.error), removals; }
        entries := entries + [e.value];
      }
      assert ids - pending == ids;
      r := Ok(entries);
    }

    /** `expire_idle`: pop the due buckets, then remove every session they name. */
    method ExpireIdleSessions(caller: nat, now: Instant, clock: SessionId -> Instant)
      returns (r: Result<seq<Entry>, SessionError>, ghost removals: seq<Ending<SessionId>>)
      requires Index(deadlines, Due(sessions, {}))
      modifies this, table
      ensures r.Ok? ==> Enumerates(removals, DueSessions(old(State()), now))
      ensures (State(), r) == ExpireIdle(old(State()), caller, now, removals)
    {
      if caller != owner { return Err(WrongOwner(owner, caller)), []; }
      var expired, rest := DrainDue(deadlines, Due(sessions, {}), now);
      assert expired == DueSessions(State(), now);
      deadlines := rest;
      r, removals := RemoveEach(caller, expired, clock);
    }

    method CorrectIo(caller: nat, id: SessionId, observed: IoOwner) returns (r: Result<IoUpdate, SessionError>)
      modifies this
      ensures (State(), r) == CorrectInterceptIo(old(State()), caller, id, observed)
    {
      if caller != owner { return Err(WrongOwner(owner, caller)); }
      if id !in sessions { return Err(UnknownSession(id)); }
      var io := sessions[id].interceptIo;
      if io == observed { return Ok(Unchanged); }
      if io.ifindex == observed.ifindex && io.queueId == 0 {
        sessions := sessions[id := sessions[id].(interceptIo := observed)];
        return Ok(Corrected);
      }
      r := Ok(Mismatch);
    }

    /** `rebind_quic_flow`: the loop over all sessions. */
    method Rebind(caller: nat, before: U64, after: U64) returns (r: Result<nat, SessionError>)
      modifies this
      ensures (State(), r) == RebindQuicFlow(old(State()), caller, before, after)
    {
      if caller != owner { return Err(WrongOwner(owner, caller)); }
      ghost var start := sessions;
      var left := sessions.Keys;
      var count := 0;
      while left != {}
        invariant count == |Moved(start, left, before)|
        invariant left <= start.Keys && sessions.Keys == start.Keys
        invariant forall id :: id in left ==> sessions[id] == start[id]
        invariant forall id :: id in start && id !in left ==>
          sessions[id] == if start[id].quicFlowId == before then start[id].(quicFlowId := after) else start[id]
        invariant byKey == old(byKey) && deadlines == old(deadlines) && nextId == old(nextId)
        invariant table.State() == old(table.State())
        decreases left
      {
        var id :| id in left;
        MovedMore(start, left, before, id);
        if sessions[id].quicFlowId == before {
          sessions := sessions[id := sessions[id].(quicFlowId := after)];
          count := count + 1;
        }
        left := left - {id};
      }
      assert sessions == RebindQuicFlow(old(State()), caller, before, after).0.sessions;
      assert Moved(start, {}, before) == OnFlow(old(State()), before);
      r := Ok(count);
    }

    method AllocateEphemeralNat(caller: nat, token: SessionId, original: FlowKey, clock: Instant)
      returns (r: Result<Nat.NatBinding, SessionError>)
      modifies table
      ensures (State(), r) == AllocateEphemeral(old(State()), caller, token, original, clock)
    {
      hide Nat.Allocate;
      if caller != owner { return Err(WrongOwner(owner, caller)); }
      var bound := table.AllocateAt(token, original, Nat.SessionLocator(owner, token), clock);
      r := if bound.Ok? then Ok(bound.value) else Err(NatFailure(bound.error));
    }

    method ReleaseEphemeralNat(caller: nat, token: SessionId, clock: Instant)
      returns (r: Result<Nat.NatBinding, SessionError>)
      modifies table
      ensures (State(), r) == ReleaseEphemeral(old(State()), caller, token, clock)
    {
      if caller != owner { return Err(WrongOwner(owner, caller)); }
      var released := table.RemoveAt(token, clock);
      r := if released.Ok? then Ok(released.value) else Err(NatFailure(released.error));
    }
  }
}
