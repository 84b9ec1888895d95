/** Runs in which a condition of the main results does fail, so that none of them is idle: a second
    packet of a session from another queue, and a close that hits a live remote transaction. */
module Witnesses {
  import opened Core
  import opened Packet
  import opened Rewrite
  import opened Forward
  import opened Outer
  import opened DnsFlow
  import opened Deadlines
  import opened Session
  import opened Worker
  import opened Decisions
  import opened Runs
  import opened Cluster
  import DnsWire
  import Nat
  import Ports

  // ---- Forwardable packets ----

  lemma {:induction false} OuterForwardable(source: Ipv4Addr, destination: Ipv4Addr, sourcePort: U16,
          destinationPort: U16, payload: Bytes)
    requires |payload| <= 65507
    ensures var p := Ipv4Udp(source, destination, sourcePort, destinationPort, payload);
      && PrepareSpec(p).Ok? && UdpPayload(p) == Ok(payload)
      && ParseFlowKey(p) == Ok(FlowKey(V4(source), V4(destination), sourcePort, destinationPort, Udp))
  {
    hide Ipv4Udp, ParseFlowKey, ValidateChecksums, UdpPayload, PrepareSpec, IsFragmented;
    var p := Ipv4Udp(source, destination, sourcePort, destinationPort, payload);
    Ipv4UdpRoundTrip(source, destination, sourcePort, destinationPort, payload);
    OuterHead(source, destination, sourcePort, destinationPort, payload);
    ParsedIsWhole(p);
    PrepareCorrect(p);
  }

  lemma OuterHead(source: Ipv4Addr, destination: Ipv4Addr, sourcePort: U16, destinationPort: U16, payload: Bytes)
    ensures var p := Ipv4Udp(source, destination, sourcePort, destinationPort, payload); p[0] == 0x45 && p[8] == 64
  {
    hide PutChecksum, UdpHeader, Octets16, Len16;
  }

  lemma ParsedIsWhole(p: Bytes)
    requires ParseFlowKey(p).Ok? && |p| > 0 && Version(p) == 4
    ensures IsFragmented(p) == Ok(false)
  {
    hide BuildFlowKey, Ipv6TransportOffset;
  }

  /** The packet turned round: the same bytes with another UDP flow of its family. */
  lemma {:induction false} Redirected(p: Bytes, t: FlowKey)
    requires PrepareSpec(p).Ok? && ParseFlowKey(p).Ok? && |p| > 0 && Version(p) == 4
    requires Compatible(ParseFlowKey(p).value, t) && SupportedTarget(t)
    ensures RewritePacketSpec(p, t).Ok?
    ensures var q := RewritePacketSpec(p, t).value; PrepareSpec(q).Ok? && ParseFlowKey(q) == Ok(t)
  {
    hide ParseFlowKey, ValidateChecksums, PrepareSpec, RewritePacketSpec, SupportedTarget, IsFragmented;
    PrepareCorrect(p);
    RewriteCorrect(p, t);
    ParsedIsRewritable(p);
    var q := RewritePacketSpec(p, t).value;
    var m := TransportMetadata(p).value;
    assert !Touched(m, 0) && !Touched(m, 8);
    ParsedIsWhole(q);
    PrepareCorrect(q);
  }

  // ---- A second packet from another queue ----

  const FIRST := IoOwner(7, 1)
  const SECOND_QUEUE := IoOwner(7, 2)
  const LISTENER := SocketAddr(V4([10, 0, 0, 53]), 53)

  function Ping(): (r: Bytes) {
    Ipv4Udp([10, 0, 0, 1], [10, 0, 0, 2], 1000, 2000, [])
  }

  function Worker0(): (r: WorkerState) {
    FreshWorker(0, Nat.Fresh(Some([192, 0, 2, 1]), None, {40000}))
  }

  ghost function After(s: WorkerState, op: Op): (r: WorkerState)
    requires op.Inner?
  {
    Intercept(s, op.io, op.packet, op.quicWorker, op.quicFlowId, op.now, op.clock).0
  }

  lemma {:induction false} Worker0Starts()
    ensures WorkerInv(Worker0(), {40000}, LISTENER, {}) && Small(Worker0())
    ensures Worker0().id == 0 && Worker0().table.sessions == map[] && Worker0().table.nextId == 1
    ensures Worker0().nextToken == 1 && Worker0().history.next == 1
    ensures Worker0().table.natTable == Nat.Fresh(Some([192, 0, 2, 1]), None, {40000})
  {
    hide WorkerInv, Nat.Inv;
    Nat.FreshInv(Some([192, 0, 2, 1]), None, {40000});
    FreshWorkerInv(0, Nat.Fresh(Some([192, 0, 2, 1]), None, {40000}), {40000}, LISTENER);
  }

  /** The first packet opens a session for its own queue. */
  lemma {:induction false} FirstOpens(s: WorkerState, range: set<U16>, listen: SocketAddr, op: Op, port: U16)
    requires WorkerInv(s, range, listen, {}) && Small(s) && s.table.sessions == map[]
    requires op.Inner? && op.quicWorker == s.id && PrepareSpec(op.packet).Ok? && ParseFlowKey(op.packet).Ok?
    requires s.table.natTable.SnatFor(ParseFlowKey(op.packet).value).Some? && s.table.natTable.quarantined == map[]
    requires port in s.table.natTable.available
    ensures Accepted(s, op).Ok?
    ensures var n := After(s, op); var id := Accepted(s, op).value.0;
      && n.table.sessions.Keys == {id} && n.table.sessions[id].interceptIo == op.io
          && n.table.sessions[id].Key() == SessionKey(ParseFlowKey(op.packet).value, op.io.ifindex)
      && n.table.nextId == s.table.nextId + 1 && n == s.(table := n.table)
  {
    hide WorkerInv, Intercept, ParseFlowKey, PrepareSpec, Delivers;
    var flow := ParseFlowKey(op.packet).value;
    assert !Nat.Quarantined(s.table.natTable, Nat.Tuple(flow, s.table.natTable.SnatFor(flow).value, port), op.clock);
    assert PortLeft(s.table.natTable, flow, op.clock);
    AcceptedIff(s, range, listen, op.io, op.packet, op.quicWorker, op.quicFlowId, op.now, op.clock);
    InterceptCorrect(s, range, listen, op.io, op.packet, op.quicWorker, op.quicFlowId, op.now, op.clock);
  }

  /** A packet of the one session is accepted into it, whatever queue of the interface it comes from. */
  lemma {:induction false} SecondJoins(s: WorkerState, range: set<U16>, listen: SocketAddr, id: SessionId, op: Op)
    requires WorkerInv(s, range, listen, {}) && Small(s) && s.table.sessions.Keys == {id}
    requires op.Inner? && op.quicWorker == s.id && PrepareSpec(op.packet).Ok? && ParseFlowKey(op.packet).Ok?
    requires s.table.sessions[id].Key() == SessionKey(ParseFlowKey(op.packet).value, op.io.ifindex)
    ensures Accepted(s, op).Ok? && Accepted(s, op).value.0 == id && id in After(s, op).table.sessions
  {
    hide Intercept, ParseFlowKey, PrepareSpec, Delivers, Deadlines.Index, TxIndex, Tokens, AllReady, Remembers;
    AcceptedIff(s, range, listen, op.io, op.packet, op.quicWorker, op.quicFlowId, op.now, op.clock);
    InterceptCorrect(s, range, listen, op.io, op.packet, op.quicWorker, op.quicFlowId, op.now, op.clock);
    var n := After(s, op);
    var x := Accepted(s, op).value.0;
    SameKeySameId(n.table.byKey, n.table.sessions, x, id);
  }

  lemma SameKeySameId(byKey: map<SessionKey, SessionId>, sessions: map<SessionId, Entry>, a: SessionId, b: SessionId)
    requires KeyIndex(byKey, sessions) && a in sessions && b in sessions && sessions[a].Key() == sessions[b].Key()
    ensures a == b
  {
  }

  /** A run of two accepted packets of one session, from two queues of one interface, after which a
      reply observed on no queue goes to the first packet's queue and not to the second's, and a reply
      observed on the second packet's queue is dropped. */
  lemma {:induction false} ReplyMissesSender() returns (states: seq<WorkerState>, ops: seq<Op>, reply: Bytes)
    ensures IsRun(states, ops, LISTENER) && WorkerInv(states[0], {40000}, LISTENER, {}) && |ops| == 2
    ensures ops[1].Inner? && Accepted(states[1], ops[1]).Ok?
    ensures var id := Accepted(states[1], ops[1]).value.0;
      var r := ReverseFor(states[2], reply, Nat.SessionLocator(states[2].id, id), None, 0).1;
      && r.Ok? && r.value.Some? && r.value.value.target == FIRST && ops[1].io == SECOND_QUEUE
      && ReverseFor(states[2], reply, Nat.SessionLocator(states[2].id, id), Some(SECOND_QUEUE), 0).1 == Ok(None)
  {
    hide WorkerInv, Small, Step, Intercept, ReverseFor, Delivers, ParseFlowKey, PrepareSpec, RewritePacketSpec, Ipv4Udp,
      Nat.IsReplyTo, Settles;
    var p := Ping();
    OuterForwardable([10, 0, 0, 1], [10, 0, 0, 2], 1000, 2000, []);
    Worker0Starts();
    var one := Inner(FIRST, p, 0, 0, 0, 0);
    var two := Inner(SECOND_QUEUE, p, 0, 0, 0, 0);
    var s0 := Worker0();
    FirstOpens(s0, {40000}, LISTENER, one, 40000);
    var s1 := After(s0, one);
    var id := Accepted(s0, one).value.0;
    InnerIsStep(s0, one, LISTENER);
    StepKeeps(s0, {40000}, LISTENER, one, s1);
    SmallEnough(s1);
    SecondJoins(s1, {40000}, LISTENER, id, two);
    var s2 := After(s1, two);
    InnerIsStep(s1, two, LISTENER);
    states, ops := [s0, s1, s2], [one, two];
    reply := ReplyTo(s1, two, id, p);
    EndToEnd(states, ops, {40000}, LISTENER, 1, 2, reply, None, 0);
    EndToEnd(states, ops, {40000}, LISTENER, 1, 2, reply, Some(SECOND_QUEUE), 0);
  }

  lemma InnerIsStep(s: WorkerState, op: Op, listen: SocketAddr)
    requires op.Inner?
    ensures Step(s, op, After(s, op), listen)
  {
  }

  lemma SmallEnough(s: WorkerState)
    requires s.table.nextId == 2 && s.nextToken == 1 && s.history.next == 1
    ensures Small(s)
  {
  }

  /** A forwardable reply to the translated packet exists: the packet itself, turned round. */
  lemma {:induction false} ReplyTo(s: WorkerState, op: Op, id: SessionId, p: Bytes) returns (reply: Bytes)
    requires WorkerInv(s, {40000}, LISTENER, {}) && Small(s) && op.Inner? && op.packet == p && Accepted(s, op).Ok?
    requires PrepareSpec(p).Ok? && ParseFlowKey(p).Ok? && ParseFlowKey(p).value.protocol == Udp && |p| > 0
        && Version(p) == 4
    ensures PrepareSpec(reply).Ok? && ParseFlowKey(reply).Ok? && ParseFlowKey(Accepted(s, op).value.1).Ok?
    ensures Nat.IsReplyTo(ParseFlowKey(reply).value, ParseFlowKey(Accepted(s, op).value.1).value)
  {
    hide WorkerInv, Intercept, ParseFlowKey, PrepareSpec, RewritePacketSpec, Inv;
    InterceptCorrect(s, {40000}, LISTENER, op.io, op.packet, op.quicWorker, op.quicFlowId, op.now, op.clock);
    var n := After(s, op);
    var e := n.table.sessions[Accepted(s, op).value.0];
    TableInv(n, {40000}, LISTENER);
    SessionTranslation(n.table, {40000}, Accepted(s, op).value.0);
    var t := e.binding.translated.Reverse();
    Redirected(p, t);
    reply := RewritePacketSpec(p, t).value;
  }

  // ---- A close with a live remote transaction ----

  /** A query for the addresses of the name "a". */
  function QueryByte(i: nat): (r: Byte) {
    match i
    case 1 => 7 case 5 => 1 case 12 => 1 case 13 => 97 case 16 => 1 case 18 => 1
    case _ => 0
  }

  function QueryMessage(): (r: Bytes)
    ensures |r| == 19 && forall i :: 0 <= i < 19 ==> r[i] == QueryByte(i)
  {
    seq(19, i requires 0 <= i < 19 => QueryByte(i))
  }

  lemma QueryBytes()
    ensures var q := QueryMessage();
      && q[2] == 0 && q[3] == 0 && q[4] == 0 && q[5] == 1 && q[6] == 0 && q[7] == 0 && q[8] == 0 && q[9] == 0
      && q[10] == 0 && q[11] == 0 && q[12] == 1 && q[13] == 97 && q[14] == 0
  {
    hide QueryMessage;
  }

  lemma QueryWords()
    ensures var q := QueryMessage();
      && WordAt(q, 2) == 0 && WordAt(q, 4) == 1 && WordAt(q, 6) == 0 && WordAt(q, 8) == 0 && WordAt(q, 10) == 0
      && q[12] == 1 && q[13] == 97 && q[14] == 0
  {
    hide QueryMessage, QueryByte, Be16;
    QueryBytes();
    var q := QueryMessage();
    SmallWord(q, 2);
    SmallWord(q, 4);
    SmallWord(q, 6);
    SmallWord(q, 8);
    SmallWord(q, 10);
  }

  lemma SmallWord(q: Bytes, at: nat)
    requires at + 2 <= |q| && q[at] == 0
    ensures WordAt(q, at) == q[at + 1]
  {
  }

  lemma LabelA()
    ensures DnsWire.NormalizeLabel([97]) == Ok([97])
  {
    var text: Bytes := [97];
    assert forall i :: 0 <= i < |text| ==> DnsWire.IsAlnum(text[i]);
    assert seq(|text|, i requires 0 <= i < |text| => DnsWire.Lower(text[i])) == text;
  }

  lemma {:induction false} QueryName(q: Bytes)
    requires |q| >= 15 && q[12] == 1 && q[13] == 97 && q[14] == 0
    ensures DnsWire.ParseName(q, 12) == Ok(([97], 15)) && DnsWire.SkipName(q, 12) == Ok(15)
  {
    assert q[13..14] == [97];
    LabelA();
    assert [] + [[97 as Byte]] == [[97]];
    assert DnsWire.ParseNameFrom(q, 14, 127, [[97]], None, {} + {12}) == Ok(([97], 15));
    assert DnsWire.SkipNameFrom(q, 14, 127, 12) == Ok(15);
  }

  lemma {:induction false} QueryIsValid()
    ensures DnsWire.ParseQuestion(QueryMessage()).Ok?
    ensures DnsWire.ValidateMessage(QueryMessage(), false).Ok?
        && DnsWire.ValidateMessage(QueryMessage(), false).value.qname == [97]
    ensures DnsWire.ClampEdnsSpec(QueryMessage()) == (QueryMessage(), Ok(false))
  {
    hide QueryMessage, QueryByte, DnsWire.ParseName, DnsWire.SkipName, Be16;
    var q := QueryMessage();
    QueryWords();
    QueryName(q);
    assert DnsWire.SkipQuestions(q, 12, 1) == Ok(19) by { assert DnsWire.SkipQuestions(q, 19, 0) == Ok(19); }
    assert DnsWire.SkipRecords(q, 19, 0) == Ok(19);
    assert DnsWire.AdditionalOffset(q) == Ok(19);
    assert DnsWire.ClampRecords(q, 19, 0, false) == (q, Ok((19, false)));
  }

  const DNS_CONFIG := DnsConfig(LISTENER, SocketAddr(V4([10, 0, 8, 8]), 53), SocketAddr(V4([10, 0, 9, 9]), 53), {[97]},
      10, SECOND, true)

  function QueryPacket(): (r: Bytes) {
    Ipv4Udp([10, 0, 0, 1], [10, 0, 0, 53], 1000, 53, QueryMessage())
  }

  /** The query is admitted for the remote resolver. */
  lemma {:induction false} QueryIsRemote(io: IoOwner)
    ensures var plan := PlanQuery(io, QueryPacket(), DNS_CONFIG);
      plan.Ok? && plan.value.Admit? && plan.value.remote && plan.value.flow.source == V4([10, 0, 0, 1])
  {
    hide PlanQuery, ParseFlowKey, PrepareSpec, UdpPayload, Ipv4Udp, QueryMessage, DnsWire.ParseQuestion,
      DnsWire.ValidateMessage, DnsWire.ClampEdnsSpec;
    OuterForwardable([10, 0, 0, 1], [10, 0, 0, 53], 1000, 53, QueryMessage());
    QueryIsValid();
    PlannedIff(io, QueryPacket(), DNS_CONFIG);
    PlanCorrect(io, QueryPacket(), DNS_CONFIG);
    assert [97] in DNS_CONFIG.remoteDomains && DnsWire.DomainMatches([97], [97]);
  }

  const ONE_WORKER := Config(40000, 40000, 1, LISTENER)

  ghost function FreshTable(): (r: Nat.NatState) {
    Nat.Fresh(Some([192, 0, 2, 1]), None, ONE_WORKER.Slice(0))
  }

  ghost function StartUp(): (r: System) {
    System([FreshWorker(0, FreshTable())], [Idle], map[])
  }

  lemma {:induction false} StartUpStarts()
    ensures Starts(StartUp(), ONE_WORKER) && WorkerInv(StartUp().workers[0], ONE_WORKER.Slice(0), LISTENER, {})
    ensures 40000 in FreshTable().available && Small(StartUp().workers[0])
  {
    hide WorkerInv, Nat.Inv;
    Nat.FreshInv(Some([192, 0, 2, 1]), None, ONE_WORKER.Slice(0));
    FreshWorkerInv(0, FreshTable(), ONE_WORKER.Slice(0), LISTENER);
    Ports.SlicesPartition(40000, 40000, 1);
  }

  /** The query opens a remote transaction with a binding to publish. */
  lemma {:induction false} QueryOpens(s: WorkerState, range: set<U16>, io: IoOwner)
    requires WorkerInv(s, range, LISTENER, {}) && s.nextToken == 1 && s.byKey == map[] && s.history.next == 1
        && s.table.nextId == 1
    requires s.table.natTable.snat4.Some? && s.table.natTable.quarantined == map[]
        && 40000 in s.table.natTable.available
    ensures var (n, r) := DnsQuery(s, io, QueryPacket(), DNS_CONFIG, 0, 0);
      && r.Ok? && r.value.Forwarded? && Small(n) && n.id == s.id
      && exists key :: n.byKey.Keys == {key} && RemoteTransactions(n) == {key}
  {
    hide WorkerInv, PlanQuery, ParseFlowKey, UdpPayload, ValidateChecksums, DnsQuery, QueryPacket, Ipv4Udp, IsRefusal,
      Edited;
    QueryIsRemote(io);
    var plan := PlanQuery(io, QueryPacket(), DNS_CONFIG).value;
    var selected := Selected(plan.flow, plan.resolver);
    assert !Nat.Quarantined(s.table.natTable, Nat.Tuple(selected, s.table.natTable.SnatFor(selected).value, 40000), 0);
    assert PortLeft(s.table.natTable, selected, 0);
    QueryDecided(s, range, io, QueryPacket(), DNS_CONFIG, 0, 0);
    DnsQueryCorrect(s, range, io, QueryPacket(), DNS_CONFIG, 0, 0);
    var n := DnsQuery(s, io, QueryPacket(), DNS_CONFIG, 0, 0).0;
    assert n.byKey.Keys == {plan.key} && RemoteTransactions(n) == {plan.key};
  }

  lemma OneEnding(key: TransactionKey)
    ensures Enumerates([Ending(key, 0)], {key})
  {
    assert [Ending(key, 0)][0].key == key;
  }

  lemma QueryMoves(y: System, op: Op, z: System)
    requires op.Query? && op.config.listen == LISTENER && OneFamilyConfig(op.config)
    requires |y.workers| == 1 && y.tasks == [Idle] && Small(y.workers[0])
    requires var (n, r) := DnsQuery(y.workers[0], op.io, op.packet, op.config, op.now, op.clock);
      r.Ok? && r.value.Forwarded? && z == System([n], [PublishDns(r.value.binding, r.value.token)], y.dir)
    ensures SystemStep(y, 0, Call(op), z, ONE_WORKER)
  {
    hide DnsQuery, Small, OneFamilyConfig;
    assert y.workers[0 := z.workers[0]] == z.workers && y.tasks[0 := z.tasks[0]] == z.tasks;
  }

  lemma PublishMoves(y: System, binding: Nat.NatBinding, token: SessionId, z: System)
    requires |y.workers| == 1 && y.tasks == [PublishDns(binding, token)] && y.dir == map[] && y.workers[0].id == 0
    requires z == System(y.workers, [Idle], Nat.Publish(map[], binding, Nat.SessionLocator(0, token)).0)
    ensures SystemStep(y, 0, Access(0), z, ONE_WORKER)
  {
    assert y.workers[0 := z.workers[0]] == z.workers && y.tasks[0 := z.tasks[0]] == z.tasks;
  }

  lemma CloseMoves(y: System, endings: seq<Ending<TransactionKey>>, z: System)
    requires |y.workers| == 1 && y.tasks == [Idle] && Small(y.workers[0])
        && Enumerates(endings, RemoteTransactions(y.workers[0]))
    requires z == System([EndAll(y.workers[0], endings, LISTENER).0], [Idle], y.dir)
    ensures SystemStep(y, 0, Call(AbortRemote(endings)), z, ONE_WORKER)
  {
    hide Small, EndAll, Enumerates;
    assert y.workers[0 := z.workers[0]] == z.workers && y.tasks[0 := z.tasks[0]] == z.tasks;
  }

  /** Three moves of the one worker, the last a close that hits a remote transaction. */
  lemma {:induction false} CloseBreaks(y0: System, query: Op, y1: System, y2: System,
          endings: seq<Ending<TransactionKey>>, y3: System)
    requires Starts(y0, ONE_WORKER) && query.Query?
    requires SystemStep(y0, 0, Call(query), y1, ONE_WORKER) && SystemStep(y1, 0, Access(0), y2, ONE_WORKER)
    requires SystemStep(y2, 0, Call(AbortRemote(endings)), y3, ONE_WORKER)
    requires |y2.workers| == 1 && RemoteTransactions(y2.workers[0]) != {}
    ensures IsSystemRun([y0, y1, y2, y3], [Move(0, Call(query)), Move(0, Access(0)),
        Move(0, Call(AbortRemote(endings)))], ONE_WORKER)
    ensures Exact(y2) && !Exact(y3)
  {
    hide Exact, SystemInv, Starts, SystemStep, RemoteTransactions;
    var states := [y0, y1, y2, y3];
    var moves := [Move(0, Call(query)), Move(0, Access(0)), Move(0, Call(AbortRemote(endings)))];
    assert IsSystemRun(states, moves, ONE_WORKER);
    ExactRun(states, moves, ONE_WORKER, 2);
    CloseExactIff(y2, 0, endings, y3, ONE_WORKER);
  }

  /** A run from start-up in which a remote query is forwarded and its binding published, and the
      connection then closes: the directory is exact before the close and not after it. */
  lemma {:induction false} CloseLeavesStaleEntry() returns (states: seq<System>, moves: seq<Move>)
    ensures IsSystemRun(states, moves, ONE_WORKER) && Starts(states[0], ONE_WORKER) && |moves| == 3
    ensures moves[2].action.Call? && moves[2].action.op.AbortRemote?
    ensures Exact(states[2]) && !Exact(states[3])
  {
    hide WorkerInv, Nat.Inv, DnsQuery, EndAll, Exact, SystemInv, Starts, QueryPacket, SystemStep, Small, Enumerates,
      IsSystemRun, Nat.Publish;
    StartUpStarts();
    var y0 := StartUp();
    var s0 := y0.workers[0];
    var query := Query(FIRST, QueryPacket(), DNS_CONFIG, 0, 0);
    QueryOpens(s0, ONE_WORKER.Slice(0), FIRST);
    var (s1, r) := DnsQuery(s0, FIRST, QueryPacket(), DNS_CONFIG, 0, 0);
    var key :| s1.byKey.Keys == {key} && RemoteTransactions(s1) == {key};
    hide RemoteTransactions, FreshTable;
    var y1 := System([s1], [PublishDns(r.value.binding, r.value.token)], map[]);
    var y2 := System([s1], [Idle], Nat.Publish(map[], r.value.binding, Nat.SessionLocator(0, r.value.token)).0);
    var endings := [Ending(key, 0)];
    var y3 := System([EndAll(s1, endings, LISTENER).0], [Idle], y2.dir);
    OneEnding(key);
    QueryMoves(y0, query, y1);
    PublishMoves(y1, r.value.binding, r.value.token, y2);
    CloseMoves(y2, endings, y3);
    CloseBreaks(y0, query, y1, y2, endings, y3);
    states, moves := [y0, y1, y2, y3], [Move(0, Call(query)), Move(0, Access(0)), Move(0, Call(AbortRemote(endings)))];
  }
}
