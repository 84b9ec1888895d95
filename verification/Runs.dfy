/** Whole runs of one flow worker: the invariant in every reachable state, what a run may do to
    sessions and transactions, and the end-to-end promise of the translation. */
module Runs {
  import opened Core
  import opened Packet
  import opened Forward
  import opened DnsFlow
  import DnsWire
  import opened Deadlines
  import opened Session
  import opened Worker
  import Nat
  import History

  datatype Op =
    | Inner(io: IoOwner, packet: Bytes, quicWorker: nat, quicFlowId: U64, now: Instant, clock: Instant)
    | Reply(packet: Bytes, expected: Nat.SessionLocator, observed: Option<IoOwner>, now: Instant)
    | Query(io: IoOwner, packet: Bytes, config: DnsConfig, now: Instant, clock: Instant)
    | Response(packet: Bytes, clock: Instant)
    | ExpireSessions(now: Instant, removals: seq<Ending<SessionId>>)
    | DropSession(id: SessionId, clock: Instant)
    | Rebind(before: U64, after: U64)
    | TimeOut(now: Instant, endings: seq<Ending<TransactionKey>>)
    | Abort(binding: Nat.NatBinding, clock: Instant)
    | AbortRemote(endings: seq<Ending<TransactionKey>>)

  /** One call on the worker. The order in which a bucket or a table is enumerated and the clock
      readings are arbitrary. */
  ghost predicate Step(s: WorkerState, op: Op, n: WorkerState, listen: SocketAddr) {
    match op
    case Inner(io, packet, quicWorker, quicFlowId, now, clock) =>
        n == Intercept(s, io, packet, quicWorker, quicFlowId, now, clock).0
    case Reply(packet, expected, observed, now) => n == ReverseFor(s, packet, expected, observed, now).0
    case Query(io, packet, config, now, clock) =>
      config.listen == listen && OneFamilyConfig(config) && n == DnsQuery(s, io, packet, config, now, clock).0
    case Response(packet, clock) => exists r :: DnsResponse(s, packet, clock, n, r)
    case ExpireSessions(now, removals) =>
      Enumerates(removals, DueSessions(s.table, now)) && n == s.(table := ExpireIdle(s.table, s.id, now, removals).0)
    case DropSession(id, clock) => n == s.(table := Remove(s.table, s.id, id, clock).0)
    case Rebind(before, after) => n == s.(table := RebindQuicFlow(s.table, s.id, before, after).0)
    case TimeOut(now, endings) =>
      Enumerates(endings, DueTransactions(s, now)) && n == ExpireDns(s, now, endings, listen).0
    case Abort(binding, clock) => n == AbortDns(s, binding, listen, clock).0
    case AbortRemote(endings) => Enumerates(endings, RemoteTransactions(s)) && n == EndAll(s, endings, listen).0
  }

  /** No counter of the worker is about to leave its half of the identifier space. */
  ghost predicate Small(s: WorkerState) {
    s.table.nextId < TOKEN_BASE && s.nextToken < TOKEN_BASE && s.history.next < 0xFFFF_FFFF_FFFF_FFFF
  }

  /** A session that survives keeps its flow, binding and interface; a session that appears has an
      identifier never used before. */
  ghost predicate SessionsEvolve(s: TableState, n: TableState) {
    && s.nextId <= n.nextId
    && (forall id :: id in n.sessions && id in s.sessions ==> Persists(s.sessions[id], n.sessions[id]))
    && (forall id :: id in n.sessions && id !in s.sessions ==> s.nextId <= id)
  }

  ghost predicate Persists(e: Entry, f: Entry) {
    f.original == e.original && f.binding == e.binding && f.interceptIo.ifindex == e.interceptIo.ifindex
  }

  /** A transaction is either kept whole or new with a token never used before. */
  ghost predicate TransactionsEvolve(s: WorkerState, n: WorkerState) {
    && s.nextToken <= n.nextToken
    && (forall k :: k in n.byKey ==>
        (k in s.byKey && n.byKey[k] == s.byKey[k]) || TOKEN_BASE + s.nextToken <= n.byKey[k].token)
  }

  ghost predicate Evolves(s: WorkerState, n: WorkerState) {
    n.id == s.id && SessionsEvolve(s.table, n.table) && TransactionsEvolve(s, n)
  }

  /** The one way a session changes its queue: it is recorded for queue 0 and a reply to it is observed
      on another queue of its interface. */
  ghost predicate Corrects(op: Op, id: SessionId, before: IoOwner, after: IoOwner) {
    && op.Reply? && op.expected.sessionId == id && op.observed == Some(after)
    && before.ifindex == after.ifindex && before.queueId == 0
  }

  ghost predicate OwnersMove(s: TableState, op: Op, n: TableState) {
    forall id :: id in n.sessions && id in s.sessions ==>
      n.sessions[id].interceptIo == s.sessions[id].interceptIo || Corrects(op, id, s.sessions[id].interceptIo,
          n.sessions[id].interceptIo)
  }

  lemma SameOwnersMove(s: TableState, op: Op, n: TableState)
    requires SameOwners(s, n)
    ensures OwnersMove(s, op, n)
  {
  }

  /** What a step that only ends sessions, or only changes them in place, is allowed to do. */
  lemma {:induction false} KeptSessionsEvolve(s: TableState, n: TableState)
    requires n.nextId == s.nextId && n.sessions.Keys <= s.sessions.Keys
    requires forall id :: id in n.sessions ==> Persists(s.sessions[id], n.sessions[id])
    ensures SessionsEvolve(s, n)
  {
  }

  lemma SameTransactions(s: WorkerState, n: WorkerState)
    requires n.byKey == s.byKey && n.nextToken == s.nextToken
    ensures TransactionsEvolve(s, n)
  {
  }

  lemma {:induction false} EndedTransactions(s: WorkerState, n: WorkerState, keys: set<TransactionKey>)
    requires Ends(s, n, keys)
    ensures Evolves(s, n) && SameOwners(s.table, n.table)
  {
  }

  lemma {:induction false} InnerStep(s: WorkerState, range: set<U16>, listen: SocketAddr, io: IoOwner, packet: Bytes,
          quicWorker: nat, quicFlowId: U64, now: Instant, clock: Instant)
    requires WorkerInv(s, range, listen, {}) && Small(s)
    ensures var n := Intercept(s, io, packet, quicWorker, quicFlowId, now, clock).0;
      WorkerInv(n, range, listen, {}) && Evolves(s, n) && SameOwners(s.table, n.table)
  {
    hide WorkerInv, Intercept, Delivers, ParseFlowKey;
    InterceptCorrect(s, range, listen, io, packet, quicWorker, quicFlowId, now, clock);
    var (n, r) := Intercept(s, io, packet, quicWorker, quicFlowId, now, clock);
    SameTransactions(s, n);
  }

  lemma {:induction false} ReplyStep(s: WorkerState, range: set<U16>, listen: SocketAddr, packet: Bytes,
          expected: Nat.SessionLocator, observed: Option<IoOwner>, now: Instant)
    requires WorkerInv(s, range, listen, {})
    ensures var n := ReverseFor(s, packet, expected, observed, now).0;
      WorkerInv(n, range, listen, {}) && Evolves(s, n)
          && OwnersMove(s.table, Reply(packet, expected, observed, now), n.table)
  {
    hide WorkerInv, ReverseFor, Delivers, ParseFlowKey, Nat.IsReplyTo, PrepareSpec;
    ReverseForCorrect(s, range, listen, packet, expected, observed, now);
    var n := ReverseFor(s, packet, expected, observed, now).0;
    forall id | id in n.table.sessions ensures Persists(s.table.sessions[id], n.table.sessions[id]) {
      assert SameSession(s.table.sessions[id], n.table.sessions[id]);
    }
    KeptSessionsEvolve(s.table, n.table);
    SameTransactions(s, n);
  }

  lemma {:induction false} QueryStep(s: WorkerState, range: set<U16>, io: IoOwner, packet: Bytes, config: DnsConfig,
          now: Instant, clock: Instant)
    requires WorkerInv(s, range, config.listen, {}) && Small(s) && OneFamilyConfig(config)
    ensures var n := DnsQuery(s, io, packet, config, now, clock).0;
      WorkerInv(n, range, config.listen, {}) && Evolves(s, n) && SameOwners(s.table, n.table)
  {
    hide WorkerInv, DnsQuery, PlanQuery, ParseFlowKey, UdpPayload, Edited, QueryOutcome, IsRefusal, Evolves, SameOwners;
    DnsQueryCorrect(s, range, io, packet, config, now, clock);
    var (n, r) := DnsQuery(s, io, packet, config, now, clock);
    match PlanQuery(io, packet, config) {
      case Ok(Admit(p, flow, key, resolver, remote)) =>
          QueryEvolves(s, n, Admit(p, flow, key, resolver, remote), config, now, r);
      case _ => NothingEnds(s);
    }
  }

  lemma {:induction false} QueryEvolves(s: WorkerState, n: WorkerState, plan: Plan, config: DnsConfig, now: Instant,
          r: Result<DnsOutcome, FlowError>)
    requires plan.Admit? && Small(s) && QueryOutcome(s, n, plan, config, now, r)
    ensures Evolves(s, n) && SameOwners(s.table, n.table)
  {
    hide CarriesQuery, IsRefusal;
  }

  lemma {:induction false} ResponseStep(s: WorkerState, range: set<U16>, listen: SocketAddr, packet: Bytes,
          clock: Instant, n: WorkerState, r: Result<Option<DnsAnswer>, FlowError>)
    requires WorkerInv(s, range, listen, {}) && Small(s) && DnsResponse(s, packet, clock, n, r)
    ensures WorkerInv(n, range, listen, {}) && Evolves(s, n) && SameOwners(s.table, n.table)
  {
    hide WorkerInv, DnsResponse, ResponsePacket, ParseFlowKey, ValidateChecksums, UdpPayload, Refuses,
      DnsWire.ResponseMatchesQuery;
    DnsResponseCorrect(s, range, listen, packet, clock, n, r);
  }

  /** Removing sessions of this worker. */
  lemma {:induction false} SessionsRemoved(s: WorkerState, range: set<U16>, listen: SocketAddr, t: TableState,
          ids: set<SessionId>)
    requires WorkerInv(s, range, listen, {}) && Inv(t, range, {}) && t.owner == s.table.owner
        && t.nextId == s.table.nextId
    requires ids <= s.table.sessions.Keys
    requires t.sessions == s.table.sessions - ids && t.natTable.forward == s.table.natTable.forward - ids
    ensures WorkerInv(s.(table := t), range, listen, {}) && Evolves(s, s.(table := t)) && SameOwners(s.table, t)
  {
    hide Inv, TxIndex, Tokens, Remembers, AllReady;
    TableChange(s, t, range, listen);
  }

  lemma {:induction false} ExpireSessionsStep(s: WorkerState, range: set<U16>, listen: SocketAddr, now: Instant,
          removals: seq<Ending<SessionId>>)
    requires WorkerInv(s, range, listen, {}) && Enumerates(removals, DueSessions(s.table, now))
    ensures var n := s.(table := ExpireIdle(s.table, s.id, now, removals).0);
      WorkerInv(n, range, listen, {}) && Evolves(s, n) && SameOwners(s.table, n.table)
  {
    hide WorkerInv, Inv, ExpireIdle, Enumerates, Evolves;
    TableInv(s, range, listen);
    ExpireIdleCorrect(s.table, range, now, removals);
    SessionsRemoved(s, range, listen, ExpireIdle(s.table, s.id, now, removals).0, DueSessions(s.table, now));
  }

  lemma {:induction false} DropSessionStep(s: WorkerState, range: set<U16>, listen: SocketAddr, id: SessionId,
          clock: Instant)
    requires WorkerInv(s, range, listen, {})
    ensures var (t, r) := Remove(s.table, s.id, id, clock); var n := s.(table := t);
      && WorkerInv(n, range, listen, {}) && Evolves(s, n) && SameOwners(s.table, n.table)
      && (r.Ok? <==> id in s.table.sessions) && (r.Ok? ==> r.value == s.table.sessions[id])
      && n.table.sessions == s.table.sessions - {id}
  {
    hide WorkerInv, Inv, Remove, Evolves;
    TableInv(s, range, listen);
    RemoveKeepsInv(s.table, range, {}, s.id, id, clock);
    var (t, r) := Remove(s.table, s.id, id, clock);
    if r.Ok? {
      assert {} - {id} == {};
      SessionsRemoved(s, range, listen, t, {id});
    } else {
      assert s.table.sessions - {} == s.table.sessions && s.table.natTable.forward - {} == s.table.natTable.forward;
      assert s.table.sessions - {id} == s.table.sessions;
      SessionsRemoved(s, range, listen, t, {});
    }
  }

  lemma {:induction false} RebindStep(s: WorkerState, range: set<U16>, listen: SocketAddr, before: U64, after: U64)
    requires WorkerInv(s, range, listen, {})
    ensures var n := s.(table := RebindQuicFlow(s.table, s.id, before, after).0);
      WorkerInv(n, range, listen, {}) && Evolves(s, n) && SameOwners(s.table, n.table)
  {
    hide Inv, TxIndex, Tokens, Remembers, AllReady, RebindQuicFlow;
    RebindKeepsInv(s.table, range, s.id, before, after);
    var t := RebindQuicFlow(s.table, s.id, before, after).0;
    TableChange(s, t, range, listen);
  }

  lemma {:induction false} TimeOutStep(s: WorkerState, range: set<U16>, listen: SocketAddr, now: Instant,
          endings: seq<Ending<TransactionKey>>)
    requires WorkerInv(s, range, listen, {}) && Enumerates(endings, DueTransactions(s, now))
    ensures var n := ExpireDns(s, now, endings, listen).0;
      WorkerInv(n, range, listen, {}) && Evolves(s, n) && SameOwners(s.table, n.table)
  {
    hide WorkerInv, ExpireDns, Enumerates, Ends, Evolves, SameOwners;
    ExpireDnsCorrect(s, range, listen, now, endings);
    EndedTransactions(s, ExpireDns(s, now, endings, listen).0, DueTransactions(s, now));
  }

  /** Aborting one transaction by its binding: gone and answered if it was live. */
  lemma {:induction false} AbortCorrect(s: WorkerState, range: set<U16>, listen: SocketAddr, binding: Nat.NatBinding,
          clock: Instant)
    requires WorkerInv(s, range, listen, {})
    ensures var (n, r) := AbortDns(s, binding, listen, clock); var answer := binding.translated.Reverse();
      && WorkerInv(n, range, listen, {}) && Evolves(s, n) && SameOwners(s.table, n.table)
      && r.Ok? && answer !in n.byReverse
      && (if answer !in s.byReverse then n == s && r.value == []
          else
            var key := s.byReverse[answer];
            Ends(s, n, {key}) && key in s.byKey && |r.value| == 1 && AnswersClient(r.value[0], s.byKey[key], listen))
  {
    hide WorkerInv, EndAll, Ends, Evolves, SameOwners, AnswersClient, Tokens, Remembers, AllReady, Inv, Deadlines.Index;
    Unpack(s, range, listen, {});
    var answer := binding.translated.Reverse();
    if answer in s.byReverse {
      var key := s.byReverse[answer];
      var endings := [Ending(key, clock)];
      EndAllCorrect(s, range, listen, {}, endings);
      assert EndedKeys(endings) == {key} by { assert endings[0].key == key; }
      assert {} - {key} == {};
      var n := EndAll(s, endings, listen).0;
      EndedTransactions(s, n, {key});
      AnswerGone(s, n, range, listen, key);
    } else {
      assert s.byKey - {} == s.byKey;
      NothingEnds(s);
    }
  }

  lemma NothingEnds(s: WorkerState)
    ensures Evolves(s, s) && SameOwners(s.table, s.table)
  {
  }

  lemma AnswerGone(s: WorkerState, n: WorkerState, range: set<U16>, listen: SocketAddr, key: TransactionKey)
    requires WorkerInv(s, range, listen, {}) && WorkerInv(n, range, listen, {}) && Ends(s, n, {key}) && key in s.byKey
    ensures s.byKey[key].Answer() !in n.byReverse
  {
    hide Tokens, Remembers, AllReady, Inv, Deadlines.Index;
    forall f | f in n.byReverse ensures f != s.byKey[key].Answer() {
      assert s.byKey[n.byReverse[f]].Answer() == f;
    }
  }

  /** Aborting every remote transaction removes exactly those and answers each of them. */
  lemma {:induction false} AbortRemoteCorrect(s: WorkerState, range: set<U16>, listen: SocketAddr,
          endings: seq<Ending<TransactionKey>>)
    requires WorkerInv(s, range, listen, {}) && Enumerates(endings, RemoteTransactions(s))
    ensures var (n, r) := EndAll(s, endings, listen);
      && WorkerInv(n, range, listen, {}) && Evolves(s, n) && SameOwners(s.table, n.table)
      && Ends(s, n, RemoteTransactions(s)) && RemoteTransactions(n) == {}
      && r.Ok? && |r.value| == |endings|
      && (forall i :: 0 <= i < |endings| ==>
          endings[i].key in s.byKey && AnswersClient(r.value[i], s.byKey[endings[i].key], listen))
  {
    hide WorkerInv, EndAll, Evolves, SameOwners, AnswersClient;
    forall i | 0 <= i < |endings| ensures endings[i].key in s.byKey {
      assert endings[i].key in RemoteTransactions(s);
    }
    EndAllCorrect(s, range, listen, {}, endings);
    assert EndedKeys(endings) == RemoteTransactions(s);
    assert {} - EndedKeys(endings) == {};
    EndedTransactions(s, EndAll(s, endings, listen).0, RemoteTransactions(s));
  }

  /** Every step keeps the invariant and evolves the state. */
  lemma {:induction false} StepKeeps(s: WorkerState, range: set<U16>, listen: SocketAddr, op: Op, n: WorkerState)
    requires WorkerInv(s, range, listen, {}) && Small(s) && Step(s, op, n, listen)
    ensures WorkerInv(n, range, listen, {}) && Evolves(s, n) && OwnersMove(s.table, op, n.table)
  {
    hide WorkerInv, Small, Evolves, SameOwners, OwnersMove, Intercept, ReverseFor, DnsQuery, DnsResponse, Enumerates,
      ExpireIdle, Remove, RebindQuicFlow, ExpireDns, AbortDns, EndAll, OneFamilyConfig;
    match op {
      case Inner(io, packet, quicWorker, quicFlowId, now, clock) =>
          InnerStep(s, range, listen, io, packet, quicWorker, quicFlowId, now, clock);
      case Reply(packet, expected, observed, now) => ReplyStep(s, range, listen, packet, expected, observed, now);
      case Query(io, packet, config, now, clock) => QueryStep(s, range, io, packet, config, now, clock);
      case Response(packet, clock) =>
        var r :| DnsResponse(s, packet, clock, n, r);
        ResponseStep(s, range, listen, packet, clock, n, r);
      case ExpireSessions(now, removals) => ExpireSessionsStep(s, range, listen, now, removals);
      case DropSession(id, clock) => DropSessionStep(s, range, listen, id, clock);
      case Rebind(before, after) => RebindStep(s, range, listen, before, after);
      case TimeOut(now, endings) => TimeOutStep(s, range, listen, now, endings);
      case Abort(binding, clock) => AbortCorrect(s, range, listen, binding, clock);
      case AbortRemote(endings) => AbortRemoteCorrect(s, range, listen, endings);
    }
    if !op.Reply? { SameOwnersMove(s.table, op, n.table); }
  }

  // ---- Runs ----

  /** A run: consecutive states are related by the calls between them, and no counter runs out. */
  ghost predicate IsRun(states: seq<WorkerState>, ops: seq<Op>, listen: SocketAddr) {
    && |states| == |ops| + 1
    && (forall i :: 0 <= i < |ops| ==> Small(states[i]) && Step(states[i], ops[i], states[i + 1], listen))
  }

  /** No reply to the session between two points of the run was observed on a queue. */
  ghost predicate Uncorrected(ops: seq<Op>, i: nat, j: nat, id: SessionId)
    requires i <= j <= |ops|
  {
    forall k :: i <= k < j ==> !(ops[k].Reply? && ops[k].expected.sessionId == id && ops[k].observed.Some?)
  }

  lemma {:induction false} EvolvesTransitive(a: WorkerState, b: WorkerState, c: WorkerState, range: set<U16>,
          listen: SocketAddr)
    requires WorkerInv(a, range, listen, {}) && Evolves(a, b) && Evolves(b, c)
    ensures Evolves(a, c)
  {
    IdsBelow(a, range, listen);
    forall id | id in c.table.sessions && id in a.table.sessions
        ensures id in b.table.sessions && Persists(a.table.sessions[id], c.table.sessions[id]) {
      assert id in b.table.sessions;
      assert Persists(a.table.sessions[id], b.table.sessions[id])
          && Persists(b.table.sessions[id], c.table.sessions[id]);
    }
  }

  lemma IdsBelow(s: WorkerState, range: set<U16>, listen: SocketAddr)
    requires WorkerInv(s, range, listen, {})
    ensures forall id :: id in s.table.sessions ==> id < s.table.nextId
    ensures forall k :: k in s.byKey ==> s.byKey[k].token < TOKEN_BASE + s.nextToken
  {
    forall k | k in s.byKey ensures s.byKey[k].token < TOKEN_BASE + s.nextToken {
      assert OwnsToken(s, s.byKey[k]);
    }
  }

  /** In every run the invariant holds in every state. */
  lemma {:induction false} RunInvariant(states: seq<WorkerState>, ops: seq<Op>, range: set<U16>, listen: SocketAddr,
          i: nat)
    requires IsRun(states, ops, listen) && WorkerInv(states[0], range, listen, {}) && i < |states|
    ensures WorkerInv(states[i], range, listen, {})
  {
    hide WorkerInv, Step, Small, Evolves, OwnersMove;
    if i > 0 {
      RunInvariant(states, ops, range, listen, i - 1);
      StepKeeps(states[i - 1], range, listen, ops[i - 1], states[i]);
    }
  }

  /** Any later state has evolved from any earlier one. */
  lemma {:induction false} RunEvolves(states: seq<WorkerState>, ops: seq<Op>, range: set<U16>, listen: SocketAddr,
          i: nat, j: nat)
    requires IsRun(states, ops, listen) && WorkerInv(states[0], range, listen, {}) && i <= j < |states|
    ensures Evolves(states[i], states[j])
    decreases j
  {
    hide WorkerInv, Step, Small, Evolves, OwnersMove;
    if i == j {
      NothingEnds(states[i]);
    } else {
      RunEvolves(states, ops, range, listen, i, j - 1);
      RunInvariant(states, ops, range, listen, i);
      RunInvariant(states, ops, range, listen, j - 1);
      StepKeeps(states[j - 1], range, listen, ops[j - 1], states[j]);
      EvolvesTransitive(states[i], states[j - 1], states[j], range, listen);
    }
  }

  /** The queue a session is recorded for at `j` is the one it was recorded for at `i`, or that was
      queue 0 and some reply in between was observed on the new one. */
  lemma {:induction false} QueueHistory(states: seq<WorkerState>, ops: seq<Op>, range: set<U16>, listen: SocketAddr,
          i: nat, j: nat, id: SessionId)
    requires IsRun(states, ops, listen) && WorkerInv(states[0], range, listen, {}) && i <= j < |states|
    requires id in states[i].table.sessions && id in states[j].table.sessions
    ensures QueueOrigin(ops, i, j, id, states[i].table.sessions[id].interceptIo,
        states[j].table.sessions[id].interceptIo)
    decreases j
  {
    hide WorkerInv, Step, Small, Evolves;
    if i < j {
      StillThere(states, ops, range, listen, i, j - 1, j, id);
      QueueHistory(states, ops, range, listen, i, j - 1, id);
      RunInvariant(states, ops, range, listen, j - 1);
      StepKeeps(states[j - 1], range, listen, ops[j - 1], states[j]);
    }
  }

  /** A session live at two points of a run is live between them. */
  lemma {:induction false} StillThere(states: seq<WorkerState>, ops: seq<Op>, range: set<U16>, listen: SocketAddr,
          i: nat, j: nat, k: nat, id: SessionId)
    requires IsRun(states, ops, listen) && WorkerInv(states[0], range, listen, {}) && i <= j <= k < |states|
    requires id in states[i].table.sessions && id in states[k].table.sessions
    ensures id in states[j].table.sessions
  {
    hide WorkerInv, IsRun;
    RunInvariant(states, ops, range, listen, i);
    IdsBelow(states[i], range, listen);
    RunEvolves(states, ops, range, listen, i, j);
    if id !in states[j].table.sessions {
      SessionsEndOnce(states, ops, range, listen, j, k, id);
    }
  }

  /** Where the packet accepted at `i` left its session: opened for the packet's own queue, or already
      recorded for the queue of an earlier packet. */
  ghost function Recorded(s: WorkerState, op: Op): (r: IoOwner)
    requires op.Inner? && Accepted(s, op).Ok?
  {
    var id := Accepted(s, op).value.0;
    if id in s.table.sessions then s.table.sessions[id].interceptIo else op.io
  }

  /** End-to-end translation. Once a packet of flow `f` has been accepted, in every later state in
      which its session is live, every forwardable reply on the translated tuple is restored exactly
      when its queue lets it through, wherever it is observed. It is restored to `f` reversed (for
      ICMP: the original identifier, the reply's own type), validates, has a hop limit one lower, a
      bounded MSS and every other byte as it was, and leaves on the interface `f` came from: on the
      queue it was observed on or, observed on none, on the queue the session is recorded for. That
      queue is the one recorded at acceptance, or queue 0 was recorded there and a later reply was
      observed on the new queue. Without such a correction a reply observed on no queue goes to the
      accepted packet's queue if and only if that packet opened the session or came from the recorded
      queue. */
  lemma {:induction false} EndToEnd(states: seq<WorkerState>, ops: seq<Op>, range: set<U16>, listen: SocketAddr, i: nat,
          j: nat, reply: Bytes, observed: Option<IoOwner>, now: Instant)
    requires IsRun(states, ops, listen) && WorkerInv(states[0], range, listen, {}) && i < j < |states| && ops[i].Inner?
    requires Accepted(states[i], ops[i]).Ok? && Accepted(states[i], ops[i]).value.0 in states[j].table.sessions
    requires PrepareSpec(reply).Ok? && ParseFlowKey(reply).Ok? && ParseFlowKey(Accepted(states[i], ops[i]).value.1).Ok?
    requires Nat.IsReplyTo(ParseFlowKey(reply).value, ParseFlowKey(Accepted(states[i], ops[i]).value.1).value)
    ensures ParseFlowKey(ops[i].packet).Ok?
    ensures var id := Accepted(states[i], ops[i]).value.0;
      var f := ParseFlowKey(ops[i].packet).value;
      var queue := states[j].table.sessions[id].interceptIo;
      var r := ReverseFor(states[j], reply, Nat.SessionLocator(states[j].id, id), observed, now).1;
      && r.Ok? && (r.value.Some? <==> Admits(queue, observed))
      && (r.value.Some? ==>
            && r.value.value.id == id
            && Delivers(reply, r.value.value.packet, RestoredFlow(f, ParseFlowKey(reply).value))
            && r.value.value.target.ifindex == ops[i].io.ifindex
            && r.value.value.target == if observed.None? then queue else observed.value)
      && QueueOrigin(ops, i + 1, j, id, Recorded(states[i], ops[i]), queue)
      && (Uncorrected(ops, i + 1, j, id) && observed.None? ==>
            (r.value.value.target == ops[i].io <==>
               (id in states[i].table.sessions ==> states[i].table.sessions[id].interceptIo == ops[i].io)))
  {
    hide WorkerInv, Small, Step, Intercept, ReverseFor, Delivers, ParseFlowKey, Nat.IsReplyTo, PrepareSpec,
      RestoredFlow, Settles;
    RunInvariant(states, ops, range, listen, i);
    RunInvariant(states, ops, range, listen, j);
    assert Small(states[i]) && Step(states[i], ops[i], states[i + 1], listen);
    AcceptedSession(states[i], range, listen, ops[i]);
    AcceptedStep(states[i], ops[i], states[i + 1], listen);
    var id := Accepted(states[i], ops[i]).value.0;
    RunEvolves(states, ops, range, listen, i + 1, j);
    PersistsAcross(states[i + 1], states[j], id);
    QueueHistory(states, ops, range, listen, i + 1, j, id);
    ReplyReachesOwner(states[j], range, listen, reply, id, observed, now);
  }

  /** How a session recorded for `before` comes to be recorded for `after`. */
  ghost predicate QueueOrigin(ops: seq<Op>, i: nat, j: nat, id: SessionId, before: IoOwner, after: IoOwner)
    requires i <= j <= |ops|
  {
    after == before || exists k :: i <= k < j && Corrects(ops[k], id, before, after)
  }

  lemma AcceptedStep(s: WorkerState, op: Op, n: WorkerState, listen: SocketAddr)
    requires Step(s, op, n, listen) && op.Inner?
    ensures n == Intercept(s, op.io, op.packet, op.quicWorker, op.quicFlowId, op.now, op.clock).0
  {
  }

  ghost function Accepted(s: WorkerState, op: Op): Result<(SessionId, Bytes), FlowError>
    requires op.Inner?
  {
    Intercept(s, op.io, op.packet, op.quicWorker, op.quicFlowId, op.now, op.clock).1
  }

  lemma {:induction false} AcceptedSession(s: WorkerState, range: set<U16>, listen: SocketAddr, op: Op)
    requires WorkerInv(s, range, listen, {}) && Small(s) && op.Inner? && Accepted(s, op).Ok?
    ensures var n := Intercept(s, op.io, op.packet, op.quicWorker, op.quicFlowId, op.now, op.clock).0;
        var id := Accepted(s, op).value.0;
      && ParseFlowKey(op.packet).Ok? && id in n.table.sessions
      && var e := n.table.sessions[id];
      && e.original == ParseFlowKey(op.packet).value && e.interceptIo.ifindex == op.io.ifindex
      && ParseFlowKey(Accepted(s, op).value.1) == Ok(e.binding.translated)
      && e.interceptIo == Recorded(s, op)
  {
    hide WorkerInv, Intercept, ParseFlowKey, ValidateChecksums, SynBounded, KeepsRest;
    InterceptCorrect(s, range, listen, op.io, op.packet, op.quicWorker, op.quicFlowId, op.now, op.clock);
  }

  lemma PersistsAcross(s: WorkerState, n: WorkerState, id: SessionId)
    requires Evolves(s, n) && id in s.table.sessions && id in n.table.sessions
    ensures Persists(s.table.sessions[id], n.table.sessions[id]) && n.id == s.id
  {
  }

  ghost function LiveTokens(s: WorkerState): set<SessionId> {
    set k | k in s.byKey :: s.byKey[k].token
  }

  /** A token that is not live, and was already handed out, is never live again. */
  lemma {:induction false} EndedStaysEnded(states: seq<WorkerState>, ops: seq<Op>, range: set<U16>, listen: SocketAddr,
          i: nat, j: nat, token: SessionId)
    requires IsRun(states, ops, listen) && WorkerInv(states[0], range, listen, {}) && i <= j < |states|
    requires token < TOKEN_BASE + states[i].nextToken && token !in LiveTokens(states[i])
    ensures token !in LiveTokens(states[j])
  {
    hide WorkerInv, IsRun, SessionsEvolve;
    RunEvolves(states, ops, range, listen, i, j);
  }

  /** Each transaction ends at most once in a run: the sets of tokens ended by two different steps
      are disjoint. */
  lemma {:induction false} EndsOnce(states: seq<WorkerState>, ops: seq<Op>, range: set<U16>, listen: SocketAddr, i: nat,
          j: nat)
    requires IsRun(states, ops, listen) && WorkerInv(states[0], range, listen, {}) && i < j < |ops|
    ensures (LiveTokens(states[i]) - LiveTokens(states[i + 1])) !! (LiveTokens(states[j]) - LiveTokens(states[j + 1]))
  {
    hide WorkerInv, Step, Small, LiveTokens;
    RunInvariant(states, ops, range, listen, i);
    RunEvolves(states, ops, range, listen, i, i + 1);
    forall token | token in LiveTokens(states[i]) && token !in LiveTokens(states[i + 1])
        ensures token !in LiveTokens(states[j]) {
      TokenBelow(states[i], range, listen, token);
      EndedStaysEnded(states, ops, range, listen, i + 1, j, token);
    }
  }

  lemma TokenBelow(s: WorkerState, range: set<U16>, listen: SocketAddr, token: SessionId)
    requires WorkerInv(s, range, listen, {}) && token in LiveTokens(s)
    ensures token < TOKEN_BASE + s.nextToken
  {
    IdsBelow(s, range, listen);
  }

  /** Session identifiers are never reused either. */
  lemma {:induction false} SessionsEndOnce(states: seq<WorkerState>, ops: seq<Op>, range: set<U16>, listen: SocketAddr,
          i: nat, j: nat, id: SessionId)
    requires IsRun(states, ops, listen) && WorkerInv(states[0], range, listen, {}) && i <= j < |states|
    requires id < states[i].table.nextId && id !in states[i].table.sessions
    ensures id !in states[j].table.sessions
  {
    hide WorkerInv, IsRun;
    RunEvolves(states, ops, range, listen, i, j);
  }

  lemma LocatedPart(t: TableState, range: set<U16>)
    requires Inv(t, range, {})
    ensures Located(t.natTable, t.owner)
  {
  }

  /** In every state of every run, free ports and the ports of live bindings partition the range,
      bindings are exactly the live sessions and transactions, and no live DNS answer tuple resolves
      as a session. */
  lemma {:induction false} RunPartition(states: seq<WorkerState>, ops: seq<Op>, range: set<U16>, listen: SocketAddr,
          i: nat)
    requires IsRun(states, ops, listen) && WorkerInv(states[0], range, listen, {}) && i < |states|
    ensures var s := states[i]; var t := s.table.natTable;
      && t.available !! t.LivePorts() && t.available + t.LivePorts() == range
      && t.reverse.Keys == t.LiveTuples() && Located(t, s.id)
      && t.forward.Keys == s.table.sessions.Keys + LiveTokens(s) && s.table.sessions.Keys !! LiveTokens(s)
      && forall f :: f in s.byReverse ==> LookupReverse(s.table, f) == None
  {
    hide WorkerInv, IsRun, LookupReverse, Session.Inv;
    RunInvariant(states, ops, range, listen, i);
    BindingsPartition(states[i], range, listen);
    TableInv(states[i], range, listen);
    NatPart(states[i].table, range);
    LocatedPart(states[i].table, range);
    forall f | f in states[i].byReverse ensures LookupReverse(states[i].table, f) == None {
      DnsAnswerIsNoSession(states[i], range, listen, f);
    }
  }

  /** In every state of every run the redundant indexes agree: the session key map is a bijection with
      the sessions, both deadline tables hold exactly the live entries at their deadlines with no empty
      bucket, transactions and answer tuples are in bijection with one binding each, and no completed
      answer tuple is live. */
  lemma {:induction false} RunIndexes(states: seq<WorkerState>, ops: seq<Op>, range: set<U16>, listen: SocketAddr,
          i: nat)
    requires IsRun(states, ops, listen) && WorkerInv(states[0], range, listen, {}) && i < |states|
    ensures var s := states[i];
      && KeyIndex(s.table.byKey, s.table.sessions) && Deadlines.Index(s.table.deadlines, Due(s.table.sessions, {}))
      && TxIndex(s.byKey, s.byReverse) && Deadlines.Index(s.deadlines, TxDue(s.byKey, {}))
      && (forall k :: k in s.byKey ==> OwnsToken(s, s.byKey[k]))
      && (forall j, k :: j in s.byKey && k in s.byKey && j != k ==> s.byKey[j].token != s.byKey[k].token)
      && History.Inverse(s.history) && |s.history.completed| <= History.CAPACITY
      && (forall f :: f in s.history.completed ==> f !in s.byReverse)
  {
    hide WorkerInv, IsRun, Deadlines.Index, OwnsToken;
    RunInvariant(states, ops, range, listen, i);
    var s := states[i];
    Unpack(s, range, listen, {});
    forall j, k | j in s.byKey && k in s.byKey && j != k ensures s.byKey[j].token != s.byKey[k].token {
      TokensDistinct(s, j, k);
    }
  }
}
