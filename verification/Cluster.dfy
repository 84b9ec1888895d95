/** N flow workers sharing one reverse-NAT directory. A worker handles one message at a time; the
    calls on its own tables and the locked accesses to the directory are separate steps, and steps
    of different workers interleave freely. */
module Cluster {
  import opened Core
  import opened Packet
  import opened Forward
  import opened DnsFlow
  import opened Deadlines
  import DnsWire
  import opened Session
  import opened Worker
  import opened Runs
  import Nat
  import Ports

  datatype Config = Config(start: U16, end: U16, count: nat, listen: SocketAddr) {
    ghost predicate Valid() {
      0 < count < 0x1_0000_0000 && start <= end && count <= end - start + 1
    }

    ghost function Slice(w: nat): set<U16>
      requires count < 0x1_0000_0000
    {
      Ports.Slice(start, end, w, count)
    }
  }

  /** What the worker still has to do with the directory for the message at hand. */
  datatype Task =
    | Idle
    | PublishSession(id: SessionId)
    | PublishDns(binding: Nat.NatBinding, token: SessionId)
    | RetireEach(items: seq<(Nat.NatBinding, SessionId)>)
  {
    predicate Publishes(x: SessionId) {
      (PublishSession? && id == x) || (PublishDns? && token == x)
    }
  }

  datatype System = System(workers: seq<WorkerState>, tasks: seq<Task>, dir: Nat.Directory)

  function Sessions(entries: seq<Entry>): (r: seq<(Nat.NatBinding, SessionId)>) {
    seq(|entries|, i requires 0 <= i < |entries| => (entries[i].binding, entries[i].id))
  }

  function Transactions(ended: seq<Expired>): (r: seq<(Nat.NatBinding, SessionId)>) {
    seq(|ended|, i requires 0 <= i < |ended| => (ended[i].binding, ended[i].token))
  }

  /** A call at a message boundary, and the directory work it leaves. A connection close aborts the
      remote transactions and leaves none. */
  ghost predicate Called(s: WorkerState, op: Op, n: WorkerState, task: Task, listen: SocketAddr) {
    match op
    case Inner(io, packet, quicWorker, quicFlowId, now, clock) =>
      var (m, r) := Intercept(s, io, packet, quicWorker, quicFlowId, now, clock);
      n == m && task == if r.Ok? then PublishSession(r.value.0) else Idle
    case Reply(packet, expected, observed, now) => n == ReverseFor(s, packet, expected, observed, now).0 && task == Idle
    case Query(io, packet, config, now, clock) =>
      var (m, r) := DnsQuery(s, io, packet, config, now, clock);
      && config.listen == listen && OneFamilyConfig(config)
      && n == m && task == if r.Ok? && r.value.Forwarded? then PublishDns(r.value.binding, r.value.token) else Idle
    case Response(packet, clock) => exists r ::
      && DnsResponse(s, packet, clock, n, r)
      && task == if r.Ok? && r.value.Some? then RetireEach([(r.value.value.binding, r.value.value.token)]) else Idle
    case ExpireSessions(now, removals) =>
      var (t, r) := ExpireIdle(s.table, s.id, now, removals);
      && Enumerates(removals, DueSessions(s.table, now))
      && n == s.(table := t) && task == if r.Ok? then RetireEach(Sessions(r.value)) else Idle
    case DropSession(id, clock) =>
      var (t, r) := Remove(s.table, s.id, id, clock);
      n == s.(table := t) && task == if r.Ok? then RetireEach([(r.value.binding, id)]) else Idle
    case Rebind(before, after) => n == s.(table := RebindQuicFlow(s.table, s.id, before, after).0) && task == Idle
    case TimeOut(now, endings) =>
      var (m, r) := ExpireDns(s, now, endings, listen);
      && Enumerates(endings, DueTransactions(s, now))
      && n == m && task == if r.Ok? then RetireEach(Transactions(r.value)) else Idle
    case Abort(_, _) => false
    case AbortRemote(endings) =>
      Enumerates(endings, RemoteTransactions(s)) && n == EndAll(s, endings, listen).0 && task == Idle
  }

  /** One locked access to the directory; a refused publication undoes the session or transaction. */
  function Proceed(s: WorkerState, task: Task, dir: Nat.Directory, listen: SocketAddr, clock: Instant)
    : (r: (WorkerState, Task, Nat.Directory)) {
    match task
    case Idle => (s, Idle, dir)
    case PublishSession(id) =>
      if id !in s.table.sessions then (s, Idle, dir)
      else
        var (d, published) := Nat.Publish(dir, s.table.sessions[id].binding, Nat.SessionLocator(s.id, id));
        (if published.Ok? then s else s.(table := Remove(s.table, s.id, id, clock).0), Idle, d)
    case PublishDns(binding, token) =>
      var (d, published) := Nat.Publish(dir, binding, Nat.SessionLocator(s.id, token));
      (if published.Ok? then s else AbortDns(s, binding, listen, clock).0, Idle, d)
    case RetireEach(items) =>
      if |items| == 0 then (s, Idle, dir)
      else (s, RetireEach(items[1..]), Nat.Retire(dir, items[0].0, Nat.SessionLocator(s.id, items[0].1)).0)
  }

  datatype Action = Call(op: Op) | Access(clock: Instant)

  function Update(y: System, w: nat, s: WorkerState, task: Task, dir: Nat.Directory): (r: System)
    requires w < |y.workers| == |y.tasks|
  {
    System(y.workers[w := s], y.tasks[w := task], dir)
  }

  /** One step of worker `w`. */
  ghost predicate SystemStep(y: System, w: nat, action: Action, z: System, c: Config) {
    && w < |y.workers| == |y.tasks|
    && match action
       case Call(op) =>
         && Small(y.workers[w]) && y.tasks[w].Idle? && |z.workers| == |y.workers| && |z.tasks| == |y.tasks|
         && Called(y.workers[w], op, z.workers[w], z.tasks[w], c.listen)
         && z == Update(y, w, z.workers[w], z.tasks[w], y.dir)
       case Access(clock) =>
         var (s, task, dir) := Proceed(y.workers[w], y.tasks[w], y.dir, c.listen, clock);
         z == Update(y, w, s, task, dir)
  }

  // ---- The invariant ----

  ghost predicate Published(dir: Nat.Directory, s: WorkerState, id: SessionId)
    requires id in s.table.natTable.forward
  {
    var k := Nat.ReturnTuple(s.table.natTable.forward[id].translated);
    k in dir && dir[k] == Nat.SessionLocator(s.id, id)
  }

  /** Every live binding is in the directory, or is the one being published. */
  ghost predicate LivePublished(dir: Nat.Directory, s: WorkerState, task: Task) {
    forall id :: id in s.table.natTable.forward ==> task.Publishes(id) || Published(dir, s, id)
  }

  /** A pending publication is of something live, a pending retirement of something dead. */
  ghost predicate TaskFits(s: WorkerState, task: Task) {
    match task
    case Idle => true
    case PublishSession(id) => id in s.table.sessions
    case PublishDns(binding, token) =>
      var f := binding.translated.Reverse();
      f in s.byReverse && s.byReverse[f] in s.byKey && s.byKey[s.byReverse[f]].token == token
          && s.byKey[s.byReverse[f]].binding == binding
    case RetireEach(items) => forall i :: 0 <= i < |items| ==> items[i].1 !in s.table.natTable.forward
  }

  ghost predicate WorkerFits(dir: Nat.Directory, s: WorkerState, task: Task, w: nat, c: Config)
    requires c.Valid()
  {
    WorkerInv(s, c.Slice(w), c.listen, {}) && s.id == w && LivePublished(dir, s, task) && TaskFits(s, task)
  }

  /** Every entry names the worker that owns its NAT port. */
  ghost predicate Owned(dir: Nat.Directory, c: Config)
    requires c.Valid()
  {
    forall k :: k in dir ==> dir[k].flowWorkerId < c.count && Nat.TuplePort(k) in c.Slice(dir[k].flowWorkerId)
  }

  ghost predicate SystemInv(y: System, c: Config) {
    && c.Valid() && |y.workers| == |y.tasks| == c.count
    && Owned(y.dir, c)
    && forall w :: 0 <= w < c.count ==> WorkerFits(y.dir, y.workers[w], y.tasks[w], w, c)
  }

  /** Directory entries other than those of dead identifiers of worker `w` survive. */
  ghost predicate Kept(dir: Nat.Directory, d: Nat.Directory, w: nat, live: set<SessionId>) {
    forall k :: k in dir && !(dir[k].flowWorkerId == w && dir[k].sessionId !in live) ==> k in d && d[k] == dir[k]
  }

  lemma {:induction false} OthersFit(dir: Nat.Directory, d: Nat.Directory, s: WorkerState, task: Task, v: nat, w: nat,
          live: set<SessionId>, c: Config)
    requires c.Valid() && WorkerFits(dir, s, task, v, c) && v != w && Kept(dir, d, w, live)
    ensures WorkerFits(d, s, task, v, c)
  {
    hide WorkerInv, TaskFits;
    forall id | id in s.table.natTable.forward ensures task.Publishes(id) || Published(d, s, id) {
      assert task.Publishes(id) || Published(dir, s, id);
    }
  }

  /** A step of worker `w` that fits it and spares the others' entries keeps the whole invariant. */
  lemma {:induction false} UpdateKeeps(y: System, w: nat, s: WorkerState, task: Task, d: Nat.Directory, c: Config)
    requires SystemInv(y, c) && w < c.count
    requires WorkerFits(d, s, task, w, c) && Owned(d, c) && Kept(y.dir, d, w, s.table.natTable.forward.Keys)
    ensures SystemInv(Update(y, w, s, task, d), c)
  {
    hide WorkerFits, Owned, Kept;
    var z := Update(y, w, s, task, d);
    forall v | 0 <= v < c.count ensures WorkerFits(z.dir, z.workers[v], z.tasks[v], v, c) {
      if v != w {
        OthersFit(y.dir, d, y.workers[v], y.tasks[v], v, w, s.table.natTable.forward.Keys, c);
      }
    }
  }

  // ---- Calls ----

  /** Bindings after a call: old ones unchanged, at most one new one, which is about to be published. */
  ghost predicate ForwardStep(s: WorkerState, n: WorkerState, task: Task) {
    forall id :: id in n.table.natTable.forward ==>
      task.Publishes(id) || (id in s.table.natTable.forward
          && n.table.natTable.forward[id] == s.table.natTable.forward[id])
  }

  ghost predicate Fits(s: WorkerState, n: WorkerState, task: Task, range: set<U16>, listen: SocketAddr) {
    WorkerInv(n, range, listen, {}) && n.id == s.id && ForwardStep(s, n, task) && TaskFits(n, task)
  }

  lemma {:induction false} InnerFits(s: WorkerState, range: set<U16>, listen: SocketAddr, io: IoOwner, packet: Bytes,
          quicWorker: nat, quicFlowId: U64, now: Instant, clock: Instant)
    requires WorkerInv(s, range, listen, {}) && Small(s)
    ensures var (n, r) := Intercept(s, io, packet, quicWorker, quicFlowId, now, clock);
      Fits(s, n, if r.Ok? then PublishSession(r.value.0) else Idle, range, listen)
  {
    hide WorkerInv, Intercept, Delivers, ParseFlowKey;
    InterceptCorrect(s, range, listen, io, packet, quicWorker, quicFlowId, now, clock);
    var (n, r) := Intercept(s, io, packet, quicWorker, quicFlowId, now, clock);
    if r.Ok? {
      assert ForwardStep(s, n, PublishSession(r.value.0));
      assert TaskFits(n, PublishSession(r.value.0));
    } else {
      assert ForwardStep(s, n, Idle);
    }
  }

  lemma {:induction false} ReplyFits(s: WorkerState, range: set<U16>, listen: SocketAddr, packet: Bytes,
          expected: Nat.SessionLocator, observed: Option<IoOwner>, now: Instant)
    requires WorkerInv(s, range, listen, {})
    ensures Fits(s, ReverseFor(s, packet, expected, observed, now).0, Idle, range, listen)
  {
    hide WorkerInv, ReverseFor, Delivers, ParseFlowKey, Nat.IsReplyTo, SameOwners;
    ReverseForCorrect(s, range, listen, packet, expected, observed, now);
  }

  lemma {:induction false} LiveTransaction(s: WorkerState, range: set<U16>, listen: SocketAddr, key: TransactionKey)
    requires WorkerInv(s, range, listen, {}) && key in s.byKey
    ensures var t := s.byKey[key]; var f := t.binding.translated.Reverse();
      && f in s.byReverse && s.byReverse[f] == key
      && t.token in s.table.natTable.forward && s.table.natTable.forward[t.token] == t.binding
          && t.token !in s.table.sessions
  {
    hide Inv, Index, AllReady, Remembers, TxDue;
    TokensAreNoSessions(s, range, listen);
    assert OwnsToken(s, s.byKey[key]);
    assert s.byKey[key].Answer() in s.byReverse;
  }

  lemma {:induction false} QueryFits(s: WorkerState, range: set<U16>, io: IoOwner, packet: Bytes, config: DnsConfig,
          now: Instant, clock: Instant)
    requires WorkerInv(s, range, config.listen, {}) && Small(s) && OneFamilyConfig(config)
    ensures var (n, r) := DnsQuery(s, io, packet, config, now, clock);
      Fits(s, n, if r.Ok? && r.value.Forwarded? then PublishDns(r.value.binding, r.value.token)
          else Idle, range, config.listen)
  {
    hide WorkerInv, DnsQuery, PlanQuery, ParseFlowKey, ValidateChecksums;
    DnsQueryCorrect(s, range, io, packet, config, now, clock);
    var (n, r) := DnsQuery(s, io, packet, config, now, clock);
    match PlanQuery(io, packet, config) {
      case Ok(Admit(_, _, key, _, _)) =>
        if r.Ok? && r.value.Forwarded? {
          LiveTransaction(n, range, config.listen, key);
        }
      case _ =>
    }
  }

  /** An ended transaction's token has no binding any more. */
  lemma {:induction false} TokenDies(s: WorkerState, n: WorkerState, range: set<U16>, listen: SocketAddr,
          keys: set<TransactionKey>, key: TransactionKey)
    requires WorkerInv(s, range, listen, {}) && WorkerInv(n, range, listen, {}) && Ends(s, n, keys) && key in keys
        && key in s.byKey
    ensures s.byKey[key].token !in n.table.natTable.forward
  {
    hide WorkerInv, Ends;
    var token := s.byKey[key].token;
    BindingsPartition(n, range, listen);
    LiveTransaction(s, range, listen, key);
    Unpack(s, range, listen, {});
    EndsParts(s, n, keys);
    forall k | k in n.byKey ensures n.byKey[k].token != token {
      TokensDistinct(s, k, key);
    }
  }

  lemma EndsParts(s: WorkerState, n: WorkerState, keys: set<TransactionKey>)
    requires Ends(s, n, keys)
    ensures n.byKey == s.byKey - keys && n.table.sessions == s.table.sessions && n.id == s.id && ForwardStep(s, n, Idle)
  {
  }

  lemma {:induction false} ResponseFits(s: WorkerState, range: set<U16>, listen: SocketAddr, packet: Bytes,
          clock: Instant, n: WorkerState, r: Result<Option<DnsAnswer>, FlowError>)
    requires WorkerInv(s, range, listen, {}) && Small(s) && DnsResponse(s, packet, clock, n, r)
    ensures Fits(s, n, if r.Ok? && r.value.Some? then RetireEach([(r.value.value.binding, r.value.value.token)])
        else Idle, range, listen)
  {
    hide WorkerInv, DnsResponse, ResponsePacket, ParseFlowKey, ValidateChecksums, UdpPayload, Refuses,
      DnsWire.ResponseMatchesQuery;
    DnsResponseCorrect(s, range, listen, packet, clock, n, r);
  }

  lemma {:induction false} SessionsRemovedFit(s: WorkerState, n: WorkerState, range: set<U16>, listen: SocketAddr,
          ids: set<SessionId>, task: Task)
    requires WorkerInv(n, range, listen, {}) && n.id == s.id
        && n.table.natTable.forward == s.table.natTable.forward - ids
    requires task.Idle? || (task.RetireEach? && forall i :: 0 <= i < |task.items| ==> task.items[i].1 in ids)
    ensures Fits(s, n, task, range, listen)
  {
    hide WorkerInv;
  }

  lemma EntryIds(t: TableState, range: set<U16>)
    requires Inv(t, range, {})
    ensures forall id :: id in t.sessions ==>
        t.sessions[id].id == id && id in t.natTable.forward && t.natTable.forward[id] == t.sessions[id].binding
  {
  }

  lemma {:induction false} ExpireSessionsFits(s: WorkerState, range: set<U16>, listen: SocketAddr, now: Instant,
          removals: seq<Ending<SessionId>>)
    requires WorkerInv(s, range, listen, {}) && Enumerates(removals, DueSessions(s.table, now))
    ensures var (t, r) := ExpireIdle(s.table, s.id, now, removals);
      r.Ok? && Fits(s, s.(table := t), RetireEach(Sessions(r.value)), range, listen)
  {
    hide WorkerInv, Inv, ExpireIdle, Evolves, SameOwners, Fits;
    ExpireSessionsStep(s, range, listen, now, removals);
    TableInv(s, range, listen);
    EntryIds(s.table, range);
    ExpireIdleCorrect(s.table, range, now, removals);
    var (t, r) := ExpireIdle(s.table, s.id, now, removals);
    var due := DueSessions(s.table, now);
    forall i | 0 <= i < |Sessions(r.value)| ensures Sessions(r.value)[i].1 in due {
      assert removals[i].key in due;
    }
    SessionsRemovedFit(s, s.(table := t), range, listen, due, RetireEach(Sessions(r.value)));
  }

  lemma {:induction false} DropFits(s: WorkerState, range: set<U16>, listen: SocketAddr, id: SessionId, clock: Instant)
    requires WorkerInv(s, range, listen, {})
    ensures var (t, r) := Remove(s.table, s.id, id, clock); var n := s.(table := t);
      && Fits(s, n, if r.Ok? then RetireEach([(r.value.binding, id)]) else Idle, range, listen)
      && id !in n.table.sessions && (r.Ok? ==> n.table.natTable.forward == s.table.natTable.forward - {id})
  {
    hide WorkerInv, Inv, Remove, Evolves, SameOwners, Fits;
    DropSessionStep(s, range, listen, id, clock);
    TableInv(s, range, listen);
    RemoveKeepsInv(s.table, range, {}, s.id, id, clock);
    var (t, r) := Remove(s.table, s.id, id, clock);
    assert s.table.natTable.forward - {} == s.table.natTable.forward;
    SessionsRemovedFit(s, s.(table := t), range, listen, if r.Ok? then {id} else {}, if r.Ok? then
        RetireEach([(r.value.binding, id)]) else Idle);
  }

  lemma {:induction false} RebindFits(s: WorkerState, range: set<U16>, listen: SocketAddr, before: U64, after: U64)
    requires WorkerInv(s, range, listen, {})
    ensures Fits(s, s.(table := RebindQuicFlow(s.table, s.id, before, after).0), Idle, range, listen)
  {
    hide WorkerInv, Inv, RebindQuicFlow, Evolves, SameOwners;
    RebindStep(s, range, listen, before, after);
    TableInv(s, range, listen);
    RebindKeepsInv(s.table, range, s.id, before, after);
  }

  ghost predicate TokenOfOne(s: WorkerState, keys: set<TransactionKey>, token: SessionId) {
    exists k :: k in keys && k in s.byKey && token == s.byKey[k].token
  }

  lemma {:induction false} EndingFits(s: WorkerState, n: WorkerState, range: set<U16>, listen: SocketAddr,
          keys: set<TransactionKey>, items: seq<(Nat.NatBinding, SessionId)>)
    requires WorkerInv(s, range, listen, {}) && WorkerInv(n, range, listen, {}) && Ends(s, n, keys)
    requires forall i :: 0 <= i < |items| ==> TokenOfOne(s, keys, items[i].1)
    ensures Fits(s, n, RetireEach(items), range, listen) && Fits(s, n, Idle, range, listen)
  {
    hide WorkerInv, Ends;
    EndsParts(s, n, keys);
    forall i | 0 <= i < |items| ensures items[i].1 !in n.table.natTable.forward {
      assert TokenOfOne(s, keys, items[i].1);
      var k :| k in keys && k in s.byKey && items[i].1 == s.byKey[k].token;
      TokenDies(s, n, range, listen, keys, k);
    }
  }

  lemma {:induction false} TimeOutFits(s: WorkerState, range: set<U16>, listen: SocketAddr, now: Instant,
          endings: seq<Ending<TransactionKey>>)
    requires WorkerInv(s, range, listen, {}) && Enumerates(endings, DueTransactions(s, now))
    ensures var (n, r) := ExpireDns(s, now, endings, listen);
      r.Ok? && Fits(s, n, RetireEach(Transactions(r.value)), range, listen)
  {
    hide WorkerInv, ExpireDns, Ends, Fits, ValidateChecksums, Refuses;
    ExpireDnsCorrect(s, range, listen, now, endings);
    var (n, r) := ExpireDns(s, now, endings, listen);
    var due := DueTransactions(s, now);
    var items := Transactions(r.value);
    forall i | 0 <= i < |items| ensures TokenOfOne(s, due, items[i].1) {
      assert endings[i].key in due;
      assert items[i].1 == s.byKey[endings[i].key].token;
    }
    EndingFits(s, n, range, listen, due, items);
  }

  lemma {:induction false} AbortRemoteFits(s: WorkerState, range: set<U16>, listen: SocketAddr,
          endings: seq<Ending<TransactionKey>>)
    requires WorkerInv(s, range, listen, {}) && Enumerates(endings, RemoteTransactions(s))
    ensures Fits(s, EndAll(s, endings, listen).0, Idle, range, listen)
  {
    hide WorkerInv, EndAll, Ends, Fits, AnswersClient, Enumerates, Evolves, SameOwners;
    AbortRemoteCorrect(s, range, listen, endings);
    EndingFits(s, EndAll(s, endings, listen).0, range, listen, RemoteTransactions(s), []);
  }

  lemma {:induction false} CallFits(s: WorkerState, op: Op, n: WorkerState, task: Task, range: set<U16>,
          listen: SocketAddr)
    requires WorkerInv(s, range, listen, {}) && Small(s) && Called(s, op, n, task, listen)
    ensures Fits(s, n, task, range, listen)
  {
    hide WorkerInv, Small, Fits, Intercept, ReverseFor, DnsQuery, DnsResponse, Enumerates, ExpireIdle, Remove,
      RebindQuicFlow, ExpireDns, EndAll, OneFamilyConfig, Sessions, Transactions;
    match op {
      case Inner(io, packet, quicWorker, quicFlowId, now, clock) =>
          InnerFits(s, range, listen, io, packet, quicWorker, quicFlowId, now, clock);
      case Reply(packet, expected, observed, now) => ReplyFits(s, range, listen, packet, expected, observed, now);
      case Query(io, packet, config, now, clock) => QueryFits(s, range, io, packet, config, now, clock);
      case Response(packet, clock) =>
        var r :| DnsResponse(s, packet, clock, n, r)
                 && task == if r.Ok? && r.value.Some? then RetireEach([(r.value.value.binding, r.value.value.token)])
                     else Idle;
        ResponseFits(s, range, listen, packet, clock, n, r);
      case ExpireSessions(now, removals) => ExpireSessionsFits(s, range, listen, now, removals);
      case DropSession(id, clock) => DropFits(s, range, listen, id, clock);
      case Rebind(before, after) => RebindFits(s, range, listen, before, after);
      case TimeOut(now, endings) => TimeOutFits(s, range, listen, now, endings);
      case Abort(_, _) =>
      case AbortRemote(endings) => AbortRemoteFits(s, range, listen, endings);
    }
  }

  lemma {:induction false} CallKeeps(y: System, w: nat, op: Op, s: WorkerState, task: Task, c: Config)
    requires SystemInv(y, c) && w < c.count && Small(y.workers[w]) && y.tasks[w].Idle?
    requires Called(y.workers[w], op, s, task, c.listen)
    ensures SystemInv(Update(y, w, s, task, y.dir), c)
  {
    hide WorkerInv, Small, Called, TaskFits, Owned;
    var was := y.workers[w];
    assert WorkerFits(y.dir, was, y.tasks[w], w, c);
    CallFits(was, op, s, task, c.Slice(w), c.listen);
    forall id | id in s.table.natTable.forward ensures task.Publishes(id) || Published(y.dir, s, id) {
      if !task.Publishes(id) { assert Published(y.dir, was, id); }
    }
    UpdateKeeps(y, w, s, task, y.dir, c);
  }

  // ---- Directory accesses ----

  /** A live binding uses a port of its worker's slice. */
  lemma {:induction false} BindingPort(s: WorkerState, range: set<U16>, listen: SocketAddr, id: SessionId)
    requires WorkerInv(s, range, listen, {}) && id in s.table.natTable.forward
    ensures Nat.TuplePort(Nat.ReturnTuple(s.table.natTable.forward[id].translated)) in range
  {
    hide WorkerInv, Inv;
    TableInv(s, range, listen);
    NatPart(s.table, range);
    var t := s.table.natTable;
    assert t.forward[id].translated.sourcePort in t.LivePorts();
  }

  /** Whatever entry a publication meets belongs to the publishing worker itself. */
  lemma {:induction false} NeverAnothersEntry(y: System, c: Config, w: nat, id: SessionId)
    requires SystemInv(y, c) && w < c.count && id in y.workers[w].table.natTable.forward
    ensures var k := Nat.ReturnTuple(y.workers[w].table.natTable.forward[id].translated);
      k in y.dir ==> y.dir[k].flowWorkerId == w
  {
    hide WorkerInv, TaskFits, LivePublished;
    assert WorkerFits(y.dir, y.workers[w], y.tasks[w], w, c);
    BindingPort(y.workers[w], c.Slice(w), c.listen, id);
    Ports.SlicesPartition(c.start, c.end, c.count);
  }

  lemma {:induction false} PublishKeeps(y: System, c: Config, w: nat, id: SessionId)
    requires SystemInv(y, c) && w < c.count && id in y.workers[w].table.natTable.forward && y.tasks[w].Publishes(id)
    ensures var s := y.workers[w]; var b := s.table.natTable.forward[id];
      var (d, r) := Nat.Publish(y.dir, b, Nat.SessionLocator(w, id));
      && Owned(d, c) && Kept(y.dir, d, w, s.table.natTable.forward.Keys)
      && (r.Ok? ==> LivePublished(d, s, Idle))
      && (r.Err? ==> d == y.dir)
  {
    hide WorkerInv, TaskFits;
    var s := y.workers[w];
    assert WorkerFits(y.dir, s, y.tasks[w], w, c);
    BindingPort(s, c.Slice(w), c.listen, id);
    var (d, r) := Nat.Publish(y.dir, s.table.natTable.forward[id], Nat.SessionLocator(w, id));
    if r.Ok? {
      forall x | x in s.table.natTable.forward ensures Published(d, s, x) {
        if x != id { assert Published(y.dir, s, x); }
      }
    }
  }

  /** Undoing a refused publication leaves only published bindings. */
  lemma {:induction false} UndoKeeps(dir: Nat.Directory, s: WorkerState, n: WorkerState, task: Task, id: SessionId,
          range: set<U16>, listen: SocketAddr)
    requires LivePublished(dir, s, task) && Fits(s, n, Idle, range, listen)
    requires id !in n.table.natTable.forward && (forall x :: task.Publishes(x) ==> x == id)
    ensures LivePublished(dir, n, Idle)
  {
    hide WorkerInv, TaskFits;
    forall x | x in n.table.natTable.forward ensures Published(dir, n, x) {
      assert Published(dir, s, x);
    }
  }

  lemma {:induction false} PublishSessionKeeps(y: System, c: Config, w: nat, clock: Instant)
    requires SystemInv(y, c) && w < c.count && y.tasks[w].PublishSession?
    ensures var (s, task, d) := Proceed(y.workers[w], y.tasks[w], y.dir, c.listen, clock);
      SystemInv(Update(y, w, s, task, d), c)
  {
    hide WorkerInv, Owned, Kept, LivePublished, Nat.Publish, Inv, Remove, Config.Slice;
    var was := y.workers[w];
    var id := y.tasks[w].id;
    assert WorkerFits(y.dir, was, y.tasks[w], w, c);
    TableInv(was, c.Slice(w), c.listen);
    EntryIds(was.table, c.Slice(w));
    PublishKeeps(y, c, w, id);
    var (s, task, d) := Proceed(was, y.tasks[w], y.dir, c.listen, clock);
    if Nat.Publish(y.dir, was.table.sessions[id].binding, Nat.SessionLocator(w, id)).1.Err? {
      RemovalFits(was, c.Slice(w), c.listen, id, clock);
      UndoKeeps(y.dir, was, s, y.tasks[w], id, c.Slice(w), c.listen);
      SameDirectory(y.dir, w, s.table.natTable.forward.Keys);
    }
    UpdateKeeps(y, w, s, task, d, c);
  }

  lemma {:induction false} RemovalFits(s: WorkerState, range: set<U16>, listen: SocketAddr, id: SessionId,
          clock: Instant)
    requires WorkerInv(s, range, listen, {}) && id in s.table.sessions
    ensures var n := s.(table := Remove(s.table, s.id, id, clock).0);
      Fits(s, n, Idle, range, listen) && id !in n.table.natTable.forward
  {
    hide WorkerInv, Remove, Evolves, SameOwners;
    DropSessionStep(s, range, listen, id, clock);
    DropFits(s, range, listen, id, clock);
  }

  lemma SameDirectory(dir: Nat.Directory, w: nat, live: set<SessionId>)
    ensures Kept(dir, dir, w, live)
  {
  }

  /** Aborting the transaction being published. */
  lemma {:induction false} AbortFits(s: WorkerState, range: set<U16>, listen: SocketAddr, binding: Nat.NatBinding,
          token: SessionId, clock: Instant)
    requires WorkerInv(s, range, listen, {}) && TaskFits(s, PublishDns(binding, token))
    ensures Fits(s, AbortDns(s, binding, listen, clock).0, Idle, range, listen)
    ensures token !in AbortDns(s, binding, listen, clock).0.table.natTable.forward
  {
    hide WorkerInv, AbortDns, Ends, Fits, AnswersClient, Evolves, SameOwners;
    AbortCorrect(s, range, listen, binding, clock);
    var key := s.byReverse[binding.translated.Reverse()];
    var n := AbortDns(s, binding, listen, clock).0;
    TokenDies(s, n, range, listen, {key}, key);
    EndingFits(s, n, range, listen, {key}, []);
  }

  lemma {:induction false} PublishDnsKeeps(y: System, c: Config, w: nat, clock: Instant)
    requires SystemInv(y, c) && w < c.count && y.tasks[w].PublishDns?
    ensures var (s, task, d) := Proceed(y.workers[w], y.tasks[w], y.dir, c.listen, clock);
      SystemInv(Update(y, w, s, task, d), c)
  {
    hide WorkerInv, Owned, Kept, LivePublished, Nat.Publish, Inv, AbortDns;
    var was := y.workers[w];
    var (binding, token) := (y.tasks[w].binding, y.tasks[w].token);
    assert WorkerFits(y.dir, was, y.tasks[w], w, c);
    LiveTransaction(was, c.Slice(w), c.listen, was.byReverse[binding.translated.Reverse()]);
    PublishKeeps(y, c, w, token);
    var (s, task, d) := Proceed(was, y.tasks[w], y.dir, c.listen, clock);
    if Nat.Publish(y.dir, binding, Nat.SessionLocator(w, token)).1.Err? {
      AbortFits(was, c.Slice(w), c.listen, binding, token, clock);
      UndoKeeps(y.dir, was, s, y.tasks[w], token, c.Slice(w), c.listen);
      SameDirectory(y.dir, w, s.table.natTable.forward.Keys);
    }
    UpdateKeeps(y, w, s, task, d, c);
  }

  lemma {:induction false} RetireKeeps(y: System, c: Config, w: nat, clock: Instant)
    requires SystemInv(y, c) && w < c.count && (y.tasks[w].RetireEach? || y.tasks[w].Idle?)
    ensures var (s, task, d) := Proceed(y.workers[w], y.tasks[w], y.dir, c.listen, clock);
      SystemInv(Update(y, w, s, task, d), c)
  {
    hide WorkerInv;
    var was := y.workers[w];
    assert WorkerFits(y.dir, was, y.tasks[w], w, c);
    var (s, task, d) := Proceed(was, y.tasks[w], y.dir, c.listen, clock);
    forall id | id in s.table.natTable.forward ensures Published(d, s, id) {
      assert Published(y.dir, was, id);
    }
    UpdateKeeps(y, w, s, task, d, c);
  }

  /** Every step of every worker keeps the system invariant. */
  lemma {:induction false} SystemStepKeeps(y: System, w: nat, action: Action, z: System, c: Config)
    requires SystemInv(y, c) && SystemStep(y, w, action, z, c)
    ensures SystemInv(z, c)
  {
    hide WorkerFits, Owned, Called, Proceed, Small;
    match action {
      case Call(op) => CallKeeps(y, w, op, z.workers[w], z.tasks[w], c);
      case Access(clock) =>
        match y.tasks[w] {
          case PublishSession(_) => PublishSessionKeeps(y, c, w, clock);
          case PublishDns(_, _) => PublishDnsKeeps(y, c, w, clock);
          case _ => RetireKeeps(y, c, w, clock);
        }
    }
  }

  // ---- Runs ----

  datatype Move = Move(worker: nat, action: Action)

  ghost predicate IsSystemRun(states: seq<System>, moves: seq<Move>, c: Config) {
    && |states| == |moves| + 1
    && forall i :: 0 <= i < |moves| ==> SystemStep(states[i], moves[i].worker, moves[i].action, states[i + 1], c)
  }

  /** The system at start-up: fresh workers over their slices and an empty directory. */
  ghost predicate Starts(y: System, c: Config) {
    && c.Valid() && |y.workers| == |y.tasks| == c.count && y.dir == map[]
    && forall w :: 0 <= w < c.count ==>
         && y.tasks[w] == Idle && y.workers[w].table.natTable.forward == map[]
         && y.workers[w] == FreshWorker(w, y.workers[w].table.natTable)
             && Nat.Inv(y.workers[w].table.natTable, c.Slice(w))
  }

  lemma {:induction false} StartsFit(y: System, c: Config)
    requires Starts(y, c)
    ensures SystemInv(y, c)
  {
    hide WorkerInv, Nat.Inv, FreshWorker;
    forall w | 0 <= w < c.count ensures WorkerFits(y.dir, y.workers[w], y.tasks[w], w, c) {
      FreshWorkerInv(w, y.workers[w].table.natTable, c.Slice(w), c.listen);
      FreshId(w, y.workers[w].table.natTable);
    }
  }

  lemma FreshId(w: nat, natTable: Nat.NatState)
    ensures FreshWorker(w, natTable).id == w
  {
  }

  /** The invariant holds throughout every interleaving. */
  lemma {:induction false} SystemRun(states: seq<System>, moves: seq<Move>, c: Config, i: nat)
    requires IsSystemRun(states, moves, c) && Starts(states[0], c) && i < |states|
    ensures SystemInv(states[i], c)
  {
    hide SystemStep, SystemInv, Starts;
    if i == 0 {
      StartsFit(states[0], c);
    } else {
      SystemRun(states, moves, c, i - 1);
      SystemStepKeeps(states[i - 1], moves[i - 1].worker, moves[i - 1].action, states[i], c);
    }
  }

  /** In every interleaving every directory entry names the worker owning its NAT port, and a
      publication never meets another worker's entry. */
  lemma {:induction false} DirectoryOwnership(states: seq<System>, moves: seq<Move>, c: Config, i: nat)
    requires IsSystemRun(states, moves, c) && Starts(states[0], c) && i < |states|
    ensures c.Valid() && |states[i].workers| == |states[i].tasks| == c.count && Owned(states[i].dir, c)
    ensures forall w, id :: 0 <= w < c.count && id in states[i].workers[w].table.natTable.forward ==>
      var k := Nat.ReturnTuple(states[i].workers[w].table.natTable.forward[id].translated);
      k in states[i].dir ==> states[i].dir[k].flowWorkerId == w
  {
    hide IsSystemRun, WorkerFits, Starts;
    SystemRun(states, moves, c, i);
    forall w, id | 0 <= w < c.count && id in states[i].workers[w].table.natTable.forward
      ensures var k := Nat.ReturnTuple(states[i].workers[w].table.natTable.forward[id].translated);
        k in states[i].dir ==> states[i].dir[k].flowWorkerId == w
    {
      NeverAnothersEntry(states[i], c, w, id);
    }
  }

  /** At a message boundary of worker `w`, every reply to a live binding looks up to that binding's
      own locator. */
  lemma {:induction false} BoundaryLookup(states: seq<System>, moves: seq<Move>, c: Config, i: nat, w: nat,
          id: SessionId, reply: FlowKey)
    requires IsSystemRun(states, moves, c) && Starts(states[0], c) && i < |states|
    requires w < |states[i].workers| == |states[i].tasks| && states[i].tasks[w].Idle?
    requires id in states[i].workers[w].table.natTable.forward
    requires Nat.IsReplyTo(reply, states[i].workers[w].table.natTable.forward[id].translated)
    ensures Nat.Lookup(states[i].dir, reply) == Some(Nat.SessionLocator(w, id))
  {
    hide IsSystemRun, Starts, WorkerInv, TaskFits, Owned;
    SystemRun(states, moves, c, i);
    assert WorkerFits(states[i].dir, states[i].workers[w], states[i].tasks[w], w, c);
    assert Published(states[i].dir, states[i].workers[w], id);
  }

  /** At a message boundary of worker `w`, a forwardable reply to a live session of it is looked up to
      `w`, and `w` restores it exactly when its queue lets it through, to the queue it was observed on
      or else to the recorded one. */
  lemma {:induction false} ReplyRouted(states: seq<System>, moves: seq<Move>, c: Config, i: nat, w: nat, id: SessionId,
          packet: Bytes, observed: Option<IoOwner>, now: Instant)
    requires IsSystemRun(states, moves, c) && Starts(states[0], c) && i < |states|
    requires w < |states[i].workers| == |states[i].tasks| && states[i].tasks[w].Idle?
    requires id in states[i].workers[w].table.sessions
    requires PrepareSpec(packet).Ok? && ParseFlowKey(packet).Ok?
    requires Nat.IsReplyTo(ParseFlowKey(packet).value, states[i].workers[w].table.sessions[id].binding.translated)
    ensures var s := states[i].workers[w]; var e := s.table.sessions[id];
      var locator := Nat.Lookup(states[i].dir, ParseFlowKey(packet).value);
      && locator.Some? && locator.value.flowWorkerId == w
      && var r := ReverseFor(s, packet, locator.value, observed, now).1;
      && r.Ok? && (r.value.Some? <==> Admits(e.interceptIo, observed))
      && (r.value.Some? ==>
            && r.value.value.id == id && r.value.value.target == (if observed.None? then e.interceptIo
                else observed.value)
            && Delivers(packet, r.value.value.packet, RestoredFlow(e.original, ParseFlowKey(packet).value)))
  {
    hide IsSystemRun, Starts, WorkerInv, TaskFits, Owned, Nat.IsReplyTo, Delivers, ParseFlowKey, PrepareSpec,
      ReverseFor, RestoredFlow, Inv, Nat.Lookup, Settles;
    SystemRun(states, moves, c, i);
    var s := states[i].workers[w];
    assert WorkerFits(states[i].dir, s, states[i].tasks[w], w, c);
    TableInv(s, c.Slice(w), c.listen);
    EntryIds(s.table, c.Slice(w));
    BoundaryLookup(states, moves, c, i, w, id, ParseFlowKey(packet).value);
    ReplyReachesOwner(s, c.Slice(w), c.listen, packet, id, observed, now);
  }

  // ---- When the directory is exact ----

  /** The entry is about to be retired. */
  ghost predicate Retiring(task: Task, k: FlowKey, id: SessionId) {
    task.RetireEach? && exists i :: 0 <= i < |task.items| && RetiresAt(task.items[i], k, id)
  }

  ghost predicate RetiresAt(item: (Nat.NatBinding, SessionId), k: FlowKey, id: SessionId) {
    item.1 == id && Nat.ReturnTuple(item.0.translated) == k
  }

  ghost predicate Bound(s: WorkerState, k: FlowKey, id: SessionId) {
    id in s.table.natTable.forward && Nat.ReturnTuple(s.table.natTable.forward[id].translated) == k
  }

  /** Every directory entry is that of a live binding or is about to be retired. */
  ghost predicate Exact(y: System) {
    && |y.workers| == |y.tasks|
    && forall k :: k in y.dir ==> Entitled(y, k, y.dir[k])
  }

  ghost predicate Entitled(y: System, k: FlowKey, l: Nat.SessionLocator)
    requires |y.workers| == |y.tasks|
  {
    l.flowWorkerId < |y.workers|
        && (Bound(y.workers[l.flowWorkerId], k, l.sessionId) || Retiring(y.tasks[l.flowWorkerId], k, l.sessionId))
  }

  /** A call accounts for every binding it ends. */
  ghost predicate Accounts(s: WorkerState, n: WorkerState, task: Task) {
    forall id :: id in s.table.natTable.forward ==>
      var k := Nat.ReturnTuple(s.table.natTable.forward[id].translated); Bound(n, k, id) || Retiring(task, k, id)
  }

  lemma SameForwardAccounts(s: WorkerState, n: WorkerState, task: Task)
    requires forall id :: id in s.table.natTable.forward ==>
        id in n.table.natTable.forward && n.table.natTable.forward[id] == s.table.natTable.forward[id]
    ensures Accounts(s, n, task)
  {
  }

  lemma {:induction false} InnerAccounts(s: WorkerState, range: set<U16>, listen: SocketAddr, io: IoOwner,
          packet: Bytes, quicWorker: nat, quicFlowId: U64, now: Instant, clock: Instant, task: Task)
    requires WorkerInv(s, range, listen, {}) && Small(s)
    ensures Accounts(s, Intercept(s, io, packet, quicWorker, quicFlowId, now, clock).0, task)
  {
    hide WorkerInv, Intercept, Delivers, ParseFlowKey, Inv, Accounts;
    InterceptCorrect(s, range, listen, io, packet, quicWorker, quicFlowId, now, clock);
    TableInv(s, range, listen);
    NextIdFree(s.table, range);
    SameForwardAccounts(s, Intercept(s, io, packet, quicWorker, quicFlowId, now, clock).0, task);
  }

  lemma {:induction false} ReplyAccounts(s: WorkerState, range: set<U16>, listen: SocketAddr, packet: Bytes,
          expected: Nat.SessionLocator, observed: Option<IoOwner>, now: Instant, task: Task)
    requires WorkerInv(s, range, listen, {})
    ensures Accounts(s, ReverseFor(s, packet, expected, observed, now).0, task)
  {
    hide WorkerInv, ReverseFor, Delivers, ParseFlowKey, Nat.IsReplyTo, SameOwners;
    ReverseForCorrect(s, range, listen, packet, expected, observed, now);
  }

  lemma {:induction false} QueryAccounts(s: WorkerState, range: set<U16>, io: IoOwner, packet: Bytes, config: DnsConfig,
          now: Instant, clock: Instant, task: Task)
    requires WorkerInv(s, range, config.listen, {}) && Small(s) && OneFamilyConfig(config)
    ensures Accounts(s, DnsQuery(s, io, packet, config, now, clock).0, task)
  {
    hide WorkerInv, DnsQuery, PlanQuery, ParseFlowKey, ValidateChecksums, Accounts, Inv, Tokens, Index, TxIndex,
      Remembers, AllReady;
    DnsQueryCorrect(s, range, io, packet, config, now, clock);
    Unpack(s, range, config.listen, {});
    TokenIsFree(s, range);
    SameForwardAccounts(s, DnsQuery(s, io, packet, config, now, clock).0, task);
  }

  lemma {:induction false} RemovedAccounts(s: WorkerState, n: WorkerState, ids: set<SessionId>,
          items: seq<(Nat.NatBinding, SessionId)>)
    requires n.table.natTable.forward == s.table.natTable.forward - ids
    requires forall id :: id in ids && id in s.table.natTable.forward ==>
        Listed(items, s.table.natTable.forward[id], id)
    ensures Accounts(s, n, RetireEach(items))
  {
    forall id | id in s.table.natTable.forward
      ensures var k := Nat.ReturnTuple(s.table.natTable.forward[id].translated);
          Bound(n, k, id) || Retiring(RetireEach(items), k, id)
    {
      if id in ids {
        assert Listed(items, s.table.natTable.forward[id], id);
        ListedRetires(items, s.table.natTable.forward[id], id);
      }
    }
  }

  ghost predicate Listed(items: seq<(Nat.NatBinding, SessionId)>, b: Nat.NatBinding, id: SessionId) {
    exists i :: 0 <= i < |items| && items[i] == (b, id)
  }

  lemma ListedRetires(items: seq<(Nat.NatBinding, SessionId)>, b: Nat.NatBinding, id: SessionId)
    requires Listed(items, b, id)
    ensures Retiring(RetireEach(items), Nat.ReturnTuple(b.translated), id)
  {
    var i :| 0 <= i < |items| && items[i] == (b, id);
    assert RetiresAt(items[i], Nat.ReturnTuple(b.translated), id);
  }

  lemma {:induction false} ResponseAccounts(s: WorkerState, range: set<U16>, listen: SocketAddr, packet: Bytes,
          clock: Instant, n: WorkerState, r: Result<Option<DnsAnswer>, FlowError>)
    requires WorkerInv(s, range, listen, {}) && Small(s) && DnsResponse(s, packet, clock, n, r)
    ensures Accounts(s, n, if r.Ok? && r.value.Some? then RetireEach([(r.value.value.binding, r.value.value.token)])
        else Idle)
  {
    hide WorkerInv, DnsResponse, ResponsePacket, ParseFlowKey, ValidateChecksums, UdpPayload, Refuses,
      DnsWire.ResponseMatchesQuery, Accounts;
    DnsResponseCorrect(s, range, listen, packet, clock, n, r);
    if r.Ok? && r.value.Some? {
      var x := r.value.value;
      var key := s.byReverse[ResponsePacket(packet).value.value.1];
      LiveTransaction(s, range, listen, key);
      assert [(x.binding, x.token)][0] == (x.binding, x.token);
      RemovedAccounts(s, n, {x.token}, [(x.binding, x.token)]);
    } else {
      SameForwardAccounts(s, n, Idle);
    }
  }

  lemma {:induction false} ExpireSessionsAccounts(s: WorkerState, range: set<U16>, listen: SocketAddr, now: Instant,
          removals: seq<Ending<SessionId>>)
    requires WorkerInv(s, range, listen, {}) && Enumerates(removals, DueSessions(s.table, now))
    ensures var (t, r) := ExpireIdle(s.table, s.id, now, removals);
      r.Ok? && Accounts(s, s.(table := t), RetireEach(Sessions(r.value)))
  {
    hide WorkerInv, Inv, ExpireIdle, Accounts;
    TableInv(s, range, listen);
    EntryIds(s.table, range);
    ExpireIdleCorrect(s.table, range, now, removals);
    var (t, r) := ExpireIdle(s.table, s.id, now, removals);
    var due := DueSessions(s.table, now);
    var items := Sessions(r.value);
    forall id | id in due ensures Listed(items, s.table.natTable.forward[id], id) {
      var i :| 0 <= i < |removals| && removals[i].key == id;
      assert items[i] == (s.table.natTable.forward[id], id);
    }
    RemovedAccounts(s, s.(table := t), due, items);
  }

  lemma {:induction false} DropAccounts(s: WorkerState, range: set<U16>, listen: SocketAddr, id: SessionId,
          clock: Instant)
    requires WorkerInv(s, range, listen, {})
    ensures var (t, r) := Remove(s.table, s.id, id, clock);
      Accounts(s, s.(table := t), if r.Ok? then RetireEach([(r.value.binding, id)]) else Idle)
  {
    hide WorkerInv, Inv, Remove, Accounts;
    TableInv(s, range, listen);
    EntryIds(s.table, range);
    RemoveKeepsInv(s.table, range, {}, s.id, id, clock);
    var (t, r) := Remove(s.table, s.id, id, clock);
    if r.Ok? {
      assert [(r.value.binding, id)][0] == (s.table.natTable.forward[id], id);
      RemovedAccounts(s, s.(table := t), {id}, [(r.value.binding, id)]);
    } else {
      SameForwardAccounts(s, s, Idle);
    }
  }

  lemma {:induction false} RebindAccounts(s: WorkerState, range: set<U16>, listen: SocketAddr, before: U64, after: U64,
          task: Task)
    requires WorkerInv(s, range, listen, {})
    ensures Accounts(s, s.(table := RebindQuicFlow(s.table, s.id, before, after).0), task)
  {
    hide WorkerInv, Inv, RebindQuicFlow;
    TableInv(s, range, listen);
    RebindKeepsInv(s.table, range, s.id, before, after);
  }

  /** The bindings that ending transactions removes are those of their tokens. */
  lemma {:induction false} EndedBindings(s: WorkerState, n: WorkerState, range: set<U16>, listen: SocketAddr,
          keys: set<TransactionKey>, id: SessionId)
    requires WorkerInv(s, range, listen, {}) && WorkerInv(n, range, listen, {}) && Ends(s, n, keys)
    requires id in s.table.natTable.forward && id !in n.table.natTable.forward
    ensures TokenOfOne(s, keys, id)
  {
    hide WorkerInv, Ends;
    EndsParts(s, n, keys);
    BindingsPartition(s, range, listen);
    BindingsPartition(n, range, listen);
    var k :| k in s.byKey && s.byKey[k].token == id;
    NotItsToken(n, id);
    assert k !in n.byKey;
  }

  lemma NotItsToken(n: WorkerState, id: SessionId)
    requires id !in (set j | j in n.byKey :: n.byKey[j].token)
    ensures forall j :: j in n.byKey ==> n.byKey[j].token != id
  {
  }

  lemma {:induction false} TimeOutAccounts(s: WorkerState, range: set<U16>, listen: SocketAddr, now: Instant,
          endings: seq<Ending<TransactionKey>>)
    requires WorkerInv(s, range, listen, {}) && Enumerates(endings, DueTransactions(s, now))
    ensures var (n, r) := ExpireDns(s, now, endings, listen);
      r.Ok? && Accounts(s, n, RetireEach(Transactions(r.value)))
  {
    hide WorkerInv, ExpireDns, Ends, ValidateChecksums, Refuses, Accounts, TokenOfOne;
    ExpireDnsCorrect(s, range, listen, now, endings);
    var (n, r) := ExpireDns(s, now, endings, listen);
    var due := DueTransactions(s, now);
    var items := Transactions(r.value);
    EndsParts(s, n, due);
    forall i | 0 <= i < |endings| ensures items[i] == (s.byKey[endings[i].key].binding, s.byKey[endings[i].key].token) {
    }
    EndedAccounts(s, n, range, listen, due, endings, items);
  }

  lemma {:induction false} EndedAccounts(s: WorkerState, n: WorkerState, range: set<U16>, listen: SocketAddr,
          keys: set<TransactionKey>, endings: seq<Ending<TransactionKey>>, items: seq<(Nat.NatBinding, SessionId)>)
    requires WorkerInv(s, range, listen, {}) && WorkerInv(n, range, listen, {}) && Ends(s, n, keys)
    requires Enumerates(endings, keys) && |items| == |endings|
    requires forall i :: 0 <= i < |endings| ==>
        endings[i].key in s.byKey && items[i] == (s.byKey[endings[i].key].binding, s.byKey[endings[i].key].token)
    ensures Accounts(s, n, RetireEach(items))
  {
    hide WorkerInv, Ends;
    EndsParts(s, n, keys);
    forall id | id in s.table.natTable.forward
      ensures var k := Nat.ReturnTuple(s.table.natTable.forward[id].translated);
          Bound(n, k, id) || Retiring(RetireEach(items), k, id)
    {
      if id !in n.table.natTable.forward {
        EndedBindings(s, n, range, listen, keys, id);
        var key :| key in keys && key in s.byKey && id == s.byKey[key].token;
        var i :| 0 <= i < |endings| && endings[i].key == key;
        LiveTransaction(s, range, listen, key);
        assert items[i] == (s.table.natTable.forward[id], id);
        ListedRetires(items, s.table.natTable.forward[id], id);
      }
    }
  }

  /** Every call but a close with remote transactions accounts for what it ends. */
  lemma {:induction false} CallAccounts(s: WorkerState, op: Op, n: WorkerState, task: Task, range: set<U16>,
          listen: SocketAddr)
    requires WorkerInv(s, range, listen, {}) && Small(s) && Called(s, op, n, task, listen)
    requires op.AbortRemote? ==> RemoteTransactions(s) == {}
    ensures Accounts(s, n, task)
  {
    hide WorkerInv, Small, Accounts, Intercept, ReverseFor, DnsQuery, DnsResponse, Enumerates, ExpireIdle, Remove,
      RebindQuicFlow, ExpireDns, OneFamilyConfig, Sessions, Transactions;
    match op {
      case Inner(io, packet, quicWorker, quicFlowId, now, clock) =>
          InnerAccounts(s, range, listen, io, packet, quicWorker, quicFlowId, now, clock, task);
      case Reply(packet, expected, observed, now) =>
          ReplyAccounts(s, range, listen, packet, expected, observed, now, task);
      case Query(io, packet, config, now, clock) => QueryAccounts(s, range, io, packet, config, now, clock, task);
      case Response(packet, clock) =>
        var r :| DnsResponse(s, packet, clock, n, r)
                 && task == if r.Ok? && r.value.Some? then RetireEach([(r.value.value.binding, r.value.value.token)])
                     else Idle;
        ResponseAccounts(s, range, listen, packet, clock, n, r);
      case ExpireSessions(now, removals) => ExpireSessionsAccounts(s, range, listen, now, removals);
      case DropSession(id, clock) => DropAccounts(s, range, listen, id, clock);
      case Rebind(before, after) => RebindAccounts(s, range, listen, before, after, task);
      case TimeOut(now, endings) => TimeOutAccounts(s, range, listen, now, endings);
      case Abort(_, _) =>
      case AbortRemote(endings) =>
        EnumeratedEnded(endings, RemoteTransactions(s));
        assert endings == [];
        SameForwardAccounts(s, n, task);
    }
  }

  /** In an exact directory a publication always succeeds. */
  lemma {:induction false} ExactPublishes(y: System, c: Config, w: nat, id: SessionId)
    requires SystemInv(y, c) && Exact(y) && w < c.count && y.tasks[w].Publishes(id)
        && id in y.workers[w].table.natTable.forward
    ensures Nat.Publish(y.dir, y.workers[w].table.natTable.forward[id], Nat.SessionLocator(w, id)).1.Ok?
  {
    hide WorkerFits, Owned, WorkerInv, Inv;
    var s := y.workers[w];
    var k := Nat.ReturnTuple(s.table.natTable.forward[id].translated);
    if k in y.dir {
      NeverAnothersEntry(y, c, w, id);
      var other := y.dir[k].sessionId;
      assert Entitled(y, k, y.dir[k]) && !Retiring(y.tasks[w], k, other);
      SlicePart(y, c, w);
      SamePort(s.table.natTable, c.Slice(w), other, id);
    }
  }

  lemma SamePort(t: Nat.NatState, range: set<U16>, a: SessionId, b: SessionId)
    requires Nat.Inv(t, range) && a in t.forward && b in t.forward
    requires t.forward[a].translated.sourcePort == t.forward[b].translated.sourcePort
    ensures a == b
  {
  }

  lemma SlicePart(y: System, c: Config, w: nat)
    requires SystemInv(y, c) && w < c.count
    ensures WorkerInv(y.workers[w], c.Slice(w), c.listen, {}) && y.workers[w].id == w
        && TaskFits(y.workers[w], y.tasks[w])
    ensures Nat.Inv(y.workers[w].table.natTable, c.Slice(w))
  {
    hide WorkerInv, Inv;
    assert WorkerFits(y.dir, y.workers[w], y.tasks[w], w, c);
    TableInv(y.workers[w], c.Slice(w), c.listen);
    NatPart(y.workers[w].table, c.Slice(w));
  }

  lemma {:induction false} CallExact(y: System, w: nat, op: Op, s: WorkerState, task: Task, c: Config)
    requires SystemInv(y, c) && Exact(y) && w < c.count && Small(y.workers[w]) && y.tasks[w].Idle?
    requires Called(y.workers[w], op, s, task, c.listen) && (op.AbortRemote? ==> RemoteTransactions(y.workers[w]) == {})
    ensures Exact(Update(y, w, s, task, y.dir))
  {
    hide WorkerInv, Called, Small, Bound, Retiring;
    SlicePart(y, c, w);
    CallAccounts(y.workers[w], op, s, task, c.Slice(w), c.listen);
    var z := Update(y, w, s, task, y.dir);
    forall k | k in z.dir ensures Entitled(z, k, z.dir[k]) {
      assert Entitled(y, k, y.dir[k]);
      if y.dir[k].flowWorkerId == w {
        assert !Retiring(y.tasks[w], k, y.dir[k].sessionId) by { NotRetiring(y.tasks[w], k, y.dir[k].sessionId); }
        BoundAccounted(y.workers[w], s, task, k, y.dir[k].sessionId);
      }
    }
  }

  lemma NotRetiring(task: Task, k: FlowKey, id: SessionId)
    requires !task.RetireEach?
    ensures !Retiring(task, k, id)
  {
  }

  lemma BoundAccounted(s: WorkerState, n: WorkerState, task: Task, k: FlowKey, id: SessionId)
    requires Accounts(s, n, task) && Bound(s, k, id)
    ensures Bound(n, k, id) || Retiring(task, k, id)
  {
  }

  lemma {:induction false} PublishExact(y: System, c: Config, w: nat, clock: Instant)
    requires SystemInv(y, c) && Exact(y) && w < c.count && (y.tasks[w].PublishSession? || y.tasks[w].PublishDns?)
    ensures var (s, task, d) := Proceed(y.workers[w], y.tasks[w], y.dir, c.listen, clock);
      s == y.workers[w] && Exact(Update(y, w, s, task, d))
  {
    hide WorkerInv, Inv, Remove, AbortDns, Nat.Inv, Config.Slice;
    SlicePart(y, c, w);
    var s := y.workers[w];
    var id := if y.tasks[w].PublishSession? then y.tasks[w].id else y.tasks[w].token;
    PublishedBinding(y, c, w);
    ExactPublishes(y, c, w, id);
    var b := s.table.natTable.forward[id];
    var z := Update(y, w, s, Idle, Nat.Publish(y.dir, b, Nat.SessionLocator(w, id)).0);
    forall k | k in z.dir ensures Entitled(z, k, z.dir[k]) {
      if k in y.dir {
        assert Entitled(y, k, y.dir[k]);
      }
    }
  }

  /** What a pending publication publishes is the live binding of its identifier. */
  lemma {:induction false} PublishedBinding(y: System, c: Config, w: nat)
    requires SystemInv(y, c) && w < c.count
    ensures y.tasks[w].PublishSession? ==>
      var id := y.tasks[w].id; var s := y.workers[w];
      id in s.table.sessions && id in s.table.natTable.forward
          && s.table.natTable.forward[id] == s.table.sessions[id].binding
    ensures y.tasks[w].PublishDns? ==>
      var id := y.tasks[w].token; var s := y.workers[w];
      id in s.table.natTable.forward && s.table.natTable.forward[id] == y.tasks[w].binding
  {
    hide WorkerInv, Inv, Nat.Inv, Config.Slice;
    SlicePart(y, c, w);
    var s := y.workers[w];
    TableInv(s, c.Slice(w), c.listen);
    EntryIds(s.table, c.Slice(w));
    if y.tasks[w].PublishDns? {
      LiveTransaction(s, c.Slice(w), c.listen, s.byReverse[y.tasks[w].binding.translated.Reverse()]);
    }
  }

  lemma {:induction false} RetireExact(y: System, c: Config, w: nat, clock: Instant)
    requires SystemInv(y, c) && Exact(y) && w < c.count && (y.tasks[w].Idle? || y.tasks[w].RetireEach?)
    ensures var (s, task, d) := Proceed(y.workers[w], y.tasks[w], y.dir, c.listen, clock);
      s == y.workers[w] && Exact(Update(y, w, s, task, d))
  {
    hide WorkerInv, Config.Slice, Bound;
    SlicePart(y, c, w);
    var (s, task, d) := Proceed(y.workers[w], y.tasks[w], y.dir, c.listen, clock);
    var z := Update(y, w, s, task, d);
    forall k | k in z.dir ensures Entitled(z, k, z.dir[k]) {
      assert k in y.dir && z.dir[k] == y.dir[k];
      assert Entitled(y, k, y.dir[k]);
      if y.dir[k].flowWorkerId == w && Retiring(y.tasks[w], k, y.dir[k].sessionId) {
        var items := y.tasks[w].items;
        var i :| 0 <= i < |items| && RetiresAt(items[i], k, y.dir[k].sessionId);
        assert i > 0;
        assert RetiresAt(items[1..][i - 1], k, y.dir[k].sessionId);
      }
    }
  }

  /** Unless a close hits live remote transactions, a step keeps the directory exact. */
  lemma {:induction false} StepExact(y: System, w: nat, action: Action, z: System, c: Config)
    requires SystemInv(y, c) && Exact(y) && SystemStep(y, w, action, z, c)
    requires action.Call? && action.op.AbortRemote? ==> RemoteTransactions(y.workers[w]) == {}
    ensures Exact(z)
  {
    hide WorkerFits, Owned, Called, Proceed, Small, Exact;
    match action {
      case Call(op) => CallExact(y, w, op, z.workers[w], z.tasks[w], c);
      case Access(clock) =>
        match y.tasks[w] {
          case PublishSession(_) => PublishExact(y, c, w, clock);
          case PublishDns(_, _) => PublishExact(y, c, w, clock);
          case _ => RetireExact(y, c, w, clock);
        }
    }
  }

  /** A close keeps the directory exact if and only if no remote transaction was live: the entries
      of those it aborts stay behind. */
  lemma {:induction false} CloseExactIff(y: System, w: nat, endings: seq<Ending<TransactionKey>>, z: System, c: Config)
    requires SystemInv(y, c) && Exact(y) && SystemStep(y, w, Call(AbortRemote(endings)), z, c)
    ensures Exact(z) <==> RemoteTransactions(y.workers[w]) == {}
  {
    hide WorkerInv, Small, EndAll, Enumerates, Ends, Evolves, SameOwners, Exact, Config.Slice, Nat.Inv;
    var s := y.workers[w];
    SlicePart(y, c, w);
    if RemoteTransactions(s) == {} {
      StepExact(y, w, Call(AbortRemote(endings)), z, c);
    } else {
      var key :| key in RemoteTransactions(s);
      AbortRemoteCorrect(s, c.Slice(w), c.listen, endings);
      TokenDies(s, z.workers[w], c.Slice(w), c.listen, RemoteTransactions(s), key);
      LiveTransaction(s, c.Slice(w), c.listen, key);
      StaleEntry(y, z, c, w, s.byKey[key].token);
    }
  }

  lemma StaleEntry(y: System, z: System, c: Config, w: nat, id: SessionId)
    requires SystemInv(y, c) && w < c.count && y.tasks[w].Idle? && id in y.workers[w].table.natTable.forward
    requires |z.workers| == |z.tasks| == c.count && z.dir == y.dir && z.tasks[w].Idle?
        && id !in z.workers[w].table.natTable.forward
    ensures !Exact(z)
  {
    hide WorkerInv;
    assert WorkerFits(y.dir, y.workers[w], y.tasks[w], w, c);
    assert Published(y.dir, y.workers[w], id);
    var k := Nat.ReturnTuple(y.workers[w].table.natTable.forward[id].translated);
    assert !Entitled(z, k, z.dir[k]);
  }

  /** In a run in which no close hits live remote transactions the directory is exact throughout,
      so no publication is ever refused. */
  lemma {:induction false} ExactRun(states: seq<System>, moves: seq<Move>, c: Config, i: nat)
    requires IsSystemRun(states, moves, c) && Starts(states[0], c) && i < |states|
    requires forall j ::
        0 <= j < i && moves[j].action.Call? && moves[j].action.op.AbortRemote?
        && moves[j].worker < |states[j].workers| ==>
      RemoteTransactions(states[j].workers[moves[j].worker]) == {}
    ensures SystemInv(states[i], c) && Exact(states[i])
    ensures forall w, id :: 0 <= w < c.count && states[i].tasks[w].Publishes(id) ==>
      && id in states[i].workers[w].table.natTable.forward
      && Nat.Publish(states[i].dir, states[i].workers[w].table.natTable.forward[id], Nat.SessionLocator(w, id)).1.Ok?
  {
    hide SystemInv, Starts, Exact, Nat.Publish;
    SystemRun(states, moves, c, i);
    if i == 0 {
      StartsExact(states[0], c);
    } else {
      ExactRun(states, moves, c, i - 1);
      SystemRun(states, moves, c, i - 1);
      assert SystemStep(states[i - 1], moves[i - 1].worker, moves[i - 1].action, states[i], c);
      StepWorker(states[i - 1], moves[i - 1].worker, moves[i - 1].action, states[i], c);
      StepExact(states[i - 1], moves[i - 1].worker, moves[i - 1].action, states[i], c);
    }
    Shape(states[i], c);
    forall w, id | 0 <= w < c.count && states[i].tasks[w].Publishes(id)
      ensures id in states[i].workers[w].table.natTable.forward
        && Nat.Publish(states[i].dir, states[i].workers[w].table.natTable.forward[id], Nat.SessionLocator(w, id)).1.Ok?
    {
      PublishedBinding(states[i], c, w);
      ExactPublishes(states[i], c, w, id);
    }
  }

  lemma Shape(y: System, c: Config)
    requires SystemInv(y, c)
    ensures |y.workers| == |y.tasks| == c.count
  {
  }

  lemma StepWorker(y: System, w: nat, action: Action, z: System, c: Config)
    requires SystemStep(y, w, action, z, c)
    ensures w < |y.workers|
  {
  }

  lemma StartsExact(y: System, c: Config)
    requires Starts(y, c)
    ensures Exact(y)
  {
  }
}
