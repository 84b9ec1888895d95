/** Quarantine over whole runs of a flow worker: whatever operation releases a return tuple, it is not
    bound again, by a session or a transaction, before its protocol's time has passed. */
module NatHistory {
  import opened Core
  import opened Packet
  import opened Forward
  import opened DnsFlow
  import opened Session
  import opened Worker
  import opened Runs
  import Nat
  import opened Deadlines
  import Rewrite

  /** The clock readings with which an operation allocates and releases ports, in order. */
  function Readings(op: Op): (r: seq<Instant>) {
    match op
    case Inner(_, _, _, _, _, clock) => [clock]
    case Reply(_, _, _, _) => []
    case Query(_, _, _, _, clock) => [clock]
    case Response(_, clock) => [clock]
    case ExpireSessions(_, removals) => seq(|removals|, i requires 0 <= i < |removals| => removals[i].clock)
    case DropSession(_, clock) => [clock]
    case Rebind(_, _) => []
    case TimeOut(_, endings) => Clocks(endings)
    case Abort(_, clock) => [clock]
    case AbortRemote(endings) => Clocks(endings)
  }

  function Clocks(endings: seq<Ending<TransactionKey>>): (r: seq<Instant>) {
    seq(|endings|, i requires 0 <= i < |endings| => endings[i].clock)
  }

  ghost predicate Ordered(readings: seq<Instant>, lo: Instant, hi: Instant) {
    && lo <= hi
    && (forall i :: 0 <= i < |readings| ==> lo <= readings[i] <= hi)
    && (forall i, j :: 0 <= i <= j < |readings| ==> readings[i] <= readings[j])
  }

  /** The clock never goes back: `times[i]` separates the readings before operation `i` from the rest. */
  ghost predicate Clocked(ops: seq<Op>, times: seq<Instant>) {
    |times| == |ops| + 1 && forall i :: 0 <= i < |ops| ==> Ordered(Readings(ops[i]), times[i], times[i + 1])
  }

  // ---- One table ----

  /** Between `lo` and `hi` the table forgets no guard that still matters, and a tuple it no longer binds
      is guarded for its protocol's time from `lo`. */
  ghost predicate Keeps(t: Nat.NatState, u: Nat.NatState, k: FlowKey, lo: Instant, hi: Instant) {
    && lo <= hi
    && (forall until: Instant :: Nat.Guarded(t, k, until, lo) && until <= lo + Nat.Quarantine(k.protocol) ==>
        Nat.Guarded(u, k, until, hi))
    && (k in t.reverse && k !in u.reverse ==> Nat.Guarded(u, k, lo + Nat.Quarantine(k.protocol), hi))
  }

  lemma Idles(t: Nat.NatState, k: FlowKey, lo: Instant, hi: Instant)
    requires lo <= hi
    ensures Keeps(t, t, k, lo, hi)
  {
  }

  lemma {:induction false} KeepsMore(t: Nat.NatState, u: Nat.NatState, v: Nat.NatState, k: FlowKey, lo: Instant,
          mid: Instant, hi: Instant)
    requires Keeps(t, u, k, lo, mid) && Keeps(u, v, k, mid, hi)
    ensures Keeps(t, v, k, lo, hi)
  {
    if k in t.reverse && k !in v.reverse {
      var until := lo + Nat.Quarantine(k.protocol);
      if k in u.reverse {
        assert Nat.Guarded(v, k, mid + Nat.Quarantine(k.protocol), hi);
      } else {
        assert Nat.Guarded(u, k, until, mid);
      }
    }
  }

  lemma {:induction false} ReleaseKeeps(t: Nat.NatState, id: SessionId, clock: Instant, k: FlowKey)
    ensures Keeps(t, Nat.Release(t, id, clock).0, k, clock, clock)
  {
    var u := Nat.Release(t, id, clock).0;
    forall until: Instant | Nat.Guarded(t, k, until, clock) && until <= clock + Nat.Quarantine(k.protocol)
        ensures Nat.Guarded(u, k, until, clock) {
      Nat.ApplyGuards(t, Nat.ReleaseOp(id, clock), k, until, clock);
    }
    if id in t.forward { Nat.TupleProtocol(t.forward[id].translated); }
  }

  lemma {:induction false} AllocateKeeps(t: Nat.NatState, id: SessionId, original: FlowKey, locator: Nat.SessionLocator,
          clock: Instant, k: FlowKey)
    ensures var u := Nat.Allocate(t, id, original, locator, clock).0;
      && Keeps(t, u, k, clock, clock)
      && (k !in t.reverse && k in u.reverse ==> forall until: Instant :: Nat.Guarded(t, k, until, clock) ==>
          until <= clock)
  {
    var u := Nat.Allocate(t, id, original, locator, clock).0;
    if id !in t.forward && t.SnatFor(original).Some? {
      var candidates := Nat.Candidates(t, original, t.SnatFor(original).value, clock);
      if candidates != {} {
        assert Nat.Lowest(candidates) in candidates;
      }
    }
  }

  // ---- One operation ----

  /** What an operation does to a tuple: guards are kept, and it is bound only by a packet or a query,
      when no guard is left on it. */
  ghost predicate Respects(t: Nat.NatState, op: Op, u: Nat.NatState, k: FlowKey, lo: Instant, hi: Instant) {
    && Keeps(t, u, k, lo, hi)
    && (k !in t.reverse && k in u.reverse ==>
          && (op.Inner? || op.Query?)
          && forall until: Instant :: Nat.Guarded(t, k, until, lo) && until <= lo + Nat.Quarantine(k.protocol) ==>
              until <= op.clock)
  }

  lemma {:induction false} AllocationRespects(t: Nat.NatState, op: Op, u: Nat.NatState, id: SessionId,
          original: FlowKey, locator: Nat.SessionLocator, k: FlowKey, lo: Instant, hi: Instant)
    requires (op.Inner? || op.Query?) && lo <= op.clock <= hi
    requires u == Nat.Allocate(t, id, original, locator, op.clock).0
    ensures Respects(t, op, u, k, lo, hi)
  {
    hide Nat.Allocate;
    Idles(t, k, lo, op.clock);
    AllocateKeeps(t, id, original, locator, op.clock, k);
    Idles(u, k, op.clock, hi);
    KeepsMore(t, t, u, k, lo, op.clock, op.clock);
    KeepsMore(t, u, u, k, lo, op.clock, hi);
    if k !in t.reverse && k in u.reverse {
      forall until: Instant | Nat.Guarded(t, k, until, lo) && until <= lo + Nat.Quarantine(k.protocol)
          ensures until <= op.clock {
        assert Nat.Guarded(t, k, until, op.clock);
      }
    }
  }

  lemma {:induction false} InnerRespects(s: WorkerState, op: Op, k: FlowKey, lo: Instant, hi: Instant)
    requires op.Inner? && lo <= op.clock <= hi
    ensures Respects(s.table.natTable, op, Intercept(s, op.io, op.packet, op.quicWorker, op.quicFlowId, op.now,
        op.clock).0.table.natTable, k, lo, hi)
  {
    hide PrepareSpec, ParseFlowKey, ClampMssSpec, ParseTcpFlags, Keeps, InterceptFlow, Nat.Guarded;
    Idles(s.table.natTable, k, lo, hi);
    if PrepareSpec(op.packet).Ok? && ParseFlowKey(PrepareSpec(op.packet).value).Ok?
        && ClampMssSpec(PrepareSpec(op.packet).value, TCP_MAX_SAFE_MSS).Ok? {
      var c := ClampMssSpec(PrepareSpec(op.packet).value, TCP_MAX_SAFE_MSS).value.0;
      if ParseTcpFlags(c).Ok? {
        FlowRespects(s, op, c, ParseFlowKey(PrepareSpec(op.packet).value).value, ParseTcpFlags(c).value, k, lo, hi);
      }
    }
  }

  lemma {:induction false} FlowRespects(s: WorkerState, op: Op, c: Bytes, flow: FlowKey, flags: Option<Byte>,
          k: FlowKey, lo: Instant, hi: Instant)
    requires op.Inner? && lo <= op.clock <= hi
    ensures Respects(s.table.natTable, op, InterceptFlow(s, op.io, c, flow, flags, op.quicFlowId, op.now,
        op.clock).0.table.natTable, k, lo, hi)
  {
    hide Respects, Nat.Allocate, Rewrite.RewritePacketSpec, Opening, AfterPacket, Deadlines.Insert, Deadlines.Delete;
    var t := s.table;
    if t.owner == s.id && SessionKey(flow, op.io.ifindex) !in t.byKey {
      AllocationRespects(t.natTable, op, Nat.Allocate(t.natTable, t.nextId, flow, Nat.SessionLocator(t.owner, t.nextId),
          op.clock).0,
                         t.nextId, flow, Nat.SessionLocator(t.owner, t.nextId), k, lo, hi);
    } else {
      Nothing(t.natTable, op, k, lo, hi);
    }
  }

  lemma Nothing(t: Nat.NatState, op: Op, k: FlowKey, lo: Instant, hi: Instant)
    requires lo <= hi
    ensures Respects(t, op, t, k, lo, hi)
  {
    Idles(t, k, lo, hi);
  }

  lemma {:induction false} QueryRespects(s: WorkerState, op: Op, k: FlowKey, lo: Instant, hi: Instant)
    requires op.Query? && lo <= op.clock <= hi
    ensures Respects(s.table.natTable, op, DnsQuery(s, op.io, op.packet, op.config, op.now, op.clock).0.table.natTable,
        k, lo, hi)
  {
    hide Respects, Nat.Allocate, PlanQuery, Refusal, Forwarding, Deadlines.Insert;
    Nothing(s.table.natTable, op, k, lo, hi);
    match PlanQuery(op.io, op.packet, op.config) {
      case Ok(Admit(p, flow, key, resolver, remote)) =>
        var t := s.table;
        var token := TokenOf(s.nextToken);
        var selected := Selected(flow, resolver);
        var locator := Nat.SessionLocator(t.owner, token);
        AllocationRespects(t.natTable, op, Nat.Allocate(t.natTable, token, selected, locator, op.clock).0, token,
            selected, locator, k, lo, hi);
      case _ =>
    }
  }

  lemma {:induction false} ReleaseBetween(t: Nat.NatState, id: SessionId, clock: Instant, k: FlowKey, lo: Instant,
          hi: Instant)
    requires lo <= clock <= hi
    ensures Keeps(t, Nat.Release(t, id, clock).0, k, lo, hi) && (k in Nat.Release(t, id, clock).0.reverse ==>
        k in t.reverse)
  {
    hide Keeps;
    var u := Nat.Release(t, id, clock).0;
    Idles(t, k, lo, clock);
    ReleaseKeeps(t, id, clock, k);
    Idles(u, k, clock, hi);
    KeepsMore(t, t, u, k, lo, clock, clock);
    KeepsMore(t, u, u, k, lo, clock, hi);
  }

  lemma {:induction false} RemoveBetween(s: TableState, caller: nat, id: SessionId, clock: Instant, k: FlowKey,
          lo: Instant, hi: Instant)
    requires lo <= clock <= hi
    ensures var u := Remove(s, caller, id, clock).0.natTable;
        Keeps(s.natTable, u, k, lo, hi) && (k in u.reverse ==> k in s.natTable.reverse)
  {
    hide Keeps, Nat.Release, Deadlines.Delete;
    ReleaseBetween(s.natTable, id, clock, k, lo, hi);
    Idles(s.natTable, k, lo, hi);
  }

  lemma {:induction false} RemoveAllBetween(s: TableState, caller: nat, removals: seq<Ending<SessionId>>, k: FlowKey,
          lo: Instant, hi: Instant)
    requires Ordered(seq(|removals|, i requires 0 <= i < |removals| => removals[i].clock), lo, hi)
    ensures var u := RemoveAll(s, caller, removals).0.natTable;
        Keeps(s.natTable, u, k, lo, hi) && (k in u.reverse ==> k in s.natTable.reverse)
  {
    hide Keeps, Remove;
    if |removals| == 0 {
      Idles(s.natTable, k, lo, hi);
    } else {
      var front, last := removals[..|removals| - 1], removals[|removals| - 1];
      var clocks := seq(|removals|, i requires 0 <= i < |removals| => removals[i].clock);
      assert clocks[|removals| - 1] == last.clock;
      assert seq(|front|, i requires 0 <= i < |front| => front[i].clock) == clocks[..|front|];
      RemoveAllBetween(s, caller, front, k, lo, last.clock);
      var n := RemoveAll(s, caller, front).0;
      RemoveBetween(n, caller, last.key, last.clock, k, last.clock, hi);
      Idles(n.natTable, k, last.clock, hi);
      KeepsMore(s.natTable, n.natTable, n.natTable, k, lo, last.clock, hi);
      KeepsMore(s.natTable, n.natTable, Remove(n, caller, last.key, last.clock).0.natTable, k, lo, last.clock, hi);
    }
  }

  lemma {:induction false} EndBetween(s: WorkerState, key: TransactionKey, clock: Instant, k: FlowKey, lo: Instant,
          hi: Instant)
    requires lo <= clock <= hi
    ensures var u := RemoveTransaction(s, key, clock).0.table.natTable;
      Keeps(s.table.natTable, u, k, lo, hi) && (k in u.reverse ==> k in s.table.natTable.reverse)
  {
    hide Keeps, Nat.Release, Deadlines.Delete;
    Idles(s.table.natTable, k, lo, hi);
    if key in s.byKey { ReleaseBetween(s.table.natTable, s.byKey[key].token, clock, k, lo, hi); }
  }

  lemma {:induction false} EndAllBetween(s: WorkerState, endings: seq<Ending<TransactionKey>>, listen: SocketAddr,
          k: FlowKey, lo: Instant, hi: Instant)
    requires Ordered(Clocks(endings), lo, hi)
    ensures var u := EndAll(s, endings, listen).0.table.natTable;
      Keeps(s.table.natTable, u, k, lo, hi) && (k in u.reverse ==> k in s.table.natTable.reverse)
  {
    hide Keeps, RemoveTransaction, ServfailFor;
    if |endings| == 0 {
      Idles(s.table.natTable, k, lo, hi);
    } else {
      var front, last := endings[..|endings| - 1], endings[|endings| - 1];
      assert Clocks(endings)[|endings| - 1] == last.clock;
      assert Clocks(front) == Clocks(endings)[..|front|];
      EndAllBetween(s, front, listen, k, lo, last.clock);
      var n := EndAll(s, front, listen).0;
      EndBetween(n, last.key, last.clock, k, last.clock, hi);
      Idles(n.table.natTable, k, last.clock, hi);
      KeepsMore(s.table.natTable, n.table.natTable, n.table.natTable, k, lo, last.clock, hi);
      KeepsMore(s.table.natTable, n.table.natTable, RemoveTransaction(n, last.key, last.clock).0.table.natTable, k, lo,
          last.clock, hi);
    }
  }

  lemma {:induction false} ResponseBetween(s: WorkerState, packet: Bytes, clock: Instant, n: WorkerState,
          r: Result<Option<DnsAnswer>, FlowError>, k: FlowKey, lo: Instant, hi: Instant)
    requires DnsResponse(s, packet, clock, n, r) && lo <= clock <= hi
    ensures Keeps(s.table.natTable, n.table.natTable, k, lo, hi) && (k in n.table.natTable.reverse ==>
        k in s.table.natTable.reverse)
  {
    hide Keeps, ResponsePacket, MatchFlow, RemoveTransaction, UdpPayload, AnswerPacket;
    Idles(s.table.natTable, k, lo, hi);
    match ResponsePacket(packet) {
      case Ok(Some((p, flow))) =>
        match MatchFlow(s, p, flow) {
          case Ok(Some(key)) => EndBetween(s, key, clock, k, lo, hi);
          case _ =>
        }
      case _ =>
    }
  }

  /** Every operation of the worker respects the guards. */
  lemma {:induction false} StepRespects(s: WorkerState, range: set<U16>, listen: SocketAddr, op: Op, n: WorkerState,
          k: FlowKey, lo: Instant, hi: Instant)
    requires WorkerInv(s, range, listen, {}) && Step(s, op, n, listen) && Ordered(Readings(op), lo, hi)
    ensures Respects(s.table.natTable, op, n.table.natTable, k, lo, hi)
  {
    hide WorkerInv, Keeps, Intercept, DnsQuery, DnsResponse, RemoveAll, Remove, EndAll, Clocks, Enumerates,
      OneFamilyConfig, ReverseFor, Nat.Guarded;
    match op {
      case Inner(_, _, _, _, _, clock) =>
        assert Readings(op)[0] == clock;
        InnerRespects(s, op, k, lo, hi);
      case Reply(packet, expected, observed, now) =>
        ReverseForCorrect(s, range, listen, packet, expected, observed, now);
        Idles(s.table.natTable, k, lo, hi);
      case Query(_, _, _, _, clock) =>
        assert Readings(op)[0] == clock;
        QueryRespects(s, op, k, lo, hi);
      case Response(packet, clock) =>
        assert Readings(op)[0] == clock;
        var r :| DnsResponse(s, packet, clock, n, r);
        ResponseBetween(s, packet, clock, n, r, k, lo, hi);
      case ExpireSessions(now, removals) =>
        Idles(s.table.natTable, k, lo, hi);
        RemoveAllBetween(s.table.(deadlines := Deadlines.Later(s.table.deadlines, now)), s.id, removals, k, lo, hi);
      case DropSession(id, clock) =>
        assert Readings(op)[0] == clock;
        RemoveBetween(s.table, s.id, id, clock, k, lo, hi);
      case Rebind(_, _) => Idles(s.table.natTable, k, lo, hi);
      case TimeOut(now, endings) =>
          EndAllBetween(s.(deadlines := Deadlines.Later(s.deadlines, now)), endings, listen, k, lo, hi);
      case Abort(binding, clock) => AbortBetween(s, binding, listen, clock, k, lo, hi);
      case AbortRemote(endings) => EndAllBetween(s, endings, listen, k, lo, hi);
    }
  }

  lemma {:induction false} AbortBetween(s: WorkerState, binding: Nat.NatBinding, listen: SocketAddr, clock: Instant,
          k: FlowKey, lo: Instant, hi: Instant)
    requires Ordered([clock], lo, hi)
    ensures var u := AbortDns(s, binding, listen, clock).0.table.natTable;
      Keeps(s.table.natTable, u, k, lo, hi) && (k in u.reverse ==> k in s.table.natTable.reverse)
  {
    hide Keeps, EndAll;
    Idles(s.table.natTable, k, lo, hi);
    var answer := binding.translated.Reverse();
    if answer in s.byReverse {
      var endings := [Ending(s.byReverse[answer], clock)];
      assert Clocks(endings) == [clock];
      EndAllBetween(s, endings, listen, k, lo, hi);
    }
  }

  // ---- Runs ----

  /** From its release on, a tuple is guarded until its protocol's time has passed. */
  lemma {:induction false} RunGuards(states: seq<WorkerState>, ops: seq<Op>, times: seq<Instant>, range: set<U16>,
          listen: SocketAddr, i: nat, j: nat, k: FlowKey)
    requires IsRun(states, ops, listen) && WorkerInv(states[0], range, listen, {}) && Clocked(ops, times)
        && i < j <= |ops|
    requires k in states[i].table.natTable.reverse && k !in states[i + 1].table.natTable.reverse
    ensures times[i] <= times[j]
        && Nat.Guarded(states[j].table.natTable, k, times[i] + Nat.Quarantine(k.protocol), times[j])
    decreases j
  {
    hide WorkerInv, Step, Small, Readings, Nat.Guarded;
    RunInvariant(states, ops, range, listen, j - 1);
    StepRespects(states[j - 1], range, listen, ops[j - 1], states[j], k, times[j - 1], times[j]);
    if j > i + 1 {
      RunGuards(states, ops, times, range, listen, i, j - 1, k);
    }
  }

  /** In every run with a clock that does not go back, a return tuple that operation `i` releases, be it
      of a session or a transaction, expired, dropped, answered or aborted, is bound again by operation
      `j` only if that is a packet or a query whose clock reading is at least the protocol's quarantine
      later. */
  lemma {:induction false} QuarantineHolds(states: seq<WorkerState>, ops: seq<Op>, times: seq<Instant>, range: set<U16>,
          listen: SocketAddr, i: nat, j: nat, k: FlowKey)
    requires IsRun(states, ops, listen) && WorkerInv(states[0], range, listen, {}) && Clocked(ops, times)
        && i < j < |ops|
    requires k in states[i].table.natTable.LiveTuples() && k !in states[i + 1].table.natTable.LiveTuples()
    requires k !in states[j].table.natTable.LiveTuples() && k in states[j + 1].table.natTable.LiveTuples()
    ensures (ops[j].Inner? || ops[j].Query?) && ops[j].clock >= times[i] + Nat.Quarantine(k.protocol)
  {
    hide WorkerInv, Step, Small, Readings, Nat.Guarded;
    RunPartition(states, ops, range, listen, i);
    RunPartition(states, ops, range, listen, i + 1);
    RunPartition(states, ops, range, listen, j);
    RunPartition(states, ops, range, listen, j + 1);
    RunInvariant(states, ops, range, listen, j);
    RunGuards(states, ops, times, range, listen, i, j, k);
    StepRespects(states[j], range, listen, ops[j], states[j + 1], k, times[j], times[j + 1]);
  }
}
