/** The source-NAT table: one port allocator under a forward map, a reverse map and a
    quarantine of released return tuples; and the directory shared between workers. */
module Nat {
  import opened Core
  import opened Packet

  type SessionId = U64

  datatype SessionLocator = SessionLocator(flowWorkerId: nat, sessionId: SessionId)

  datatype NatBinding = NatBinding(original: FlowKey, translated: FlowKey)

  datatype NatError =
    | InvalidPortRange
    | AddressFamilyMismatch
    | PortRangeExhausted
    | DuplicateSession(id: SessionId)
    | DuplicateReverseKey(key: FlowKey)
    | UnknownSession(id: SessionId)

  /** `ReverseNatKey::from_translated_flow`: the tuple on which replies come back. */
  function ReturnTuple(t: FlowKey): (r: FlowKey) {
    if t.IsIcmp() then FlowKey(t.destination, t.source, t.sourcePort, 0, t.protocol) else t.Reverse()
  }

  /** `ReverseNatKey::from_return_flow`: ICMP replies match whatever their message type. */
  function ReplyTuple(f: FlowKey): (r: FlowKey) {
    if f.IsIcmp() then f.(destinationPort := 0) else f
  }

  /** The NAT port inside a return tuple. */
  function TuplePort(k: FlowKey): (r: U16) {
    if k.IsIcmp() then k.sourcePort else k.destinationPort
  }

  /** `reuse_quarantine`. */
  function Quarantine(protocol: TransportProtocol): (r: nat) {
    match protocol
    case Tcp => 120 * SECOND
    case Udp => 60 * SECOND
    case Icmp => 30 * SECOND
    case Icmpv6 => 30 * SECOND
  }

  datatype NatState = NatState(
    snat4: Option<Ipv4Addr>,
    snat6: Option<Ipv6Addr>,
    available: set<U16>,
    forward: map<SessionId, NatBinding>,
    reverse: map<FlowKey, SessionLocator>,
    quarantined: map<FlowKey, Instant>)
  {
    function SnatFor(original: FlowKey): (r: Option<IpAddr>) {
      if original.source.V4? then (if snat4.Some? then Some(V4(snat4.value)) else None)
      else (if snat6.Some? then Some(V6(snat6.value)) else None)
    }

    ghost function LivePorts(): set<U16> {
      set id | id in forward :: forward[id].translated.sourcePort
    }

    ghost function LiveTuples(): set<FlowKey> {
      set id | id in forward :: ReturnTuple(forward[id].translated)
    }
  }

  function Translate(original: FlowKey, snat: IpAddr, port: U16): (r: FlowKey) {
    original.(source := snat, sourcePort := port)
  }

  function Tuple(original: FlowKey, snat: IpAddr, port: U16): (r: FlowKey)
    ensures TuplePort(r) == port && r.protocol == original.protocol
  {
    ReturnTuple(Translate(original, snat, port))
  }

  /** `quarantined.retain(|_, expires_at| *expires_at > now)`. */
  function Prune(q: map<FlowKey, Instant>, now: Instant): (r: map<FlowKey, Instant>) {
    map k | k in q && q[k] > now :: q[k]
  }

  predicate Eligible(s: NatState, original: FlowKey, snat: IpAddr, now: Instant, port: U16) {
    && Tuple(original, snat, port) !in s.reverse
    && Tuple(original, snat, port) !in Prune(s.quarantined, now)
  }

  ghost function Candidates(s: NatState, original: FlowKey, snat: IpAddr, now: Instant): set<U16> {
    set p | p in s.available && Eligible(s, original, snat, now, p)
  }

  /** The first member of `ports` at or after `from`: the ascending scan of the port set. */
  ghost function LowestFrom(ports: set<U16>, from: nat): (p: U16)
    requires ports != {} && forall q :: q in ports ==> from <= q
    ensures p in ports && forall q :: q in ports ==> p <= q
    decreases 65536 - from
  {
    if from in ports then from else LowestFrom(ports, from + 1)
  }

  ghost function Lowest(ports: set<U16>): (p: U16)
    requires ports != {}
    ensures p in ports && forall q :: q in ports ==> p <= q
  {
    LowestFrom(ports, 0)
  }

  /** The ports of an inclusive range. */
  function PortRange(start: U16, end: U16): (r: set<U16>)
    ensures forall p: U16 :: p in r <==> start <= p <= end
    decreases end - start
  {
    if start > end then {} else if start == end then {start} else {start} + PortRange(start + 1, end)
  }

  // ---- Operations on values ----

  function Fresh(snat4: Option<Ipv4Addr>, snat6: Option<Ipv6Addr>, range: set<U16>): (s: NatState) {
    NatState(snat4, snat6, range, map[], map[], map[])
  }

  /** The state after binding `id` to `port`. */
  function Bind(s: NatState, id: SessionId, original: FlowKey, locator: SessionLocator, snat: IpAddr, port: U16,
          now: Instant): (r: NatState) {
    var translated := Translate(original, snat, port);
    s.(available := s.available - {port},
       forward := s.forward[id := NatBinding(original, translated)],
       reverse := s.reverse[ReturnTuple(translated) := locator],
       quarantined := Prune(s.quarantined, now))
  }

  /** `allocate_at`. */
  ghost function Allocate(s: NatState, id: SessionId, original: FlowKey, locator: SessionLocator, now: Instant)
    : (r: (NatState, Result<NatBinding, NatError>))
  {
    if id in s.forward then (s, Err(DuplicateSession(id)))
    else if s.SnatFor(original).None? then (s, Err(AddressFamilyMismatch))
    else
      var snat := s.SnatFor(original).value;
      var candidates := Candidates(s, original, snat, now);
      if candidates == {} then (s.(quarantined := Prune(s.quarantined, now)), Err(PortRangeExhausted))
      else
        var next := Bind(s, id, original, locator, snat, Lowest(candidates), now);
        (next, Ok(next.forward[id]))
  }

  /** `remove_at`. */
  function Release(s: NatState, id: SessionId, now: Instant): (r: (NatState, Result<NatBinding, NatError>)) {
    if id !in s.forward then (s, Err(UnknownSession(id)))
    else
      var binding := s.forward[id];
      var key := ReturnTuple(binding.translated);
      (s.(available := s.available + {binding.translated.sourcePort},
          forward := s.forward - {id},
          reverse := s.reverse - {key},
          quarantined := s.quarantined[key := now + Quarantine(binding.translated.protocol)]),
       Ok(binding))
  }

  // ---- The invariant ----

  /** Free and live ports partition the configured range, live ports are distinct, the reverse
      map is the image of the forward map, and every binding is a source translation. */
  ghost predicate Inv(s: NatState, range: set<U16>) {
    && s.available + s.LivePorts() == range
    && s.available !! s.LivePorts()
    && (forall a, b :: a in s.forward && b in s.forward && a != b ==>
          s.forward[a].translated.sourcePort != s.forward[b].translated.sourcePort)
    && s.reverse.Keys == s.LiveTuples()
    && (forall id :: id in s.forward ==> Shaped(s, id))
  }

  ghost predicate Shaped(s: NatState, id: SessionId)
    requires id in s.forward
  {
    var b := s.forward[id];
    && s.SnatFor(b.original).Some?
    && b.translated == Translate(b.original, s.SnatFor(b.original).value, b.translated.sourcePort)
  }

  lemma FreshInv(snat4: Option<Ipv4Addr>, snat6: Option<Ipv6Addr>, range: set<U16>)
    ensures Inv(Fresh(snat4, snat6, range), range)
  {
  }

  /** A live return tuple carries a live port, so no free port's tuple is in the reverse map. */
  lemma {:induction false} FreePortHasNoReverse(s: NatState, range: set<U16>, original: FlowKey, snat: IpAddr,
          port: U16)
    requires Inv(s, range) && port in s.available
    ensures Tuple(original, snat, port) !in s.reverse
  {
    forall id | id in s.forward ensures ReturnTuple(s.forward[id].translated) != Tuple(original, snat, port) {
      assert s.forward[id].translated.sourcePort in s.LivePorts();
    }
  }

  lemma {:induction false} BoundSets(s: NatState, n: NatState, id: SessionId, b: NatBinding)
    requires id !in s.forward && n.forward == s.forward[id := b]
    ensures n.LivePorts() == s.LivePorts() + {b.translated.sourcePort}
    ensures n.LiveTuples() == s.LiveTuples() + {ReturnTuple(b.translated)}
  {
    assert forall a :: a in s.forward ==> n.forward[a] == s.forward[a];
    assert n.forward[id] == b;
    assert forall a :: a in n.forward ==> a == id || a in s.forward;
    assert n.LivePorts() <= s.LivePorts() + {b.translated.sourcePort};
    assert n.LiveTuples() <= s.LiveTuples() + {ReturnTuple(b.translated)};
  }

  lemma {:induction false} ReleasedSets(s: NatState, n: NatState, id: SessionId, range: set<U16>)
    requires Inv(s, range) && id in s.forward && n.forward == s.forward - {id}
    ensures n.LivePorts() == s.LivePorts() - {s.forward[id].translated.sourcePort}
    ensures n.LiveTuples() == s.LiveTuples() - {ReturnTuple(s.forward[id].translated)}
  {
    var b := s.forward[id];
    assert forall a :: a in n.forward ==> a in s.forward && a != id && n.forward[a] == s.forward[a];
    assert forall a :: a in s.forward && a != id ==> a in n.forward;
    forall a | a in n.forward
      ensures n.forward[a].translated.sourcePort != b.translated.sourcePort
      ensures ReturnTuple(n.forward[a].translated) != ReturnTuple(b.translated)
    {
      assert TuplePort(ReturnTuple(n.forward[a].translated)) != TuplePort(ReturnTuple(b.translated));
    }
  }

  lemma PortsMove(available: set<U16>, live: set<U16>, range: set<U16>, port: U16)
    requires available + live == range && available !! live
    ensures port in available ==>
        (available - {port}) + (live + {port}) == range && (available - {port}) !! (live + {port})
    ensures port in live ==> (available + {port}) + (live - {port}) == range && (available + {port}) !! (live - {port})
  {
  }

  lemma {:induction false} BindKeepsInv(s: NatState, range: set<U16>, id: SessionId, original: FlowKey,
          locator: SessionLocator, snat: IpAddr, port: U16, now: Instant)
    requires Inv(s, range) && id !in s.forward && s.SnatFor(original) == Some(snat) && port in s.available
    ensures Inv(Bind(s, id, original, locator, snat, port, now), range)
  {
    hide NatState.LivePorts, NatState.LiveTuples, Prune;
    var n := Bind(s, id, original, locator, snat, port, now);
    BoundSets(s, n, id, NatBinding(original, Translate(original, snat, port)));
    PortsMove(s.available, s.LivePorts(), range, port);
    PortIsNew(s, port);
    BindShapes(s, n, id, original, snat, port);
  }

  lemma BindShapes(s: NatState, n: NatState, id: SessionId, original: FlowKey, snat: IpAddr, port: U16)
    requires forall a :: a in s.forward ==> Shaped(s, a)
    requires id !in s.forward && s.SnatFor(original) == Some(snat) && n.snat4 == s.snat4 && n.snat6 == s.snat6
    requires n.forward == s.forward[id := NatBinding(original, Translate(original, snat, port))]
    ensures forall a :: a in n.forward ==> Shaped(n, a)
  {
    forall a | a in n.forward ensures Shaped(n, a) {
      if a != id { assert Shaped(s, a); }
    }
  }

  lemma PortIsNew(s: NatState, port: U16)
    requires port !in s.LivePorts()
    ensures forall a :: a in s.forward ==> s.forward[a].translated.sourcePort != port
  {
    forall a | a in s.forward ensures s.forward[a].translated.sourcePort != port {
      assert s.forward[a].translated.sourcePort in s.LivePorts();
    }
  }

  /** Releasing keeps the invariant. It succeeds exactly for a live identifier, returns its binding,
      frees its port and its tuple and nothing else, and quarantines the tuple for its protocol's time;
      an unknown identifier changes nothing. */
  lemma {:induction false} ReleaseKeepsInv(s: NatState, range: set<U16>, id: SessionId, now: Instant)
    requires Inv(s, range)
    ensures var (n, r) := Release(s, id, now);
      && Inv(n, range) && (r.Ok? <==> id in s.forward) && (r.Err? ==> n == s)
      && (r.Ok? ==>
            && r.value == s.forward[id] && n.forward == s.forward - {id}
            && n.LivePorts() == s.LivePorts() - {r.value.translated.sourcePort}
            && n.LiveTuples() == s.LiveTuples() - {ReturnTuple(r.value.translated)}
            && (forall k, t: Instant :: Quarantined(n, k, t) <==>
                  if k == ReturnTuple(r.value.translated) then t < now + Quarantine(k.protocol)
                      else Quarantined(s, k, t)))
  {
    hide NatState.LivePorts, NatState.LiveTuples, ReturnTuple, Quarantine;
    if id in s.forward {
      var n := Release(s, id, now).0;
      var port := s.forward[id].translated.sourcePort;
      ReleasedSets(s, n, id, range);
      PortIsLive(s, id);
      PortsMove(s.available, s.LivePorts(), range, port);
      forall a | a in n.forward ensures Shaped(n, a) {
        assert Shaped(s, a);
      }
      TupleProtocol(s.forward[id].translated);
    }
  }

  lemma PortIsLive(s: NatState, id: SessionId)
    requires id in s.forward
    ensures s.forward[id].translated.sourcePort in s.LivePorts()
  {
  }

  lemma TupleProtocol(f: FlowKey)
    ensures ReturnTuple(f).protocol == f.protocol
  {
  }

  /** Allocation under the invariant: which error is reported when, and otherwise the lowest free
      port whose return tuple is out of quarantine. Looking into the reverse map adds nothing. */
  lemma {:induction false} AllocateCorrect(s: NatState, range: set<U16>, id: SessionId, original: FlowKey,
          locator: SessionLocator, now: Instant)
    requires Inv(s, range)
    ensures var (n, r) := Allocate(s, id, original, locator, now);
      && Inv(n, range)
      && (r == Err(DuplicateSession(id)) <==> id in s.forward)
      && (r == Err(AddressFamilyMismatch) <==> id !in s.forward && s.SnatFor(original).None?)
      && (r == Err(PortRangeExhausted) <==>
            && id !in s.forward && s.SnatFor(original).Some?
            && forall p :: p in s.available ==> Quarantined(s, Tuple(original, s.SnatFor(original).value, p), now))
      && (r.Ok? ==>
            var b := r.value; var port := b.translated.sourcePort;
            && b.original == original && b.translated == Translate(original, s.SnatFor(original).value, port)
            && port in s.available && !Quarantined(s, ReturnTuple(b.translated), now)
            && (forall p :: p in s.available && p < port ==>
                  Quarantined(s, Tuple(original, s.SnatFor(original).value, p), now))
            && n.available == s.available - {port}
            && n.forward == s.forward[id := b]
            && n.reverse == s.reverse[ReturnTuple(b.translated) := locator])
      && (r.Err? ==> n.forward == s.forward && n.reverse == s.reverse && n.available == s.available)
  {
    if id !in s.forward && s.SnatFor(original).Some? {
      var snat := s.SnatFor(original).value;
      var candidates := Candidates(s, original, snat, now);
      forall p | p in s.available
        ensures p in candidates <==> !Quarantined(s, Tuple(original, snat, p), now)
      {
        FreePortHasNoReverse(s, range, original, snat, p);
      }
      if candidates != {} {
        BindKeepsInv(s, range, id, original, locator, snat, Lowest(candidates), now);
      }
    }
  }

  predicate Quarantined(s: NatState, k: FlowKey, now: Instant) {
    k in s.quarantined && s.quarantined[k] > now
  }

  // ---- Whole runs ----

  datatype NatOp =
    | AllocateOp(id: SessionId, original: FlowKey, locator: SessionLocator, now: Instant)
    | ReleaseOp(id: SessionId, now: Instant)

  ghost function Apply(s: NatState, op: NatOp): (NatState, Result<NatBinding, NatError>) {
    match op
    case AllocateOp(id, original, locator, now) => Allocate(s, id, original, locator, now)
    case ReleaseOp(id, now) => Release(s, id, now)
  }

  ghost function Run(s: NatState, ops: seq<NatOp>): NatState {
    if |ops| == 0 then s else Apply(Run(s, ops[..|ops| - 1]), ops[|ops| - 1]).0
  }

  /** The clock never goes back. */
  ghost predicate Monotone(ops: seq<NatOp>) {
    forall i, j :: 0 <= i <= j < |ops| ==> ops[i].now <= ops[j].now
  }

  /** Every reachable table satisfies the invariant. */
  lemma {:induction false} RunKeepsInv(s: NatState, range: set<U16>, ops: seq<NatOp>)
    requires Inv(s, range)
    ensures Inv(Run(s, ops), range)
  {
    if |ops| > 0 {
      RunKeepsInv(s, range, ops[..|ops| - 1]);
      var before := Run(s, ops[..|ops| - 1]);
      match ops[|ops| - 1]
      case AllocateOp(id, original, locator, now) => AllocateCorrect(before, range, id, original, locator, now);
      case ReleaseOp(id, now) => ReleaseKeepsInv(before, range, id, now);
    }
  }

  /** A tuple is guarded up to `until`: that time has passed, or the table still remembers it. */
  ghost predicate Guarded(s: NatState, k: FlowKey, until: Instant, clock: Instant) {
    until <= clock || (k in s.quarantined && s.quarantined[k] >= until)
  }

  lemma {:induction false} ApplyGuards(s: NatState, op: NatOp, k: FlowKey, until: Instant, clock: Instant)
    requires Guarded(s, k, until, clock) && clock <= op.now && until <= clock + Quarantine(k.protocol)
    ensures Guarded(Apply(s, op).0, k, until, op.now)
    ensures op.AllocateOp? && Apply(s, op).1.Ok? && ReturnTuple(Apply(s, op).1.value.translated) == k ==>
        until <= op.now
  {
    match op
    case ReleaseOp(id, now) =>
    case AllocateOp(id, original, locator, now) =>
      if id !in s.forward && s.SnatFor(original).Some? {
        var candidates := Candidates(s, original, s.SnatFor(original).value, now);
        if candidates != {} {
          assert Lowest(candidates) in candidates;
        }
      }
  }

  lemma {:induction false} RunGuards(s: NatState, ops: seq<NatOp>, i: nat, j: nat, k: FlowKey)
    requires i < j <= |ops| && Monotone(ops) && ops[i].ReleaseOp?
    requires var r := Apply(Run(s, ops[..i]), ops[i]).1; r.Ok? && ReturnTuple(r.value.translated) == k
    ensures Guarded(Run(s, ops[..j]), k, ops[i].now + Quarantine(k.protocol), ops[j - 1].now)
    decreases j
  {
    var before := ops[..j];
    assert before[..j - 1] == ops[..j - 1] && before[j - 1] == ops[j - 1];
    if j > i + 1 {
      RunGuards(s, ops, i, j - 1, k);
      ApplyGuards(Run(s, ops[..j - 1]), ops[j - 1], k, ops[i].now + Quarantine(k.protocol), ops[j - 2].now);
    }
  }

  /** Over whole runs: a return tuple released at one time is not bound again before its
      protocol's quarantine has passed. */
  lemma {:induction false} QuarantineSafety(s: NatState, ops: seq<NatOp>, i: nat, j: nat)
    requires i < j < |ops| && Monotone(ops) && ops[i].ReleaseOp? && ops[j].AllocateOp?
    requires Apply(Run(s, ops[..i]), ops[i]).1.Ok? && Apply(Run(s, ops[..j]), ops[j]).1.Ok?
    requires var released := Apply(Run(s, ops[..i]), ops[i]).1.value;
      var bound := Apply(Run(s, ops[..j]), ops[j]).1.value;
      ReturnTuple(released.translated) == ReturnTuple(bound.translated)
    ensures ops[j].now >= ops[i].now + Quarantine(Apply(Run(s, ops[..i]), ops[i]).1.value.translated.protocol)
  {
    var k := ReturnTuple(Apply(Run(s, ops[..i]), ops[i]).1.value.translated);
    RunGuards(s, ops, i, j, k);
    ApplyGuards(Run(s, ops[..j]), ops[j], k, ops[i].now + Quarantine(k.protocol), ops[j - 1].now);
  }

  // ---- Reply lookup ----

  /** Replies to a translated flow: the reversed tuple, or for ICMP any message type back. */
  ghost predicate IsReplyTo(reply: FlowKey, translated: FlowKey) {
    ReplyTuple(reply) == ReturnTuple(translated)
  }

  function LookupReverse(s: NatState, reply: FlowKey): (r: Option<SessionLocator>) {
    if ReplyTuple(reply) in s.reverse then Some(s.reverse[ReplyTuple(reply)]) else None
  }

  // ---- The shared directory ----

  type Directory = map<FlowKey, SessionLocator>

  function Publish(d: Directory, b: NatBinding, locator: SessionLocator): (r: (Directory, Result<(), NatError>)) {
    var key := ReturnTuple(b.translated);
    if key in d then (d, if d[key] == locator then Ok(()) else Err(DuplicateReverseKey(key)))
    else (d[key := locator], Ok(()))
  }

  function Retire(d: Directory, b: NatBinding, expected: SessionLocator): (r: (Directory, Option<SessionLocator>)) {
    var key := ReturnTuple(b.translated);
    if key !in d || d[key] != expected then (d, None) else (d - {key}, Some(d[key]))
  }

  function Lookup(d: Directory, reply: FlowKey): (r: Option<SessionLocator>) {
    if ReplyTuple(reply) in d then Some(d[ReplyTuple(reply)]) else None
  }

  // ---- The mutable tables ----

  class NatTable {
    var snat4: Option<Ipv4Addr>
    var snat6: Option<Ipv6Addr>
    var available: set<U16>
    var forward: map<SessionId, NatBinding>
    var reverse: map<FlowKey, SessionLocator>
    var quarantined: map<FlowKey, Instant>

    function State(): NatState
      reads this
    {
      NatState(snat4, snat6, available, forward, reverse, quarantined)
    }

    constructor (snat4: Option<Ipv4Addr>, snat6: Option<Ipv6Addr>, ports: set<U16>)
      ensures State() == Fresh(snat4, snat6, ports)
      ensures Inv(State(), ports)
    {
      this.snat4 := snat4;
      this.snat6 := snat6;
      available := ports;
      forward := map[];
      reverse := map[];
      quarantined := map[];
    }

    /** `NatTable::new_dual` over the inclusive port range `start..=end`. */
    static method NewDual(snat4: Option<Ipv4Addr>, snat6: Option<Ipv6Addr>, start: U16, end: U16)
      returns (r: Result<NatTable, NatError>)
      ensures start > end ==> r == Err(InvalidPortRange)
      ensures start <= end ==>
        r.Ok? && fresh(r.value) && r.value.State() == Fresh(snat4, snat6, PortRange(start, end))
    {
      if start > end { return Err(InvalidPortRange); }
      var table := new NatTable(snat4, snat6, PortRange(start, end));
      r := Ok(table);
    }

    /** The ascending search of `allocate_at` for the first usable port. */
    method FindPort(original: FlowKey, snat: IpAddr, now: Instant) returns (port: Option<U16>)
      ensures var candidates := Candidates(State(), original, snat, now);
        port == if candidates == {} then None else Some(Lowest(candidates))
    {
      ghost var candidates := Candidates(State(), original, snat, now);
      for p := 0 to 65536
        invariant forall q :: q in candidates ==> p <= q
      {
        if p in available && Eligible(State(), original, snat, now, p) {
          assert p in candidates;
          return Some(p);
        }
      }
      assert forall q :: q in candidates ==> 65536 <= q;
      port := None;
    }

    /** `allocate_at`. */
    method AllocateAt(id: SessionId, original: FlowKey, locator: SessionLocator, now: Instant)
      returns (r: Result<NatBinding, NatError>)
      modifies this
      ensures (State(), r) == Allocate(old(State()), id, original, locator, now)
    {
      if id in forward { return Err(DuplicateSession(id)); }
      var snat := State().SnatFor(original);
      if snat.None? { return Err(AddressFamilyMismatch); }
      var port := FindPort(original, snat.value, now);
      quarantined := map k | k in quarantined && quarantined[k] > now :: quarantined[k];
      if port.None? { return Err(PortRangeExhausted); }
      var translated := Translate(original, snat.value, port.value);
      available := available - {port.value};
      reverse := reverse[ReturnTuple(translated) := locator];
      forward := forward[id := NatBinding(original, translated)];
      r := Ok(forward[id]);
    }

    /** `remove_at`. */
    method RemoveAt(id: SessionId, now: Instant) returns (r: Result<NatBinding, NatError>)
      modifies this
      ensures (State(), r) == Release(old(State()), id, now)
    {
      if id !in forward { return Err(UnknownSession(id)); }
      var binding := forward[id];
      forward := forward - {id};
      var key := ReturnTuple(binding.translated);
      reverse := reverse - {key};
      quarantined := quarantined[key := now + Quarantine(binding.translated.protocol)];
      available := available + {binding.translated.sourcePort};
      r := Ok(binding);
    }
  }

  class ReverseNatDirectory {
    var entries: Directory

    constructor ()
      ensures entries == map[]
    {
      entries := map[];
    }

    method PublishBinding(binding: NatBinding, locator: SessionLocator) returns (r: Result<(), NatError>)
      modifies this
      ensures (entries, r) == Publish(old(entries), binding, locator)
    {
      var key := ReturnTuple(binding.translated);
      if key in entries {
        if entries[key] == locator { return Ok(()); }
        return Err(DuplicateReverseKey(key));
      }
      entries := entries[key := locator];
      r := Ok(());
    }

    method RetireBinding(binding: NatBinding, expected: SessionLocator) returns (r: Option<SessionLocator>)
      modifies this
      ensures (entries, r) == Retire(old(entries), binding, expected)
    {
      var key := ReturnTuple(binding.translated);
      if key !in entries || entries[key] != expected { return None; }
      r := Some(entries[key]);
      entries := entries - {key};
    }
  }
}
