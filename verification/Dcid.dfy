/** Connection identifiers of the QUIC tunnel: the shared index from destination connection id to
    flow worker, and the ownership discipline that keeps N workers from ever meeting in it. */
module Dcid {
  import opened Core

  datatype Owner = Owner(flowWorkerId: nat, quicFlowId: U64)

  datatype DcidError = EmptyDcid | ZeroWorkers | DuplicateDcid(owner: Owner)

  /** `bootstrap_owner`. */
  function BootstrapOwner(dcid: Bytes, workers: nat): (r: Result<nat, DcidError>)
    ensures r.Ok? <==> |dcid| > 0 && workers > 0
    ensures r.Ok? ==> r.value < workers
  {
    if |dcid| == 0 then Err(EmptyDcid)
    else if workers == 0 then Err(ZeroWorkers)
    else Ok(Fnv1a(dcid) % workers)
  }

  // ---- The index as a value ----

  datatype Index = Index(byDcid: map<Bytes, Owner>, staged: map<Bytes, Owner>, byFlow: map<U64, set<Bytes>>)

  const EMPTY := Index(map[], map[], map[])

  function Resolve(ix: Index, dcid: Bytes): (r: Option<Owner>) {
    if dcid in ix.byDcid then Some(ix.byDcid[dcid])
    else if dcid in ix.staged then Some(ix.staged[dcid])
    else None
  }

  /** The identifier is unusable for the owner: empty, or somebody else's. */
  function Conflict(ix: Index, dcid: Bytes, owner: Owner): (r: Option<DcidError>) {
    if |dcid| == 0 then Some(EmptyDcid)
    else
      match Resolve(ix, dcid)
      case Some(other) => if other == owner then None else Some(DuplicateDcid(other))
      case None => None
  }

  /** `stage_for_flow`. */
  function Stage(ix: Index, dcid: Bytes, owner: Owner): (r: (Index, Result<(), DcidError>)) {
    match Conflict(ix, dcid, owner)
    case Some(e) => (ix, Err(e))
    case None => (if Resolve(ix, dcid).Some? then ix else ix.(staged := ix.staged[dcid := owner]), Ok(()))
  }

  function Flow(ix: Index, flow: U64): (r: set<Bytes>) {
    if flow in ix.byFlow then ix.byFlow[flow] else {}
  }

  /** The index with every identifier of a set active for the owner. */
  function Activate(ix: Index, dcids: set<Bytes>, owner: Owner): (r: Index) {
    if dcids == {} then ix
    else
      Index(map d | d in ix.byDcid.Keys + dcids :: if d in dcids then owner else ix.byDcid[d],
            ix.staged - dcids,
            ix.byFlow[owner.quicFlowId := Flow(ix, owner.quicFlowId) + dcids])
  }

  /** `publish_for_flow`. */
  function Publish(ix: Index, dcid: Bytes, owner: Owner): (r: (Index, Result<(), DcidError>)) {
    match Conflict(ix, dcid, owner)
    case Some(e) => (ix, Err(e))
    case None => (if dcid in ix.byDcid then ix else Activate(ix, {dcid}, owner), Ok(()))
  }

  /** The first conflict of a list, in order. */
  function FirstConflict(ix: Index, dcids: seq<Bytes>, owner: Owner): (r: Option<DcidError>) {
    if |dcids| == 0 then None
    else
      match FirstConflict(ix, dcids[..|dcids| - 1], owner)
      case Some(e) => Some(e)
      case None => Conflict(ix, dcids[|dcids| - 1], owner)
  }

  function Members(dcids: seq<Bytes>): (r: set<Bytes>) {
    set d | d in dcids
  }

  /** `publish_batch_for_flow`. */
  function PublishBatch(ix: Index, dcids: seq<Bytes>, owner: Owner): (r: (Index, Result<(), DcidError>)) {
    match FirstConflict(ix, dcids, owner)
    case Some(e) => (ix, Err(e))
    case None => (Activate(ix, Members(dcids), owner), Ok(()))
  }

  function Unlink(byFlow: map<U64, set<Bytes>>, flow: U64, dcid: Bytes): (r: map<U64, set<Bytes>>) {
    if flow !in byFlow then byFlow
    else if byFlow[flow] - {dcid} == {} then byFlow - {flow}
    else byFlow[flow := byFlow[flow] - {dcid}]
  }

  /** `retire`. */
  function Retire(ix: Index, dcid: Bytes): (r: (Index, Option<Owner>)) {
    match Resolve(ix, dcid)
    case None => (ix, None)
    case Some(owner) =>
      (Index(ix.byDcid - {dcid}, if dcid in ix.byDcid then ix.staged
          else ix.staged - {dcid}, Unlink(ix.byFlow, owner.quicFlowId, dcid)),
       Some(owner))
  }

  /** `retire_for_flow`. */
  function RetireFor(ix: Index, dcid: Bytes, owner: Owner): (r: (Index, Option<Owner>)) {
    if Resolve(ix, dcid) != Some(owner) then (ix, None) else Retire(ix, dcid)
  }

  /** `close_flow`. */
  function CloseFlow(ix: Index, flow: U64): (r: (Index, nat)) {
    (Index(ix.byDcid - Flow(ix, flow), map d | d in ix.staged && ix.staged[d].quicFlowId != flow ::
        ix.staged[d], ix.byFlow - {flow}),
     |Flow(ix, flow)|)
  }

  // ---- The invariant of the index ----

  /** `by_flow` is the exact inverse of `by_dcid`, without empty sets. */
  ghost predicate Inverse(byDcid: map<Bytes, Owner>, byFlow: map<U64, set<Bytes>>) {
    && (forall d :: d in byDcid ==> byDcid[d].quicFlowId in byFlow && d in byFlow[byDcid[d].quicFlowId])
    && (forall f :: f in byFlow ==> byFlow[f] != {})
    && (forall f, d :: f in byFlow && d in byFlow[f] ==> d in byDcid && byDcid[d].quicFlowId == f)
  }

  ghost predicate Inv(ix: Index) {
    Inverse(ix.byDcid, ix.byFlow) && ix.byDcid.Keys !! ix.staged.Keys && [] !in ix.byDcid && [] !in ix.staged
  }

  lemma {:induction false} StageKeeps(ix: Index, dcid: Bytes, owner: Owner)
    requires Inv(ix)
    ensures var (n, r) := Stage(ix, dcid, owner);
      && Inv(n) && (r.Err? ==> n == ix)
      && (r.Ok? ==> Resolve(n, dcid) == Some(owner) && forall d :: d != dcid ==> Resolve(n, d) == Resolve(ix, d))
  {
  }

  lemma {:induction false} ActivateKeeps(ix: Index, dcids: set<Bytes>, owner: Owner)
    requires Inv(ix) && forall d :: d in dcids ==> Conflict(ix, d, owner) == None
    ensures Inv(Activate(ix, dcids, owner))
    ensures forall d :: Resolve(Activate(ix, dcids, owner), d) == if d in dcids then Some(owner) else Resolve(ix, d)
    ensures dcids <= Activate(ix, dcids, owner).byDcid.Keys
  {
    var n := Activate(ix, dcids, owner);
    if dcids != {} {
      forall d | d in n.byDcid ensures n.byDcid[d].quicFlowId in n.byFlow && d in n.byFlow[n.byDcid[d].quicFlowId] { }
      forall f, d | f in n.byFlow && d in n.byFlow[f] ensures d in n.byDcid && n.byDcid[d].quicFlowId == f {
        assert d in dcids ==> Conflict(ix, d, owner) == None;
      }
    }
  }

  lemma {:induction false} PublishKeeps(ix: Index, dcid: Bytes, owner: Owner)
    requires Inv(ix)
    ensures var (n, r) := Publish(ix, dcid, owner);
      && Inv(n) && (r.Err? ==> n == ix)
      && (r.Ok? ==> dcid in n.byDcid && Resolve(n, dcid) == Some(owner) && forall d :: d != dcid ==>
          Resolve(n, d) == Resolve(ix, d))
  {
    if Conflict(ix, dcid, owner).None? { ActivateKeeps(ix, {dcid}, owner); }
  }

  lemma {:induction false} NoConflict(ix: Index, dcids: seq<Bytes>, owner: Owner)
    ensures FirstConflict(ix, dcids, owner).None? <==> forall d :: d in dcids ==> Conflict(ix, d, owner) == None
  {
    hide Conflict;
    if |dcids| > 0 {
      var (front, last) := (dcids[..|dcids| - 1], dcids[|dcids| - 1]);
      NoConflict(ix, front, owner);
      assert dcids == front + [last];
    }
  }

  /** A batch is all or nothing: it succeeds exactly when no identifier is empty or somebody else's,
      and then every one is active for the owner; otherwise nothing changes. */
  lemma {:induction false} BatchAllOrNothing(ix: Index, dcids: seq<Bytes>, owner: Owner)
    requires Inv(ix)
    ensures var (n, r) := PublishBatch(ix, dcids, owner);
      && Inv(n)
      && (r.Ok? <==> forall d :: d in dcids ==> |d| > 0 && Resolve(ix, d) in {None, Some(owner)})
      && (r.Err? ==> n == ix)
      && (r.Ok? ==> forall d :: Resolve(n, d) == if d in dcids then Some(owner) else Resolve(ix, d))
      && (r.Ok? ==> forall d :: d in dcids ==> d in n.byDcid)
  {
    NoConflict(ix, dcids, owner);
    if FirstConflict(ix, dcids, owner).None? {
      ActivateKeeps(ix, Members(dcids), owner);
    }
  }

  /** Retiring removes exactly one identifier. */
  lemma {:induction false} RetireKeeps(ix: Index, dcid: Bytes)
    requires Inv(ix)
    ensures var (n, r) := Retire(ix, dcid);
      && Inv(n) && r == Resolve(ix, dcid) && Resolve(n, dcid) == None
      && forall d :: d != dcid ==> Resolve(n, d) == Resolve(ix, d)
  {
    if Resolve(ix, dcid).Some? {
      var flow := Resolve(ix, dcid).value.quicFlowId;
      UnlinkInverts(ix, dcid, flow);
    }
  }

  lemma {:induction false} UnlinkInverts(ix: Index, dcid: Bytes, flow: U64)
    requires Inv(ix) && Resolve(ix, dcid).Some? && Resolve(ix, dcid).value.quicFlowId == flow
    ensures Inverse(ix.byDcid - {dcid}, Unlink(ix.byFlow, flow, dcid))
  {
    var (m, u) := (ix.byDcid - {dcid}, Unlink(ix.byFlow, flow, dcid));
    forall d | d in m ensures m[d].quicFlowId in u && d in u[m[d].quicFlowId] {
      if m[d].quicFlowId == flow { assert d in ix.byFlow[flow] - {dcid}; }
    }
  }

  /** After closing a flow nothing resolves to it, and every other flow's identifiers still resolve. */
  lemma {:induction false} CloseFlowKeeps(ix: Index, flow: U64)
    requires Inv(ix)
    ensures var n := CloseFlow(ix, flow).0;
      && Inv(n)
      && forall d :: Resolve(n, d) == if Resolve(ix, d).Some? && Resolve(ix, d).value.quicFlowId == flow then None
          else Resolve(ix, d)
  {
    var n := CloseFlow(ix, flow).0;
    forall f, d | f in n.byFlow && d in n.byFlow[f] ensures d in n.byDcid && n.byDcid[d].quicFlowId == f {
      assert d in ix.byDcid && ix.byDcid[d].quicFlowId == f != flow;
    }
    forall d | d in n.byDcid ensures n.byDcid[d].quicFlowId in n.byFlow && d in n.byFlow[n.byDcid[d].quicFlowId] {
      assert d !in Flow(ix, flow);
    }
  }

  // ---- Which identifier a packet carries ----

  /** `extract_dcid`: the engine's reading of an outer packet. */
  function ExtractDcid(packet: Bytes, fixedLen: nat): (r: Option<Bytes>) {
    if |packet| == 0 then None
    else if packet[0] >= 0x80 then
      if |packet| < 6 then None
      else
        var n := packet[5];
        if n == 0 || n > 20 || |packet| < 6 + n then None else Some(packet[6..6 + n])
    else if |packet| < 1 + fixedLen then None
    else Some(packet[1..1 + fixedLen])
  }

  /** `parse_quic_dcid`: the IO worker's reading; true for a packet that may open a connection. */
  function ParseQuicDcid(packet: Bytes, fixedLen: nat): (r: Option<(Bytes, bool)>) {
    if |packet| == 0 || fixedLen == 0 || fixedLen > 20 then None
    else if packet[0] >= 0x80 then
      if |packet| < 6 then None
      else
        var n := packet[5];
        if n == 0 || n > 20 || |packet| < 6 + n then None else Some((packet[6..6 + n], packet[0] / 16 % 4 == 0))
    else if |packet| < 1 + fixedLen then None
    else Some((packet[1..1 + fixedLen], false))
  }

  /** Whenever the IO worker reads an identifier the engine reads the same one, and it is not empty. */
  lemma {:induction false} ReadingsAgree(packet: Bytes, fixedLen: nat)
    requires ParseQuicDcid(packet, fixedLen).Some?
    ensures ExtractDcid(packet, fixedLen) == Some(ParseQuicDcid(packet, fixedLen).value.0)
    ensures |ParseQuicDcid(packet, fixedLen).value.0| > 0
  {
  }

  /** Where the IO worker sends an outer packet: to the owner of its identifier, or by hash if it may
      open a connection. */
  function Dispatch(ix: Index, packet: Bytes, fixedLen: nat, workers: nat): (r: Option<nat>) {
    match ParseQuicDcid(packet, fixedLen)
    case None => None
    case Some((dcid, bootstrap)) =>
      match Resolve(ix, dcid)
      case Some(owner) => Some(owner.flowWorkerId)
      case None =>
        if !bootstrap then None
        else
          match BootstrapOwner(dcid, workers)
          case Ok(w) => Some(w)
          case Err(_) => None
  }

  // ---- N workers ----

  /** Each worker's current flow id, the packets dispatched to it, and the identifiers its engine has
      generated or taken from an accepted packet: the only ones it emits events for. */
  datatype System = System(ix: Index, flows: seq<U64>, inbox: seq<seq<Bytes>>, known: seq<set<Bytes>>)

  datatype Step =
    | Generate(dcid: Bytes)
    | Arrive(packet: Bytes)
    | Accept
    | StageEvent(dcid: Bytes)
    | PublishEvent(dcid: Bytes)
    | ReplaceEvent(dcids: seq<Bytes>)
    | RetireEvent(dcid: Bytes)
    | Closed

  datatype Config = Config(workers: nat, fixedLen: nat)

  ghost predicate Shape(y: System, c: Config) {
    0 < c.workers == |y.flows| == |y.inbox| == |y.known|
  }

  predicate Enabled(y: System, w: nat, step: Step, c: Config)
    requires w < c.workers == |y.flows| == |y.inbox| == |y.known|
  {
    match step
    case Generate(dcid) => BootstrapOwner(dcid, c.workers) == Ok(w)
    case Arrive(packet) => Dispatch(y.ix, packet, c.fixedLen, c.workers) == Some(w)
    case Accept => |y.inbox[w]| > 0
    case StageEvent(dcid) => dcid in y.known[w]
    case PublishEvent(dcid) => dcid in y.known[w]
    case ReplaceEvent(dcids) => forall d :: d in dcids ==> d in y.known[w]
    case RetireEvent(_) => true
    case Closed => y.flows[w] + c.workers < 0x1_0000_0000_0000_0000
  }

  function OwnerOf(y: System, w: nat): Owner
    requires w < |y.flows|
  {
    Owner(w, y.flows[w])
  }

  /** The outcome of the index operation of a step, if it has one that can fail. */
  function Outcome(y: System, w: nat, step: Step): (r: Result<(), DcidError>)
    requires w < |y.flows|
  {
    match step
    case StageEvent(dcid) => Stage(y.ix, dcid, OwnerOf(y, w)).1
    case PublishEvent(dcid) => Publish(y.ix, dcid, OwnerOf(y, w)).1
    case ReplaceEvent(dcids) => PublishBatch(y.ix, dcids, OwnerOf(y, w)).1
    case _ => Ok(())
  }

  function Apply(y: System, w: nat, step: Step, c: Config): (r: System)
    requires w < c.workers == |y.flows| == |y.inbox| == |y.known| && Enabled(y, w, step, c)
  {
    match step
    case Generate(dcid) => y.(known := y.known[w := y.known[w] + {dcid}])
    case Arrive(packet) => y.(inbox := y.inbox[w := y.inbox[w] + [packet]])
    case Accept =>
      var dcid := ExtractDcid(y.inbox[w][0], c.fixedLen);
      y.(inbox := y.inbox[w := y.inbox[w][1..]], known := if dcid.Some? then y.known[w := y.known[w] + {dcid.value}]
          else y.known)
    case StageEvent(dcid) => y.(ix := Stage(y.ix, dcid, OwnerOf(y, w)).0)
    case PublishEvent(dcid) => y.(ix := Publish(y.ix, dcid, OwnerOf(y, w)).0)
    case ReplaceEvent(dcids) => y.(ix := PublishBatch(y.ix, dcids, OwnerOf(y, w)).0)
    case RetireEvent(dcid) => y.(ix := RetireFor(y.ix, dcid, OwnerOf(y, w)).0)
    case Closed => y.(ix := CloseFlow(y.ix, y.flows[w]).0, flows := y.flows[w := y.flows[w] + c.workers])
  }

  /** Every indexed identifier belongs to its hash owner, under that worker's current flow. */
  ghost predicate HashOwned(y: System, c: Config) {
    forall d :: Resolve(y.ix, d).Some? ==> OwnedAs(y, c, d, Resolve(y.ix, d).value)
  }

  ghost predicate OwnedAs(y: System, c: Config, d: Bytes, o: Owner) {
    o.flowWorkerId < |y.flows| && BootstrapOwner(d, c.workers) == Ok(o.flowWorkerId)
        && o.quicFlowId == y.flows[o.flowWorkerId]
  }

  /** Flow ids of worker `w` are congruent to `w + 1`, so ids of different workers never meet. */
  ghost predicate Congruent(flows: seq<U64>, workers: nat) {
    forall w :: 0 <= w < |flows| ==> flows[w] >= 1 && workers > 0 && (flows[w] - 1) % workers == w
  }

  ghost predicate KnownOwned(y: System, c: Config) {
    && (forall w, d :: 0 <= w < |y.known| && d in y.known[w] ==> BootstrapOwner(d, c.workers) == Ok(w))
    && (forall w, i :: 0 <= w < |y.inbox| && 0 <= i < |y.inbox[w]| ==> InboxOwned(y.inbox[w][i], w, c))
  }

  ghost predicate InboxOwned(packet: Bytes, w: nat, c: Config) {
    var d := ExtractDcid(packet, c.fixedLen);
    d.Some? && BootstrapOwner(d.value, c.workers) == Ok(w)
  }

  ghost predicate SystemInv(y: System, c: Config) {
    Shape(y, c) && Inv(y.ix) && HashOwned(y, c) && Congruent(y.flows, c.workers) && KnownOwned(y, c)
  }

  /** A known identifier is free or already the worker's own. */
  lemma {:induction false} KnownIsFree(y: System, w: nat, d: Bytes, c: Config)
    requires SystemInv(y, c) && w < c.workers && BootstrapOwner(d, c.workers) == Ok(w)
    ensures Conflict(y.ix, d, OwnerOf(y, w)) == None
  {
    if Resolve(y.ix, d).Some? { assert OwnedAs(y, c, d, Resolve(y.ix, d).value); }
  }

  /** No stage, publish or batch of any worker is ever refused. */
  lemma {:induction false} NeverConflicts(y: System, w: nat, step: Step, c: Config)
    requires SystemInv(y, c) && w < c.workers && Enabled(y, w, step, c)
    ensures Outcome(y, w, step).Ok?
  {
    hide Conflict, BootstrapOwner;
    match step {
      case StageEvent(dcid) => KnownIsFree(y, w, dcid, c);
      case PublishEvent(dcid) => KnownIsFree(y, w, dcid, c);
      case ReplaceEvent(dcids) =>
        forall d | d in dcids ensures Conflict(y.ix, d, OwnerOf(y, w)) == None { KnownIsFree(y, w, d, c); }
        NoConflict(y.ix, dcids, OwnerOf(y, w));
      case _ =>
    }
  }

  /** Flow ids of different workers differ. */
  /** No flow id of one worker in one state is a flow id of another worker in the other. */
  ghost predicate FlowsApart(y: System, z: System, c: Config) {
    && |y.flows| == |z.flows| == c.workers
    && forall v, w :: 0 <= v < c.workers && 0 <= w < c.workers && v != w ==> y.flows[v] != z.flows[w]
  }

  lemma {:induction false} FlowsDiffer(y: System, z: System, c: Config)
    requires Shape(y, c) && Shape(z, c) && Congruent(y.flows, c.workers) && Congruent(z.flows, c.workers)
    ensures FlowsApart(y, z, c)
  {
    forall v, w | 0 <= v < c.workers && 0 <= w < c.workers && v != w ensures y.flows[v] != z.flows[w] {
      assert (y.flows[v] - 1) % c.workers == v && (z.flows[w] - 1) % c.workers == w;
    }
  }

  lemma {:induction false} StageOwned(y: System, w: nat, dcid: Bytes, c: Config)
    requires SystemInv(y, c) && w < c.workers && dcid in y.known[w]
    ensures SystemInv(y.(ix := Stage(y.ix, dcid, OwnerOf(y, w)).0), c)
    ensures SystemInv(y.(ix := Publish(y.ix, dcid, OwnerOf(y, w)).0), c)
  {
    hide BootstrapOwner, Inv, Congruent;
    StageKeeps(y.ix, dcid, OwnerOf(y, w));
    PublishKeeps(y.ix, dcid, OwnerOf(y, w));
    hide Resolve, Stage, Publish;
    SameButIndex(y, Stage(y.ix, dcid, OwnerOf(y, w)).0, w, {dcid}, c);
    SameButIndex(y, Publish(y.ix, dcid, OwnerOf(y, w)).0, w, {dcid}, c);
  }

  /** An index that only gained the worker's own identifiers, or lost some. */
  lemma {:induction false} SameButIndex(y: System, ix: Index, w: nat, added: set<Bytes>, c: Config)
    requires SystemInv(y, c) && w < c.workers && Inv(ix)
    requires forall d :: d in added ==> BootstrapOwner(d, c.workers) == Ok(w)
    requires forall d ::
        Resolve(ix, d) in {None, Resolve(y.ix, d)} || (d in added && Resolve(ix, d) == Some(OwnerOf(y, w)))
    ensures SystemInv(y.(ix := ix), c)
  {
    hide BootstrapOwner, Inv, Congruent, Resolve;
    var z := y.(ix := ix);
    forall d | Resolve(z.ix, d).Some? ensures OwnedAs(z, c, d, Resolve(z.ix, d).value) {
      if Resolve(ix, d) == Resolve(y.ix, d) { assert OwnedAs(y, c, d, Resolve(y.ix, d).value); }
    }
  }

  lemma {:induction false} ReplaceOwned(y: System, w: nat, dcids: seq<Bytes>, c: Config)
    requires SystemInv(y, c) && w < c.workers && forall d :: d in dcids ==> d in y.known[w]
    ensures SystemInv(y.(ix := PublishBatch(y.ix, dcids, OwnerOf(y, w)).0), c)
  {
    hide BootstrapOwner, Inv, Congruent, Resolve, PublishBatch;
    BatchAllOrNothing(y.ix, dcids, OwnerOf(y, w));
    SameButIndex(y, PublishBatch(y.ix, dcids, OwnerOf(y, w)).0, w, Members(dcids), c);
  }

  lemma {:induction false} RetireOwned(y: System, w: nat, dcid: Bytes, c: Config)
    requires SystemInv(y, c) && w < c.workers
    ensures SystemInv(y.(ix := RetireFor(y.ix, dcid, OwnerOf(y, w)).0), c)
  {
    hide BootstrapOwner, Inv, Congruent, Resolve, Retire;
    RetireKeeps(y.ix, dcid);
    SameButIndex(y, RetireFor(y.ix, dcid, OwnerOf(y, w)).0, w, {}, c);
  }

  /** Closing advances the worker's flow id; nothing of the closed flow is left in the index. */
  lemma {:induction false} ClosedOwned(y: System, w: nat, c: Config)
    requires SystemInv(y, c) && w < c.workers && Enabled(y, w, Closed, c)
    ensures SystemInv(Apply(y, w, Closed, c), c)
  {
    hide BootstrapOwner, Inv, Resolve;
    CloseFlowKeeps(y.ix, y.flows[w]);
    var z := Apply(y, w, Closed, c);
    assert (z.flows[w] - 1) % c.workers == w by { NextFlow(y.flows[w] - 1, c.workers); }
    forall d | Resolve(z.ix, d).Some? ensures OwnedAs(z, c, d, Resolve(z.ix, d).value) {
      assert OwnedAs(y, c, d, Resolve(y.ix, d).value);
    }
  }

  lemma NextFlow(x: nat, n: nat)
    requires n > 0
    ensures (x + n) % n == x % n
  {
    var q := x / n;
    var r := x % n;
    assert x + n == (q + 1) * n + r;
    Remainder(q + 1, n, r);
  }

  lemma {:induction false} Remainder(q: nat, n: nat, r: nat)
    requires r < n
    ensures (q * n + r) % n == r
  {
    var x := q * n + r;
    var p := x / n;
    assert x == p * n + x % n;
    assert (q + 1) * n == q * n + n && (p + 1) * n == p * n + n;
    if q < p { Scales(q + 1, p, n); }
    if p < q { Scales(p + 1, q, n); }
  }

  /** A dispatched packet carries an identifier of the worker it is sent to. */
  lemma {:induction false} ArriveOwned(y: System, w: nat, packet: Bytes, c: Config)
    requires SystemInv(y, c) && w < c.workers && Enabled(y, w, Arrive(packet), c)
    ensures SystemInv(Apply(y, w, Arrive(packet), c), c)
  {
    hide BootstrapOwner, Inv, Congruent, Resolve, ParseQuicDcid, ExtractDcid;
    ReadingsAgree(packet, c.fixedLen);
    var d := ParseQuicDcid(packet, c.fixedLen).value.0;
    if Resolve(y.ix, d).Some? { assert OwnedAs(y, c, d, Resolve(y.ix, d).value); }
    var z := Apply(y, w, Arrive(packet), c);
    forall v, i | 0 <= v < |z.inbox| && 0 <= i < |z.inbox[v]| ensures InboxOwned(z.inbox[v][i], v, c) {
      if v == w && i == |y.inbox[w]| {
        assert z.inbox[v][i] == packet;
      } else {
        assert InboxOwned(y.inbox[v][i], v, c);
      }
    }
    assert forall e :: Resolve(z.ix, e).Some? && OwnedAs(y, c, e, Resolve(y.ix, e).value) ==>
        OwnedAs(z, c, e, Resolve(z.ix, e).value);
  }

  lemma {:induction false} AcceptOwned(y: System, w: nat, c: Config)
    requires SystemInv(y, c) && w < c.workers && Enabled(y, w, Accept, c)
    ensures SystemInv(Apply(y, w, Accept, c), c)
  {
    hide BootstrapOwner, Inv, Congruent, Resolve, ExtractDcid;
    assert InboxOwned(y.inbox[w][0], w, c);
    var z := Apply(y, w, Accept, c);
    forall v, i | 0 <= v < |z.inbox| && 0 <= i < |z.inbox[v]| ensures InboxOwned(z.inbox[v][i], v, c) {
      assert InboxOwned(y.inbox[v][if v == w then i + 1 else i], v, c);
    }
    assert forall e :: Resolve(z.ix, e).Some? && OwnedAs(y, c, e, Resolve(y.ix, e).value) ==>
        OwnedAs(z, c, e, Resolve(z.ix, e).value);
  }

  lemma {:induction false} GenerateOwned(y: System, w: nat, dcid: Bytes, c: Config)
    requires SystemInv(y, c) && w < c.workers && Enabled(y, w, Generate(dcid), c)
    ensures SystemInv(Apply(y, w, Generate(dcid), c), c)
  {
    hide BootstrapOwner, Inv, Congruent, Resolve;
    var z := Apply(y, w, Generate(dcid), c);
    assert forall e :: Resolve(z.ix, e).Some? && OwnedAs(y, c, e, Resolve(y.ix, e).value) ==>
        OwnedAs(z, c, e, Resolve(z.ix, e).value);
  }

  /** Every step keeps ownership by hash, the inverse and the congruence of flow ids. */
  lemma {:induction false} StepKeeps(y: System, w: nat, step: Step, c: Config)
    requires SystemInv(y, c) && w < c.workers && Enabled(y, w, step, c)
    ensures SystemInv(Apply(y, w, step, c), c)
  {
    hide SystemInv, BootstrapOwner, Stage, Publish, PublishBatch, RetireFor, CloseFlow;
    match step {
      case Generate(dcid) => GenerateOwned(y, w, dcid, c);
      case Arrive(packet) => ArriveOwned(y, w, packet, c);
      case Accept => AcceptOwned(y, w, c);
      case StageEvent(dcid) => StageOwned(y, w, dcid, c);
      case PublishEvent(dcid) => StageOwned(y, w, dcid, c);
      case ReplaceEvent(dcids) => ReplaceOwned(y, w, dcids, c);
      case RetireEvent(dcid) => RetireOwned(y, w, dcid, c);
      case Closed => ClosedOwned(y, w, c);
    }
  }

  // ---- Runs ----

  datatype Move = Move(worker: nat, step: Step)

  /** Start-up: worker `w` begins with flow id `w + 1` and an empty index. */
  ghost predicate Starts(y: System, c: Config) {
    && Shape(y, c) && y.ix == EMPTY
    && (forall w :: 0 <= w < c.workers ==> y.flows[w] == w + 1 && y.inbox[w] == [] && y.known[w] == {})
  }

  ghost predicate IsRun(states: seq<System>, moves: seq<Move>, c: Config) {
    && |states| == |moves| + 1 && Starts(states[0], c)
    && forall i :: 0 <= i < |moves| ==> Follows(states[i], moves[i], states[i + 1], c)
  }

  ghost predicate Follows(y: System, m: Move, z: System, c: Config) {
    Shape(y, c) && m.worker < c.workers && Enabled(y, m.worker, m.step, c) && z == Apply(y, m.worker, m.step, c)
  }

  lemma {:induction false} StartsInv(y: System, c: Config)
    requires Starts(y, c)
    ensures SystemInv(y, c)
  {
    forall w | 0 <= w < |y.flows| ensures (y.flows[w] - 1) % c.workers == w { SmallRemainder(w, c.workers); }
  }

  lemma SmallRemainder(w: nat, n: nat)
    requires w < n
    ensures w % n == w
  {
    Remainder(0, n, w);
  }

  lemma {:induction false} RunInv(states: seq<System>, moves: seq<Move>, c: Config, i: nat)
    requires IsRun(states, moves, c) && i < |states|
    ensures SystemInv(states[i], c)
  {
    hide SystemInv, Apply, Enabled;
    if i == 0 {
      StartsInv(states[0], c);
    } else {
      RunInv(states, moves, c, i - 1);
      assert Follows(states[i - 1], moves[i - 1], states[i], c);
      StepKeeps(states[i - 1], moves[i - 1].worker, moves[i - 1].step, c);
    }
  }

  /** Over every interleaving: an indexed identifier's worker is its bootstrap hash owner, flow ids of
      different workers differ, also across all reconnects in between, and no stage, publish or batch
      is ever refused. */
  lemma {:induction false} WorkersNeverConflict(states: seq<System>, moves: seq<Move>, c: Config, i: nat)
    requires IsRun(states, moves, c) && i < |states|
    ensures var y := states[i];
      && Shape(y, c) && Inv(y.ix)
      && (forall d :: Resolve(y.ix, d).Some? ==>
          BootstrapOwner(d, c.workers) == Ok(Resolve(y.ix, d).value.flowWorkerId))
      && (forall j :: 0 <= j < |states| ==> FlowsApart(y, states[j], c))
    ensures i < |moves| ==>
        moves[i].worker < c.workers == |states[i].flows| && Outcome(states[i], moves[i].worker, moves[i].step).Ok?
  {
    hide BootstrapOwner, Inv, Resolve, Enabled, Apply, Outcome;
    RunInv(states, moves, c, i);
    var y := states[i];
    forall d | Resolve(y.ix, d).Some? ensures BootstrapOwner(d, c.workers) == Ok(Resolve(y.ix, d).value.flowWorkerId) {
      assert OwnedAs(y, c, d, Resolve(y.ix, d).value);
    }
    forall j | 0 <= j < |states| ensures FlowsApart(y, states[j], c) {
      RunInv(states, moves, c, j);
      FlowsDiffer(y, states[j], c);
    }
    if i < |moves| {
      assert Follows(states[i], moves[i], states[i + 1], c);
      NeverConflicts(y, moves[i].worker, moves[i].step, c);
    }
  }

  /** The flow id of a worker only grows, so no id is ever used twice through all reconnects. */
  lemma {:induction false} FlowsGrow(states: seq<System>, moves: seq<Move>, c: Config, i: nat, j: nat, w: nat)
    requires IsRun(states, moves, c) && i < j < |states| && w < c.workers
    ensures |states[i].flows| == |states[j].flows| == c.workers && states[i].flows[w] <= states[j].flows[w]
    ensures (exists k :: i <= k < j && moves[k] == Move(w, Closed)) ==> states[i].flows[w] < states[j].flows[w]
    decreases j
  {
    hide Stage, Publish, PublishBatch, RetireFor, CloseFlow, Dispatch, BootstrapOwner, ExtractDcid;
    assert Follows(states[j - 1], moves[j - 1], states[j], c);
    assert Follows(states[i], moves[i], states[i + 1], c);
    if i < j - 1 { FlowsGrow(states, moves, c, i, j - 1, w); }
  }

  // ---- The mutable index ----

  class ActiveDcidIndex {
    var byDcid: map<Bytes, Owner>
    var staged: map<Bytes, Owner>
    var byFlow: map<U64, set<Bytes>>

    function View(): Index
      reads this
    {
      Index(byDcid, staged, byFlow)
    }

    constructor ()
      ensures View() == EMPTY
    {
      byDcid, staged, byFlow := map[], map[], map[];
    }

    method StageForFlow(dcid: Bytes, owner: Owner) returns (r: Result<(), DcidError>)
      modifies this
      ensures (View(), r) == Stage(old(View()), dcid, owner)
    {
      if |dcid| == 0 { return Err(EmptyDcid); }
      var existing := Resolve(View(), dcid);
      if existing.Some? {
        return if existing.value == owner then Ok(()) else Err(DuplicateDcid(existing.value));
      }
      staged := staged[dcid := owner];
      r := Ok(());
    }

    method PublishForFlow(dcid: Bytes, owner: Owner) returns (r: Result<(), DcidError>)
      requires Inv(View())
      modifies this
      ensures (View(), r) == Publish(old(View()), dcid, owner)
    {
      if |dcid| == 0 { return Err(EmptyDcid); }
      if dcid in byDcid {
        return if byDcid[dcid] == owner then Ok(()) else Err(DuplicateDcid(byDcid[dcid]));
      }
      if dcid in staged {
        var existing := staged[dcid];
        staged := staged - {dcid};
        if existing != owner {
          staged := staged[dcid := existing];
          assert staged == old(staged);
          return Err(DuplicateDcid(existing));
        }
      }
      assert staged == old(staged) - {dcid};
      byDcid := byDcid[dcid := owner];
      byFlow := byFlow[owner.quicFlowId := (if owner.quicFlowId in byFlow then byFlow[owner.quicFlowId]
          else {}) + {dcid}];
      assert byDcid == Activate(old(View()), {dcid}, owner).byDcid;
      r := Ok(());
    }

    /** The two loops of `publish_batch_for_flow`: check every identifier, then activate each. */
    method PublishBatchForFlow(dcids: seq<Bytes>, owner: Owner) returns (r: Result<(), DcidError>)
      modifies this
      ensures (View(), r) == PublishBatch(old(View()), dcids, owner)
    {
      var unique: set<Bytes> := {};
      for i := 0 to |dcids|
        invariant View() == old(View()) && unique == Members(dcids[..i])
        invariant FirstConflict(View(), dcids[..i], owner) == None
      {
        assert dcids[..i + 1][..i] == dcids[..i] && dcids[..i + 1][i] == dcids[i];
        Checked(View(), dcids, owner, i);
        if |dcids[i]| == 0 { return Err(EmptyDcid); }
        if dcids[i] !in unique {
          var existing := Resolve(View(), dcids[i]);
          if existing.Some? && existing.value != owner { return Err(DuplicateDcid(existing.value)); }
          unique := unique + {dcids[i]};
        }
        assert Members(dcids[..i + 1]) == Members(dcids[..i]) + {dcids[i]};
      }
      assert dcids[..|dcids|] == dcids;
      ActivateEach(unique, owner);
      r := Ok(());
    }

    method ActivateEach(dcids: set<Bytes>, owner: Owner)
      modifies this
      ensures View() == Activate(old(View()), dcids, owner)
    {
      var left := dcids;
      while left != {}
        invariant left <= dcids && View() == Activate(old(View()), dcids - left, owner)
        decreases left
      {
        var dcid :| dcid in left;
        ActivateMore(old(View()), dcids - left, dcid, owner);
        assert dcids - left + {dcid} == dcids - (left - {dcid});
        staged := staged - {dcid};
        byDcid := byDcid[dcid := owner];
        byFlow := byFlow[owner.quicFlowId := (if owner.quicFlowId in byFlow then byFlow[owner.quicFlowId]
            else {}) + {dcid}];
        left := left - {dcid};
      }
      assert dcids - left == dcids;
    }

    method RetireDcid(dcid: Bytes) returns (r: Option<Owner>)
      requires Inv(View())
      modifies this
      ensures (View(), r) == Retire(old(View()), dcid)
    {
      var owner: Owner;
      if dcid in byDcid {
        owner := byDcid[dcid];
        byDcid := byDcid - {dcid};
      } else if dcid in staged {
        owner := staged[dcid];
        staged := staged - {dcid};
        assert byDcid - {dcid} == byDcid;
      } else {
        return None;
      }
      if owner.quicFlowId in byFlow {
        var dcids := byFlow[owner.quicFlowId] - {dcid};
        byFlow := if dcids == {} then byFlow - {owner.quicFlowId} else byFlow[owner.quicFlowId := dcids];
      }
      r := Some(owner);
    }

    method RetireForFlow(dcid: Bytes, owner: Owner) returns (r: Option<Owner>)
      requires Inv(View())
      modifies this
      ensures (View(), r) == RetireFor(old(View()), dcid, owner)
    {
      if Resolve(View(), dcid) != Some(owner) { return None; }
      r := RetireDcid(dcid);
    }

    /** `close_flow`: the loop over the flow's identifiers. */
    method Close(flow: U64) returns (removed: nat)
      modifies this
      ensures (View(), removed) == CloseFlow(old(View()), flow)
    {
      removed := 0;
      if flow in byFlow {
        var dcids := byFlow[flow];
        byFlow := byFlow - {flow};
        removed := |dcids|;
        var left := dcids;
        while left != {}
          invariant left <= dcids && byDcid == old(byDcid) - (dcids - left)
          invariant staged == old(staged) && byFlow == old(byFlow) - {flow}
          decreases left
        {
          var dcid :| dcid in left;
          byDcid := byDcid - {dcid};
          left := left - {dcid};
        }
        assert dcids - left == dcids;
      } else {
        assert byFlow - {flow} == byFlow && byDcid - {} == byDcid;
      }
      staged := map d | d in staged && staged[d].quicFlowId != flow :: staged[d];
    }
  }

  lemma Checked(ix: Index, dcids: seq<Bytes>, owner: Owner, i: nat)
    requires i < |dcids| && FirstConflict(ix, dcids[..i], owner) == None
    ensures FirstConflict(ix, dcids[..i + 1], owner) == Conflict(ix, dcids[i], owner)
    ensures dcids[i] in Members(dcids[..i]) ==> Conflict(ix, dcids[i], owner) == None
    ensures FirstConflict(ix, dcids[..i + 1], owner).Some? ==>
        FirstConflict(ix, dcids, owner) == FirstConflict(ix, dcids[..i + 1], owner)
  {
    hide Conflict;
    assert dcids[..i + 1][..i] == dcids[..i];
    NoConflict(ix, dcids[..i], owner);
    if FirstConflict(ix, dcids[..i + 1], owner).Some? { FirstStays(ix, dcids, owner, i + 1); }
  }

  lemma {:induction false} FirstStays(ix: Index, dcids: seq<Bytes>, owner: Owner, k: nat)
    requires k <= |dcids| && FirstConflict(ix, dcids[..k], owner).Some?
    ensures FirstConflict(ix, dcids, owner) == FirstConflict(ix, dcids[..k], owner)
    decreases |dcids|
  {
    hide Conflict;
    if k == |dcids| {
      assert dcids[..k] == dcids;
    } else {
      var front := dcids[..|dcids| - 1];
      assert front[..k] == dcids[..k];
      FirstStays(ix, front, owner, k);
    }
  }

  lemma {:induction false} ActivateMore(ix: Index, dcids: set<Bytes>, dcid: Bytes, owner: Owner)
    ensures var a := Activate(ix, dcids, owner);
      Activate(ix, dcids + {dcid}, owner) ==
      Index(a.byDcid[dcid := owner], a.staged - {dcid},
          a.byFlow[owner.quicFlowId := Flow(a, owner.quicFlowId) + {dcid}])
  {
    var a := Activate(ix, dcids, owner);
    var b := Activate(ix, dcids + {dcid}, owner);
    assert b.byDcid == a.byDcid[dcid := owner];
    assert b.staged == a.staged - {dcid};
    assert Flow(ix, owner.quicFlowId) + (dcids + {dcid}) == Flow(a, owner.quicFlowId) + {dcid};
    assert b.byFlow == a.byFlow[owner.quicFlowId := Flow(a, owner.quicFlowId) + {dcid}];
  }
}
