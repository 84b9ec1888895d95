/** The AF_XDP socket: one packet memory of 2048 chunks whose ownership moves between the fill,
    receive, transmit and completion rings, the kernel and the free list. The user side runs one
    memory access at a time; the kernel is any device that honours the ring protocol. */
module Xsk {
  import opened Core
  import opened Ring

  const CHUNK_SIZE: nat := 4096
  const CHUNK_COUNT: nat := 2048
  const RX_CHUNKS: nat := 1024

  /** A ring descriptor: a byte address in the packet memory and a length. */
  datatype Desc = Desc(addr: nat, len: nat)

  function Chunk(addr: nat): (r: nat) {
    addr / CHUNK_SIZE
  }

  function Within(addr: nat): (r: nat)
    ensures r < CHUNK_SIZE
  {
    addr % CHUNK_SIZE
  }

  function Address(chunk: nat, at: nat): (r: nat) {
    chunk * CHUNK_SIZE + at
  }

  datatype RxPc =
    | RxQuiet
    | Taking(count: nat, offset: nat) // `receive_with` inside its loop
    | Publishing                      // receive consumer published, fill producer not yet

  datatype RxSide = RxSide(
    fillSlots: seq<nat>, fillProducer: U32, fillShared: U32, fillConsumer: U32,
    held: seq<nat>,
    rxSlots: seq<Desc>, rxProducer: U32, rxConsumer: U32,
    pc: RxPc)

  datatype TxPc =
    | TxQuiet
    | Reclaiming(frames: seq<Bytes>, count: nat, offset: nat) // `reclaim_completions` inside its loop
    | Sending(frames: seq<Bytes>, offset: nat)                // `transmit_batch` inside its loop

  datatype TxSide = TxSide(
    txSlots: seq<Desc>, txProducer: U32, txShared: U32, txConsumer: U32,
    inFlight: seq<nat>,
    doneSlots: seq<nat>, doneProducer: U32, doneConsumer: U32,
    freeTx: seq<nat>,
    pc: TxPc)

  /** `delivered` and `queued` record the frames the kernel has put into the receive ring and the
      user has put into the transmit ring, in order. */
  datatype State = State(rx: RxSide, tx: TxSide, umem: seq<Bytes>, delivered: seq<Bytes>, queued: seq<Bytes>)

  /** `tx_batch_capacity`. */
  function TxBatchCapacity(requested: nat, free: nat, producer: U32, consumer: U32): (r: nat) {
    var used := Ahead(producer, consumer);
    var available := if used <= RING_SIZE then RING_SIZE - used else 0;
    Min(Min(requested, free), available)
  }

  function Min(a: nat, b: nat): nat {
    if a < b then a else b
  }

  predicate Readable(umem: seq<Bytes>, d: Desc) {
    Chunk(d.addr) < |umem| && Within(d.addr) + d.len <= |umem[Chunk(d.addr)]|
  }

  function Read(umem: seq<Bytes>, d: Desc): (r: Bytes)
    requires Readable(umem, d)
  {
    umem[Chunk(d.addr)][Within(d.addr)..Within(d.addr) + d.len]
  }

  function WriteAt(umem: seq<Bytes>, addr: nat, data: Bytes): (r: seq<Bytes>)
    requires Readable(umem, Desc(addr, |data|))
  {
    umem[Chunk(addr) := Splice(umem[Chunk(addr)], Within(addr), data)]
  }

  function Without<T>(s: seq<T>, i: nat): (r: seq<T>)
    requires i < |s|
  {
    s[..i] + s[i + 1..]
  }

  // ---- Receive-side steps ----

  /** `push_fill`: no check that the slot is free. */
  function PushFill(r: RxSide, addr: nat): (n: RxSide)
    requires |r.fillSlots| == RING_SIZE
  {
    r.(fillSlots := r.fillSlots[Slot(r.fillProducer) := addr], fillProducer := Plus(r.fillProducer, 1))
  }

  function TakeStart(r: RxSide, budget: nat): (n: RxSide) {
    var count := Min(Ahead(r.rxProducer, r.rxConsumer), budget);
    if count == 0 then r else r.(pc := Taking(count, 0))
  }

  function Next(r: RxSide): (d: Desc)
    requires r.pc.Taking? && |r.rxSlots| == RING_SIZE
  {
    r.rxSlots[Slot(Plus(r.rxConsumer, r.pc.offset))]
  }

  function TakeOne(r: RxSide): (n: RxSide)
    requires r.pc.Taking? && |r.rxSlots| == |r.fillSlots| == RING_SIZE
  {
    PushFill(r, Next(r).addr).(pc := Taking(r.pc.count, r.pc.offset + 1))
  }

  function TakeCommit(r: RxSide): (n: RxSide)
    requires r.pc.Taking?
  {
    r.(rxConsumer := Plus(r.rxConsumer, r.pc.count), pc := Publishing)
  }

  function TakePublish(r: RxSide): (n: RxSide) {
    r.(fillShared := r.fillProducer, pc := RxQuiet)
  }

  /** The kernel takes a chunk from the fill ring. */
  function KernelFill(r: RxSide): (n: RxSide)
    requires |r.fillSlots| == RING_SIZE
  {
    r.(held := r.held + [Chunk(r.fillSlots[Slot(r.fillConsumer)])], fillConsumer := Plus(r.fillConsumer, 1))
  }

  /** The kernel puts a frame into one of its chunks and a descriptor into the receive ring. */
  function KernelReceive(r: RxSide, i: nat, at: nat, length: nat): (n: RxSide)
    requires i < |r.held| && |r.rxSlots| == RING_SIZE
  {
    r.(held := Without(r.held, i),
       rxSlots := r.rxSlots[Slot(r.rxProducer) := Desc(Address(r.held[i], at), length)],
       rxProducer := Plus(r.rxProducer, 1))
  }

  // ---- Transmit-side steps ----

  function BatchStart(t: TxSide, frames: seq<Bytes>): (n: TxSide) {
    if |frames| == 0 then t else t.(pc := Reclaiming(frames, Ahead(t.doneProducer, t.doneConsumer), 0))
  }

  function ReclaimOne(t: TxSide): (n: TxSide)
    requires t.pc.Reclaiming? && |t.doneSlots| == RING_SIZE
  {
    t.(freeTx := t.freeTx + [t.doneSlots[Slot(Plus(t.doneConsumer, t.pc.offset))]],
        pc := Reclaiming(t.pc.frames, t.pc.count, t.pc.offset + 1))
  }

  /** The completion consumer is published and the batch is sized; an oversized frame refuses it. */
  function ReclaimDone(t: TxSide): (n: TxSide)
    requires t.pc.Reclaiming?
  {
    var count := TxBatchCapacity(|t.pc.frames|, |t.freeTx|, t.txShared, t.txConsumer);
    var frames := t.pc.frames[..count];
    t.(doneConsumer := Plus(t.doneConsumer, t.pc.count),
       pc := if count == 0 || exists i :: 0 <= i < |frames| && |frames[i]| > CHUNK_SIZE then TxQuiet
           else Sending(frames, 0))
  }

  function SendOne(t: TxSide): (n: TxSide)
    requires t.pc.Sending? && t.pc.offset < |t.pc.frames| && |t.freeTx| > 0 && |t.txSlots| == RING_SIZE
  {
    t.(txSlots := t.txSlots[Slot(t.txProducer) := Desc(t.freeTx[0], |t.pc.frames[t.pc.offset]|)],
       txProducer := Plus(t.txProducer, 1), freeTx := t.freeTx[1..], pc := Sending(t.pc.frames, t.pc.offset + 1))
  }

  function SendCommit(t: TxSide): (n: TxSide) {
    t.(txShared := t.txProducer, pc := TxQuiet)
  }

  /** The kernel takes a frame from the transmit ring. */
  function KernelTake(t: TxSide): (n: TxSide)
    requires |t.txSlots| == RING_SIZE
  {
    t.(inFlight := t.inFlight + [t.txSlots[Slot(t.txConsumer)].addr], txConsumer := Plus(t.txConsumer, 1))
  }

  /** The kernel reports a sent frame's chunk in the completion ring. */
  function KernelComplete(t: TxSide, i: nat): (n: TxSide)
    requires i < |t.inFlight| && |t.doneSlots| == RING_SIZE
  {
    t.(inFlight := Without(t.inFlight, i), doneSlots := t.doneSlots[Slot(t.doneProducer) := t.inFlight[i]],
       doneProducer := Plus(t.doneProducer, 1))
  }

  // ---- Where the chunks are ----

  ghost function Chunks(addrs: seq<nat>): (r: multiset<nat>) {
    multiset(seq(|addrs|, i requires 0 <= i < |addrs| => Chunk(addrs[i])))
  }

  ghost function Addrs(descs: seq<Desc>): (r: seq<nat>) {
    seq(|descs|, i requires 0 <= i < |descs| => descs[i].addr)
  }

  /** The chunk numbers from `from` up to `to`. */
  ghost function Pool(from: nat, to: nat): (r: set<nat>)
    ensures forall c :: c in r <==> from <= c < to
  {
    if from >= to then {} else Pool(from, to - 1) + {to - 1}
  }

  ghost function FillRing(r: RxSide): seq<nat>
    requires |r.fillSlots| == RING_SIZE
  {
    Between(r.fillSlots, r.fillConsumer, r.fillProducer)
  }

  function RxNext(r: RxSide): U32 {
    if r.pc.Taking? then Plus(r.rxConsumer, r.pc.offset) else r.rxConsumer
  }

  /** The received descriptors not yet handed to the frame handler. */
  ghost function RxRing(r: RxSide): seq<Desc>
    requires |r.rxSlots| == RING_SIZE
  {
    Between(r.rxSlots, RxNext(r), r.rxProducer)
  }

  ghost function TxRing(t: TxSide): seq<Desc>
    requires |t.txSlots| == RING_SIZE
  {
    Between(t.txSlots, t.txConsumer, t.txProducer)
  }

  function DoneNext(t: TxSide): U32 {
    if t.pc.Reclaiming? then Plus(t.doneConsumer, t.pc.offset) else t.doneConsumer
  }

  ghost function DoneRing(t: TxSide): seq<nat>
    requires |t.doneSlots| == RING_SIZE
  {
    Between(t.doneSlots, DoneNext(t), t.doneProducer)
  }

  /** Counters: rings never overfull, the published producer never ahead of the local one. */
  ghost predicate RxCounters(r: RxSide) {
    && |r.fillSlots| == |r.rxSlots| == RING_SIZE
    && Ahead(r.fillProducer, r.fillConsumer) <= RING_SIZE
    && Ahead(r.fillShared, r.fillConsumer) <= Ahead(r.fillProducer, r.fillConsumer)
    && Ahead(r.rxProducer, r.rxConsumer) <= RING_SIZE
    && (r.pc.Taking? ==> r.pc.offset <= r.pc.count <= Ahead(r.rxProducer, r.rxConsumer))
  }

  /** Each receive chunk is in exactly one of fill ring, kernel and receive ring. */
  ghost predicate RxConserved(r: RxSide)
    requires |r.fillSlots| == |r.rxSlots| == RING_SIZE
  {
    Chunks(FillRing(r)) + multiset(r.held) + Chunks(Addrs(RxRing(r))) == multiset(Pool(0, RX_CHUNKS))
  }

  ghost predicate TxCounters(t: TxSide) {
    && |t.txSlots| == |t.doneSlots| == RING_SIZE
    && Ahead(t.txProducer, t.txConsumer) <= RING_SIZE
    && Ahead(t.txShared, t.txConsumer) <= Ahead(t.txProducer, t.txConsumer)
    && Ahead(t.doneProducer, t.doneConsumer) <= RING_SIZE
    && (t.pc.Reclaiming? ==> t.pc.offset <= t.pc.count <= Ahead(t.doneProducer, t.doneConsumer))
    && (!t.pc.Sending? ==> t.txShared == t.txProducer)
    && (t.pc.Sending? ==>
          && t.pc.offset <= |t.pc.frames| && |t.pc.frames| - t.pc.offset <= |t.freeTx|
          && |t.pc.frames| - t.pc.offset + Ahead(t.txProducer, t.txConsumer) <= RING_SIZE
          && forall i :: 0 <= i < |t.pc.frames| ==> |t.pc.frames[i]| <= CHUNK_SIZE)
  }

  /** Each transmit chunk is in exactly one of free list, transmit ring, kernel and completion ring. */
  ghost predicate TxConserved(t: TxSide)
    requires |t.txSlots| == |t.doneSlots| == RING_SIZE
  {
    Chunks(t.freeTx) + Chunks(Addrs(TxRing(t))) + Chunks(t.inFlight) + Chunks(DoneRing(t)) == multiset(Pool(RX_CHUNKS,
        CHUNK_COUNT))
  }

  ghost predicate Aligned(addrs: seq<nat>) {
    forall i :: 0 <= i < |addrs| ==> Within(addrs[i]) == 0
  }

  ghost predicate TxAligned(t: TxSide)
    requires |t.txSlots| == |t.doneSlots| == RING_SIZE
  {
    Aligned(t.freeTx) && Aligned(Addrs(TxRing(t))) && Aligned(t.inFlight) && Aligned(DoneRing(t))
  }

  ghost predicate Shows(umem: seq<Bytes>, descs: seq<Desc>, frames: seq<Bytes>) {
    && |descs| == |frames|
    && forall i :: 0 <= i < |descs| ==> Readable(umem, descs[i]) && Read(umem, descs[i]) == frames[i]
  }

  ghost predicate Sized(umem: seq<Bytes>) {
    |umem| == CHUNK_COUNT && forall c :: 0 <= c < |umem| ==> |umem[c]| == CHUNK_SIZE
  }

  ghost predicate RxInv(r: RxSide) {
    RxCounters(r) && RxConserved(r)
  }

  ghost predicate TxInv(t: TxSide) {
    TxCounters(t) && TxConserved(t) && TxAligned(t)
  }

  /** The whole invariant: conservation on both sides, and each ring descriptor shows exactly the
      frame that was put into the ring at its place. */
  ghost predicate Inv(s: State) {
    && |s.rx.fillSlots| == |s.rx.rxSlots| == |s.tx.txSlots| == |s.tx.doneSlots| == RING_SIZE
    && RxInv(s.rx) && TxInv(s.tx) && Sized(s.umem)
    && Shows(s.umem, RxRing(s.rx), s.delivered)
    && Shows(s.umem, TxRing(s.tx), s.queued)
  }

  // ---- Multisets of chunks ----

  lemma {:induction false} ChunksAppend(a: seq<nat>, x: nat)
    ensures Chunks(a + [x]) == Chunks(a) + multiset{Chunk(x)}
  {
    var s := seq(|a|, i requires 0 <= i < |a| => Chunk(a[i]));
    var b := a + [x];
    var t := seq(|b|, i requires 0 <= i < |b| => Chunk(b[i]));
    assert t == s + [Chunk(x)];
  }

  lemma {:induction false} ChunksTail(a: seq<nat>)
    requires |a| > 0
    ensures Chunks(a) == multiset{Chunk(a[0])} + Chunks(a[1..])
  {
    var s := seq(|a|, i requires 0 <= i < |a| => Chunk(a[i]));
    var b := a[1..];
    var t := seq(|b|, i requires 0 <= i < |b| => Chunk(b[i]));
    assert s == [Chunk(a[0])] + t;
  }

  lemma {:induction false} ChunksWithout(a: seq<nat>, k: nat)
    requires k < |a|
    ensures Chunks(a) == multiset{Chunk(a[k])} + Chunks(Without(a, k))
  {
    var s := seq(|a|, i requires 0 <= i < |a| => Chunk(a[i]));
    var b := Without(a, k);
    var t := seq(|b|, i requires 0 <= i < |b| => Chunk(b[i]));
    assert t == Without(s, k);
    WithoutCounts(s, k);
  }

  lemma {:induction false} WithoutCounts<T>(s: seq<T>, k: nat)
    requires k < |s|
    ensures multiset(s) == multiset{s[k]} + multiset(Without(s, k))
  {
    assert s == s[..k] + [s[k]] + s[k + 1..];
  }

  lemma ChunksSize(a: seq<nat>)
    ensures |Chunks(a)| == |a|
  {
  }

  lemma {:induction false} ChunkIn(a: seq<nat>, i: nat)
    requires i < |a|
    ensures Chunk(a[i]) in Chunks(a)
  {
    var s := seq(|a|, j requires 0 <= j < |a| => Chunk(a[j]));
    assert s[i] in multiset(s);
  }

  lemma {:induction false} PoolSize(from: nat, to: nat)
    requires from <= to
    ensures |Pool(from, to)| == to - from
  {
    if from < to {
      PoolSize(from, to - 1);
    }
  }

  /** Two chunks at different places of a list within the pool differ. */
  lemma {:induction false} ChunksDiffer(a: seq<nat>, from: nat, to: nat, i: nat, j: nat)
    requires Chunks(a) <= multiset(Pool(from, to)) && i < j < |a|
    ensures Chunk(a[i]) != Chunk(a[j])
  {
    ChunksWithout(a, i);
    var b := Without(a, i);
    ChunkIn(b, j - 1);
    assert b[j - 1] == a[j];
    assert multiset(Pool(from, to))[Chunk(a[i])] <= 1;
  }

  lemma AddrsAppend(d: seq<Desc>, x: Desc)
    ensures Addrs(d + [x]) == Addrs(d) + [x.addr]
  {
  }

  lemma AddrsTail(d: seq<Desc>)
    requires |d| > 0
    ensures Addrs(d[1..]) == Addrs(d)[1..] && Addrs(d)[0] == d[0].addr
  {
  }

  lemma ChunkOf(c: nat, at: nat)
    requires at < CHUNK_SIZE
    ensures Chunk(Address(c, at)) == c && Within(Address(c, at)) == at
  {
  }

  // ---- Receive side ----

  /** The unchecked push of a received chunk never finds the fill ring full: the chunk being
      returned is still counted in the receive ring, so at most 1023 others can be in the fill ring. */
  lemma {:induction false} PushFillFits(r: RxSide)
    requires RxInv(r) && r.pc.Taking? && r.pc.offset < r.pc.count
    ensures |RxRing(r)| > 0 && Next(r) == RxRing(r)[0]
    ensures Ahead(r.fillProducer, r.fillConsumer) < RING_SIZE
  {
    hide Plus, Ahead, Slot;
    AheadTake(r.rxProducer, r.rxConsumer, r.pc.offset);
    At(r.rxSlots, RxNext(r), r.rxProducer, 0);
    PlusZero(RxNext(r));
    ChunksSize(FillRing(r));
    ChunksSize(Addrs(RxRing(r)));
    PoolSize(0, RX_CHUNKS);
    assert |multiset(Pool(0, RX_CHUNKS))| == RX_CHUNKS;
    assert |Chunks(FillRing(r)) + multiset(r.held) + Chunks(Addrs(RxRing(r)))| == |FillRing(r)| + |r.held| + |RxRing(r)|;
  }

  lemma PlusZero(a: U32)
    ensures Plus(a, 0) == a
  {
  }

  lemma {:induction false} TakeOneKeeps(r: RxSide)
    requires RxInv(r) && r.pc.Taking? && r.pc.offset < r.pc.count
    ensures RxInv(TakeOne(r)) && RxRing(TakeOne(r)) == RxRing(r)[1..]
  {
    hide Plus, Ahead, Slot, Chunks;
    PushFillFits(r);
    var n := TakeOne(r);
    var addr := Next(r).addr;
    Push(r.fillSlots, r.fillConsumer, r.fillProducer, addr);
    assert FillRing(n) == FillRing(r) + [addr];
    ChunksAppend(FillRing(r), addr);
    AheadNext(r.fillProducer, r.fillConsumer);
    RxNextAdvances(r);
    Drop(r.rxSlots, RxNext(r), r.rxProducer, 1);
    AddrsTail(RxRing(r));
    ChunksTail(Addrs(RxRing(r)));
  }

  lemma RxNextAdvances(r: RxSide)
    requires r.pc.Taking? && r.pc.offset < RING_SIZE
    requires |r.rxSlots| == |r.fillSlots| == RING_SIZE
    ensures RxNext(TakeOne(r)) == Plus(RxNext(r), 1)
  {
    hide Plus;
    PlusPlus(r.rxConsumer, r.pc.offset, 1);
  }

  lemma {:induction false} TakeQuietKeeps(r: RxSide, budget: nat)
    requires RxInv(r)
    ensures r.pc.RxQuiet? ==> RxInv(TakeStart(r, budget)) && RxRing(TakeStart(r, budget)) == RxRing(r)
    ensures r.pc.Publishing? ==> RxInv(TakePublish(r)) && RxRing(TakePublish(r)) == RxRing(r)
    ensures r.pc.Taking? && r.pc.offset == r.pc.count ==> RxInv(TakeCommit(r)) && RxRing(TakeCommit(r)) == RxRing(r)
  {
    hide Plus, Ahead, Slot, Chunks;
    PlusZero(r.rxConsumer);
    if r.pc.RxQuiet? {
      assert RxNext(TakeStart(r, budget)) == RxNext(r);
    }
    if r.pc.Taking? && r.pc.offset == r.pc.count {
      AheadTake(r.rxProducer, r.rxConsumer, r.pc.count);
    }
  }

  lemma {:induction false} KernelFillKeeps(r: RxSide)
    requires RxInv(r) && Ahead(r.fillShared, r.fillConsumer) > 0
    ensures RxInv(KernelFill(r)) && RxRing(KernelFill(r)) == RxRing(r)
  {
    hide Plus, Ahead, Slot, Chunks;
    var n := KernelFill(r);
    PlusZero(r.fillConsumer);
    At(r.fillSlots, r.fillConsumer, r.fillProducer, 0);
    Drop(r.fillSlots, r.fillConsumer, r.fillProducer, 1);
    ChunksTail(FillRing(r));
    AheadTake(r.fillProducer, r.fillConsumer, 1);
    AheadTake(r.fillShared, r.fillConsumer, 1);
  }

  lemma {:induction false} KernelReceiveKeeps(r: RxSide, i: nat, at: nat, length: nat)
    requires RxInv(r) && i < |r.held| && Ahead(r.rxProducer, r.rxConsumer) < RING_SIZE && at < CHUNK_SIZE
    ensures var n := KernelReceive(r, i, at, length);
      RxInv(n) && RxRing(n) == RxRing(r) + [Desc(Address(r.held[i], at), length)]
  {
    hide Plus, Ahead, Slot, Chunks;
    var n := KernelReceive(r, i, at, length);
    var d := Desc(Address(r.held[i], at), length);
    if r.pc.Taking? { AheadTake(r.rxProducer, r.rxConsumer, r.pc.offset); }
    Push(r.rxSlots, RxNext(r), r.rxProducer, d);
    AddrsAppend(RxRing(r), d);
    ChunksAppend(Addrs(RxRing(r)), d.addr);
    ChunkOf(r.held[i], at);
    WithoutCounts(r.held, i);
    AheadNext(r.rxProducer, r.rxConsumer);
  }

  /** A chunk held by the kernel is in no ring. */
  lemma {:induction false} HeldIsNotReceived(r: RxSide, i: nat)
    requires RxInv(r) && i < |r.held|
    ensures r.held[i] < RX_CHUNKS
    ensures forall k :: 0 <= k < |RxRing(r)| ==> Chunk(RxRing(r)[k].addr) != r.held[i]
  {
    hide Chunks, Ahead, Plus, Slot;
    assert r.held[i] in multiset(r.held);
    assert r.held[i] in multiset(Pool(0, RX_CHUNKS));
    forall k | 0 <= k < |RxRing(r)| ensures Chunk(RxRing(r)[k].addr) != r.held[i] {
      ChunkIn(Addrs(RxRing(r)), k);
      assert multiset(Pool(0, RX_CHUNKS))[r.held[i]] <= 1;
    }
  }

  lemma {:induction false} ReceivedChunk(r: RxSide, k: nat)
    requires RxInv(r) && k < |RxRing(r)|
    ensures Chunk(RxRing(r)[k].addr) < RX_CHUNKS
  {
    hide Chunks, Ahead, Plus, Slot;
    ChunkIn(Addrs(RxRing(r)), k);
    assert Chunk(RxRing(r)[k].addr) in multiset(Pool(0, RX_CHUNKS));
  }

  // ---- Transmit side ----

  lemma AlignedAppend(a: seq<nat>, x: nat)
    requires Aligned(a) && Within(x) == 0
    ensures Aligned(a + [x])
  {
  }

  lemma AlignedPart(a: seq<nat>, i: nat)
    requires Aligned(a) && i < |a|
    ensures Aligned(Without(a, i)) && Aligned(a[1..]) && Within(a[i]) == 0
  {
  }

  lemma {:induction false} ReclaimOneKeeps(t: TxSide)
    requires TxInv(t) && t.pc.Reclaiming? && t.pc.offset < t.pc.count
    ensures TxInv(ReclaimOne(t)) && TxRing(ReclaimOne(t)) == TxRing(t)
  {
    hide Plus, Ahead, Slot, Chunks, Within;
    var n := ReclaimOne(t);
    AheadTake(t.doneProducer, t.doneConsumer, t.pc.offset);
    PlusZero(DoneNext(t));
    At(t.doneSlots, DoneNext(t), t.doneProducer, 0);
    var addr := DoneRing(t)[0];
    PlusPlus(t.doneConsumer, t.pc.offset, 1);
    assert DoneNext(n) == Plus(DoneNext(t), 1);
    Drop(t.doneSlots, DoneNext(t), t.doneProducer, 1);
    ChunksTail(DoneRing(t));
    ChunksAppend(t.freeTx, addr);
    AlignedPart(DoneRing(t), 0);
    AlignedAppend(t.freeTx, addr);
  }

  /** Under conservation the descriptor check of the batch size is redundant: the free list never
      holds more chunks than the transmit ring has room for. */
  lemma {:induction false} FreeFitsRing(t: TxSide)
    requires TxInv(t)
    ensures |t.freeTx| + Ahead(t.txProducer, t.txConsumer) <= RING_SIZE
    ensures t.txShared == t.txProducer ==>
      forall requested :: TxBatchCapacity(requested, |t.freeTx|, t.txShared, t.txConsumer) == Min(requested, |t.freeTx|)
  {
    hide Plus, Ahead, Slot;
    ChunksSize(t.freeTx);
    ChunksSize(Addrs(TxRing(t)));
    ChunksSize(t.inFlight);
    ChunksSize(DoneRing(t));
    PoolSize(RX_CHUNKS, CHUNK_COUNT);
    assert |multiset(Pool(RX_CHUNKS, CHUNK_COUNT))| == CHUNK_COUNT - RX_CHUNKS;
    assert |Chunks(t.freeTx) + Chunks(Addrs(TxRing(t))) + Chunks(t.inFlight) + Chunks(DoneRing(t))|
        == |t.freeTx| + |TxRing(t)| + |t.inFlight| + |DoneRing(t)|;
  }

  lemma {:induction false} ReclaimDoneKeeps(t: TxSide)
    requires TxInv(t) && t.pc.Reclaiming? && t.pc.offset == t.pc.count
    ensures TxInv(ReclaimDone(t)) && TxRing(ReclaimDone(t)) == TxRing(t)
  {
    hide Plus, Ahead, Slot, Chunks, Within;
    FreeFitsRing(t);
    AheadTake(t.doneProducer, t.doneConsumer, t.pc.count);
    var n := ReclaimDone(t);
    assert DoneNext(n) == DoneNext(t);
    if n.pc.Sending? {
      forall i | 0 <= i < |n.pc.frames| ensures |n.pc.frames[i]| <= CHUNK_SIZE { }
    }
  }

  lemma {:induction false} TxQuietKeeps(t: TxSide, frames: seq<Bytes>)
    requires TxInv(t)
    ensures t.pc.TxQuiet? ==> TxInv(BatchStart(t, frames)) && TxRing(BatchStart(t, frames)) == TxRing(t)
    ensures t.pc.Sending? && t.pc.offset == |t.pc.frames| ==> TxInv(SendCommit(t)) && TxRing(SendCommit(t)) == TxRing(t)
  {
    hide Plus, Ahead, Slot, Chunks, Within;
    PlusZero(t.doneConsumer);
    if t.pc.TxQuiet? {
      assert DoneNext(BatchStart(t, frames)) == DoneNext(t);
    }
  }

  lemma {:induction false} SendOneKeeps(t: TxSide)
    requires TxInv(t) && t.pc.Sending? && t.pc.offset < |t.pc.frames|
    ensures |t.freeTx| > 0
    ensures TxInv(SendOne(t)) && TxRing(SendOne(t)) == TxRing(t) + [Desc(t.freeTx[0], |t.pc.frames[t.pc.offset]|)]
  {
    hide Plus, Ahead, Slot, Chunks, Within;
    var n := SendOne(t);
    var d := Desc(t.freeTx[0], |t.pc.frames[t.pc.offset]|);
    Push(t.txSlots, t.txConsumer, t.txProducer, d);
    AheadNext(t.txProducer, t.txConsumer);
    AddrsAppend(TxRing(t), d);
    ChunksAppend(Addrs(TxRing(t)), d.addr);
    ChunksTail(t.freeTx);
    AlignedPart(t.freeTx, 0);
    AlignedAppend(Addrs(TxRing(t)), d.addr);
    assert DoneRing(n) == DoneRing(t);
  }

  lemma {:induction false} KernelTakeKeeps(t: TxSide)
    requires TxInv(t) && Ahead(t.txShared, t.txConsumer) > 0
    ensures TxInv(KernelTake(t)) && |TxRing(t)| > 0 && TxRing(KernelTake(t)) == TxRing(t)[1..]
  {
    hide Plus, Ahead, Slot, Chunks, Within;
    var n := KernelTake(t);
    PlusZero(t.txConsumer);
    At(t.txSlots, t.txConsumer, t.txProducer, 0);
    Drop(t.txSlots, t.txConsumer, t.txProducer, 1);
    AheadTake(t.txProducer, t.txConsumer, 1);
    AheadTake(t.txShared, t.txConsumer, 1);
    AddrsTail(TxRing(t));
    ChunksTail(Addrs(TxRing(t)));
    ChunksAppend(t.inFlight, TxRing(t)[0].addr);
    AlignedPart(Addrs(TxRing(t)), 0);
    AlignedAppend(t.inFlight, TxRing(t)[0].addr);
    assert DoneRing(n) == DoneRing(t);
  }

  lemma {:induction false} KernelCompleteKeeps(t: TxSide, i: nat)
    requires TxInv(t) && i < |t.inFlight| && Ahead(t.doneProducer, t.doneConsumer) < RING_SIZE
    ensures TxInv(KernelComplete(t, i)) && TxRing(KernelComplete(t, i)) == TxRing(t)
  {
    hide Plus, Ahead, Slot, Chunks, Within;
    var n := KernelComplete(t, i);
    if t.pc.Reclaiming? { AheadTake(t.doneProducer, t.doneConsumer, t.pc.offset); }
    Push(t.doneSlots, DoneNext(t), t.doneProducer, t.inFlight[i]);
    AheadNext(t.doneProducer, t.doneConsumer);
    ChunksAppend(DoneRing(t), t.inFlight[i]);
    ChunksWithout(t.inFlight, i);
    AlignedPart(t.inFlight, i);
    AlignedAppend(DoneRing(t), t.inFlight[i]);
  }

  /** A free chunk belongs to the transmit pool and is in no ring and not with the kernel. */
  lemma {:induction false} FreeIsNotQueued(t: TxSide)
    requires TxInv(t) && |t.freeTx| > 0
    ensures RX_CHUNKS <= Chunk(t.freeTx[0]) < CHUNK_COUNT && Within(t.freeTx[0]) == 0
    ensures forall k :: 0 <= k < |TxRing(t)| ==> Chunk(TxRing(t)[k].addr) != Chunk(t.freeTx[0])
    ensures forall k :: 0 <= k < |t.inFlight| ==> Chunk(t.inFlight[k]) != Chunk(t.freeTx[0])
  {
    hide Chunks, Ahead, Plus, Slot, Within;
    var c := Chunk(t.freeTx[0]);
    ChunkIn(t.freeTx, 0);
    assert c in multiset(Pool(RX_CHUNKS, CHUNK_COUNT));
    assert multiset(Pool(RX_CHUNKS, CHUNK_COUNT))[c] <= 1;
    forall k | 0 <= k < |TxRing(t)| ensures Chunk(TxRing(t)[k].addr) != c { ChunkIn(Addrs(TxRing(t)), k); }
    forall k | 0 <= k < |t.inFlight| ensures Chunk(t.inFlight[k]) != c { ChunkIn(t.inFlight, k); }
  }

  lemma {:induction false} QueuedChunk(t: TxSide, k: nat)
    requires TxInv(t) && k < |TxRing(t)|
    ensures RX_CHUNKS <= Chunk(TxRing(t)[k].addr) < CHUNK_COUNT
  {
    hide Chunks, Ahead, Plus, Slot, Within;
    ChunkIn(Addrs(TxRing(t)), k);
    assert Chunk(TxRing(t)[k].addr) in multiset(Pool(RX_CHUNKS, CHUNK_COUNT));
  }

  // ---- Memory ----

  /** A write to a chunk no descriptor names leaves every frame readable as it was. */
  lemma {:induction false} WriteElsewhere(umem: seq<Bytes>, descs: seq<Desc>, frames: seq<Bytes>, addr: nat,
          data: Bytes)
    requires Sized(umem) && Shows(umem, descs, frames) && Readable(umem, Desc(addr, |data|))
    requires forall k :: 0 <= k < |descs| ==> Chunk(descs[k].addr) != Chunk(addr)
    ensures Sized(WriteAt(umem, addr, data)) && Shows(WriteAt(umem, addr, data), descs, frames)
  {
    hide Chunk, Within;
    var n := WriteAt(umem, addr, data);
    forall k | 0 <= k < |descs| ensures Readable(n, descs[k]) && Read(n, descs[k]) == frames[k] {
      assert n[Chunk(descs[k].addr)] == umem[Chunk(descs[k].addr)];
    }
  }

  lemma {:induction false} WriteShows(umem: seq<Bytes>, addr: nat, data: Bytes)
    requires Sized(umem) && Readable(umem, Desc(addr, |data|))
    ensures Sized(WriteAt(umem, addr, data)) && Readable(WriteAt(umem, addr, data), Desc(addr, |data|))
    ensures Read(WriteAt(umem, addr, data), Desc(addr, |data|)) == data
  {
    hide Chunk, Within;
    var n := WriteAt(umem, addr, data);
    var at := Within(addr);
    assert n[Chunk(addr)] == Splice(umem[Chunk(addr)], at, data);
  }

  lemma {:induction false} ShowsAppend(umem: seq<Bytes>, descs: seq<Desc>, frames: seq<Bytes>, d: Desc, data: Bytes)
    requires Shows(umem, descs, frames) && Readable(umem, d) && Read(umem, d) == data
    ensures Shows(umem, descs + [d], frames + [data])
  {
    hide Readable, Read;
  }

  lemma {:induction false} ShowsTail(umem: seq<Bytes>, descs: seq<Desc>, frames: seq<Bytes>)
    requires Shows(umem, descs, frames) && |descs| > 0
    ensures Shows(umem, descs[1..], frames[1..]) && Readable(umem, descs[0]) && Read(umem, descs[0]) == frames[0]
  {
    hide Readable, Read;
  }

  // ---- Steps of the whole socket ----

  datatype Step =
    | StartReceive(budget: nat)
    | TakeFrame
    | CommitReceive
    | PublishFill
    | StartBatch(frames: seq<Bytes>)
    | Reclaim
    | SizeBatch
    | SendFrame
    | CommitBatch
    | KFill
    | KReceive(i: nat, at: nat, data: Bytes)
    | KTake
    | KComplete(i: nat)

  predicate Enabled(s: State, step: Step) {
    match step
    case StartReceive(_) => s.rx.pc.RxQuiet?
    case TakeFrame => s.rx.pc.Taking? && s.rx.pc.offset < s.rx.pc.count
    case CommitReceive => s.rx.pc.Taking? && s.rx.pc.offset == s.rx.pc.count
    case PublishFill => s.rx.pc.Publishing?
    case StartBatch(_) => s.tx.pc.TxQuiet?
    case Reclaim => s.tx.pc.Reclaiming? && s.tx.pc.offset < s.tx.pc.count
    case SizeBatch => s.tx.pc.Reclaiming? && s.tx.pc.offset == s.tx.pc.count
    case SendFrame => s.tx.pc.Sending? && s.tx.pc.offset < |s.tx.pc.frames|
    case CommitBatch => s.tx.pc.Sending? && s.tx.pc.offset == |s.tx.pc.frames|
    case KFill => Ahead(s.rx.fillShared, s.rx.fillConsumer) > 0
    case KReceive(i, at, data) =>
      i < |s.rx.held| && Ahead(s.rx.rxProducer, s.rx.rxConsumer) < RING_SIZE && at < CHUNK_SIZE
          && at + |data| <= CHUNK_SIZE
    case KTake => Ahead(s.tx.txShared, s.tx.txConsumer) > 0
    case KComplete(i) => i < |s.tx.inFlight| && Ahead(s.tx.doneProducer, s.tx.doneConsumer) < RING_SIZE
  }

  /** The socket after a step; a step that finds nothing to act on changes nothing. */
  function Apply(s: State, step: Step): (n: State)
    requires |s.rx.fillSlots| == |s.rx.rxSlots| == |s.tx.txSlots| == |s.tx.doneSlots| == RING_SIZE && Enabled(s, step)
  {
    match step
    case StartReceive(budget) => s.(rx := TakeStart(s.rx, budget))
    case TakeFrame => s.(rx := TakeOne(s.rx), delivered := if |s.delivered| > 0 then s.delivered[1..] else [])
    case CommitReceive => s.(rx := TakeCommit(s.rx))
    case PublishFill => s.(rx := TakePublish(s.rx))
    case StartBatch(frames) => s.(tx := BatchStart(s.tx, frames))
    case Reclaim => s.(tx := ReclaimOne(s.tx))
    case SizeBatch => s.(tx := ReclaimDone(s.tx))
    case SendFrame =>
      var frame := s.tx.pc.frames[s.tx.pc.offset];
      if |s.tx.freeTx| == 0 || !Readable(s.umem, Desc(s.tx.freeTx[0], |frame|)) then s
      else s.(tx := SendOne(s.tx), umem := WriteAt(s.umem, s.tx.freeTx[0], frame), queued := s.queued + [frame])
    case CommitBatch => s.(tx := SendCommit(s.tx))
    case KFill => s.(rx := KernelFill(s.rx))
    case KReceive(i, at, data) =>
      var addr := Address(s.rx.held[i], at);
      if !Readable(s.umem, Desc(addr, |data|)) then s
      else s.(rx := KernelReceive(s.rx, i, at, |data|), umem := WriteAt(s.umem, addr, data),
          delivered := s.delivered + [data])
    case KTake => s.(tx := KernelTake(s.tx), queued := if |s.queued| > 0 then s.queued[1..] else [])
    case KComplete(i) => s.(tx := KernelComplete(s.tx, i))
  }

  /** The kernel's write into a chunk it holds spares every frame in the rings. */
  lemma {:induction false} ReceiveMemory(s: State, i: nat, at: nat, data: Bytes)
    requires Inv(s) && Enabled(s, KReceive(i, at, data))
    ensures var d := Desc(Address(s.rx.held[i], at), |data|);
      && Readable(s.umem, d)
      && var umem := WriteAt(s.umem, d.addr, data);
      && Sized(umem) && Shows(umem, RxRing(s.rx) + [d], s.delivered + [data]) && Shows(umem, TxRing(s.tx), s.queued)
  {
    hide Plus, Ahead, Slot, Chunks, Within, Chunk, RxInv, TxInv, Shows, WriteAt, Read, RxRing, TxRing, Address;
    var d := Desc(Address(s.rx.held[i], at), |data|);
    HeldIsNotReceived(s.rx, i);
    ChunkOf(s.rx.held[i], at);
    assert Readable(s.umem, d);
    forall k | 0 <= k < |TxRing(s.tx)| ensures Chunk(TxRing(s.tx)[k].addr) != Chunk(d.addr) { QueuedChunk(s.tx, k); }
    WriteElsewhere(s.umem, RxRing(s.rx), s.delivered, d.addr, data);
    WriteElsewhere(s.umem, TxRing(s.tx), s.queued, d.addr, data);
    WriteShows(s.umem, d.addr, data);
    ShowsAppend(WriteAt(s.umem, d.addr, data), RxRing(s.rx), s.delivered, d, data);
  }

  lemma {:induction false} KReceiveKeeps(s: State, i: nat, at: nat, data: Bytes)
    requires Inv(s) && Enabled(s, KReceive(i, at, data))
    ensures Inv(Apply(s, KReceive(i, at, data)))
    ensures Apply(s, KReceive(i, at, data)).delivered == s.delivered + [data]
        && Apply(s, KReceive(i, at, data)).queued == s.queued
  {
    hide Plus, Ahead, Slot, Chunks, Within, Chunk, RxInv, TxInv, Shows, WriteAt, Readable, Sized, RxRing, TxRing,
      Address;
    ReceiveMemory(s, i, at, data);
    KernelReceiveKeeps(s.rx, i, at, |data|);
  }

  /** The user's write into a free chunk spares every frame in the rings. */
  lemma {:induction false} SendFrameKeeps(s: State)
    requires Inv(s) && Enabled(s, SendFrame)
    ensures Inv(Apply(s, SendFrame)) && |s.tx.freeTx| > 0
    ensures Apply(s, SendFrame).queued == s.queued + [s.tx.pc.frames[s.tx.pc.offset]]
        && Apply(s, SendFrame).delivered == s.delivered
  {
    hide Plus, Ahead, Slot, Chunks, Within, Chunk, RxInv, Shows, WriteAt, Read, RxRing, TxRing, TxConserved, TxAligned;
    var frame := s.tx.pc.frames[s.tx.pc.offset];
    SendOneKeeps(s.tx);
    FreeIsNotQueued(s.tx);
    var d := Desc(s.tx.freeTx[0], |frame|);
    assert Readable(s.umem, d);
    forall k | 0 <= k < |RxRing(s.rx)| ensures Chunk(RxRing(s.rx)[k].addr) != Chunk(d.addr) { ReceivedChunk(s.rx, k); }
    WriteElsewhere(s.umem, RxRing(s.rx), s.delivered, d.addr, frame);
    WriteElsewhere(s.umem, TxRing(s.tx), s.queued, d.addr, frame);
    WriteShows(s.umem, d.addr, frame);
    ShowsAppend(WriteAt(s.umem, d.addr, frame), TxRing(s.tx), s.queued, d, frame);
  }

  /** The frame handler sees exactly the oldest frame the kernel delivered. */
  lemma {:induction false} HandlerSeesFrame(s: State)
    requires Inv(s) && Enabled(s, TakeFrame)
    ensures Inv(Apply(s, TakeFrame))
    ensures |s.delivered| > 0 && Readable(s.umem, Next(s.rx)) && Read(s.umem, Next(s.rx)) == s.delivered[0]
    ensures Next(s.rx).addr + Next(s.rx).len <= CHUNK_COUNT * CHUNK_SIZE
  {
    hide Plus, Ahead, Slot, Chunks, TxInv, Shows, Read;
    PushFillFits(s.rx);
    TakeOneKeeps(s.rx);
    ShowsTail(s.umem, RxRing(s.rx), s.delivered);
    ShowsLength(s.umem, RxRing(s.rx), s.delivered);
  }

  lemma ShowsLength(umem: seq<Bytes>, descs: seq<Desc>, frames: seq<Bytes>)
    requires Shows(umem, descs, frames)
    ensures |descs| == |frames|
  {
  }

  /** The kernel transmits exactly the oldest frame the user queued. */
  lemma {:induction false} KernelSeesFrame(s: State)
    requires Inv(s) && Enabled(s, KTake)
    ensures Inv(Apply(s, KTake))
    ensures |s.queued| > 0 && var d := s.tx.txSlots[Slot(s.tx.txConsumer)];
        Readable(s.umem, d) && Read(s.umem, d) == s.queued[0]
  {
    hide Plus, Ahead, Slot, Chunks, RxInv, Shows, Read, Readable;
    KernelTakeKeeps(s.tx);
    PlusZero(s.tx.txConsumer);
    At(s.tx.txSlots, s.tx.txConsumer, s.tx.txProducer, 0);
    ShowsTail(s.umem, TxRing(s.tx), s.queued);
    ShowsLength(s.umem, TxRing(s.tx), s.queued);
  }

  /** Every step of user or kernel keeps the invariant. */
  lemma {:induction false} StepKeeps(s: State, step: Step)
    requires Inv(s) && Enabled(s, step)
    ensures Inv(Apply(s, step))
  {
    hide Plus, Ahead, Slot, Chunks, Shows, RxConserved, TxConserved, TxAligned, TakeStart, TakeOne, TakeCommit,
      TakePublish, BatchStart, ReclaimOne, ReclaimDone, SendOne, SendCommit, KernelFill, KernelReceive, KernelTake,
      KernelComplete;
    match step {
      case StartReceive(budget) => TakeQuietKeeps(s.rx, budget);
      case TakeFrame => HandlerSeesFrame(s);
      case CommitReceive => TakeQuietKeeps(s.rx, 0);
      case PublishFill => TakeQuietKeeps(s.rx, 0);
      case StartBatch(frames) => TxQuietKeeps(s.tx, frames);
      case Reclaim => ReclaimOneKeeps(s.tx);
      case SizeBatch => ReclaimDoneKeeps(s.tx);
      case SendFrame => SendFrameKeeps(s);
      case CommitBatch => TxQuietKeeps(s.tx, []);
      case KFill => KernelFillKeeps(s.rx);
      case KReceive(i, at, data) => KReceiveKeeps(s, i, at, data);
      case KTake => KernelSeesFrame(s);
      case KComplete(i) => KernelCompleteKeeps(s.tx, i);
    }
  }

  /** Two frames pending transmission never share a byte, and neither shares one with a chunk the
      kernel may receive into. */
  lemma {:induction false} PendingDisjoint(s: State, i: nat, j: nat)
    requires Inv(s) && i < j < |TxRing(s.tx)|
    ensures var d := TxRing(s.tx)[i]; var e := TxRing(s.tx)[j];
      && (d.addr + d.len <= e.addr || e.addr + e.len <= d.addr)
      && RX_CHUNKS * CHUNK_SIZE <= d.addr && d.addr + d.len <= CHUNK_COUNT * CHUNK_SIZE
  {
    hide Plus, Ahead, Slot, Chunks, RxInv, TxCounters;
    var addrs := Addrs(TxRing(s.tx));
    QueuedChunk(s.tx, i);
    QueuedChunk(s.tx, j);
    ChunksDiffer(addrs, RX_CHUNKS, CHUNK_COUNT, i, j);
    assert Readable(s.umem, TxRing(s.tx)[i]) && Readable(s.umem, TxRing(s.tx)[j]);
  }

  /** Each of the 2048 chunks is in exactly one place. */
  lemma {:induction false} OnePlace(s: State, c: nat)
    requires Inv(s) && c < CHUNK_COUNT
    ensures Chunks(FillRing(s.rx))[c] + multiset(s.rx.held)[c] + Chunks(Addrs(RxRing(s.rx)))[c]
         + Chunks(s.tx.freeTx)[c] + Chunks(Addrs(TxRing(s.tx)))[c] + Chunks(s.tx.inFlight)[c] + Chunks(DoneRing(s.tx))[c] == 1
  {
    hide Chunks, Ahead, Plus, Slot, RxCounters, TxCounters, TxAligned, Shows;
    var rx := Chunks(FillRing(s.rx)) + multiset(s.rx.held) + Chunks(Addrs(RxRing(s.rx)));
    var tx := Chunks(s.tx.freeTx) + Chunks(Addrs(TxRing(s.tx))) + Chunks(s.tx.inFlight) + Chunks(DoneRing(s.tx));
    assert rx[c] == multiset(Pool(0, RX_CHUNKS))[c] && tx[c] == multiset(Pool(RX_CHUNKS, CHUNK_COUNT))[c];
  }

  // ---- Start-up and runs ----

  /** The base addresses of `n` chunks from `first` on. */
  function Seeds(first: nat, n: nat): (r: seq<nat>)
    ensures |r| == n
  {
    if n == 0 then [] else Seeds(first, n - 1) + [Address(first + n - 1, 0)]
  }

  lemma {:induction false} SeedsPool(first: nat, n: nat)
    ensures Chunks(Seeds(first, n)) == multiset(Pool(first, first + n)) && Aligned(Seeds(first, n))
  {
    hide Chunks, Chunk, Within, Address, Pool, Aligned;
    if n == 0 {
      NoChunks(first);
    } else {
      var last: nat := first + n - 1;
      SeedsPool(first, n - 1);
      ChunkOf(last, 0);
      ChunksAppend(Seeds(first, n - 1), Address(last, 0));
      AlignedAppend(Seeds(first, n - 1), Address(last, 0));
      PoolGrows(first, last);
    }
  }

  lemma NoChunks(first: nat)
    ensures Chunks([]) == multiset{} == multiset(Pool(first, first)) && Aligned([])
  {
  }

  lemma PoolGrows(first: nat, last: nat)
    requires first <= last
    ensures multiset(Pool(first, last + 1)) == multiset(Pool(first, last)) + multiset{last}
  {
  }

  /** The socket after `seed_fill_ring`: every receive chunk in the fill ring, every transmit chunk free. */
  ghost predicate Starts(s: State) {
    && |s.rx.fillSlots| == |s.rx.rxSlots| == |s.tx.txSlots| == |s.tx.doneSlots| == RING_SIZE && Sized(s.umem)
    && s.rx.fillConsumer == s.rx.rxProducer == s.rx.rxConsumer == 0 && s.rx.fillProducer == s.rx.fillShared == RX_CHUNKS
    && FillRing(s.rx) == Seeds(0, RX_CHUNKS) && s.rx.held == [] && s.rx.pc == RxQuiet
    && s.tx.txProducer == s.tx.txShared == s.tx.txConsumer == s.tx.doneProducer == s.tx.doneConsumer == 0
    && s.tx.freeTx == Seeds(RX_CHUNKS, CHUNK_COUNT - RX_CHUNKS) && s.tx.inFlight == [] && s.tx.pc == TxQuiet
    && s.delivered == [] && s.queued == []
  }

  lemma {:induction false} StartsInv(s: State)
    requires Starts(s)
    ensures Inv(s)
  {
    hide Plus, Slot, Seeds, FillRing, Sized, Chunks, Aligned, Pool, Shows, RxRing, TxRing, DoneRing, Addrs;
    SeedsPool(0, RX_CHUNKS);
    SeedsPool(RX_CHUNKS, CHUNK_COUNT - RX_CHUNKS);
    RingsEmpty(s);
    NoChunks(0);
    NothingShown(s.umem);
  }

  lemma RingsEmpty(s: State)
    requires Starts(s)
    ensures RxRing(s.rx) == TxRing(s.tx) == [] && DoneRing(s.tx) == [] && Addrs([]) == []
  {
  }

  lemma NothingShown(umem: seq<Bytes>)
    ensures Shows(umem, [], [])
  {
  }

  ghost predicate IsRun(states: seq<State>, steps: seq<Step>) {
    && |states| == |steps| + 1 && Starts(states[0])
    && forall i :: 0 <= i < |steps| ==> Follows(states[i], steps[i], states[i + 1])
  }

  ghost predicate Follows(s: State, step: Step, n: State) {
    && |s.rx.fillSlots| == |s.rx.rxSlots| == |s.tx.txSlots| == |s.tx.doneSlots| == RING_SIZE
    && Enabled(s, step) && n == Apply(s, step)
  }

  /** The invariant, and with it conservation, holds in every state of every interleaving. */
  lemma {:induction false} RunInv(states: seq<State>, steps: seq<Step>, i: nat)
    requires IsRun(states, steps) && i < |states|
    ensures Inv(states[i])
  {
    hide Inv, Starts, Enabled, Apply;
    if i == 0 {
      StartsInv(states[0]);
    } else {
      RunInv(states, steps, i - 1);
      assert Follows(states[i - 1], steps[i - 1], states[i]);
      StepKeeps(states[i - 1], steps[i - 1]);
    }
  }

  /** The frame the handler is given by a step. */
  ghost function Handled(s: State, step: Step): seq<Bytes> {
    if step.TakeFrame? && s.rx.pc.Taking? && |s.rx.rxSlots| == RING_SIZE && Readable(s.umem, Next(s.rx)) then
        [Read(s.umem, Next(s.rx))] else []
  }

  /** The frame the kernel puts on the wire in a step. */
  ghost function Transmitted(s: State, step: Step): seq<Bytes> {
    if step.KTake? && |s.tx.txSlots| == RING_SIZE && Readable(s.umem, s.tx.txSlots[Slot(s.tx.txConsumer)])
    then [Read(s.umem, s.tx.txSlots[Slot(s.tx.txConsumer)])] else []
  }

  /** The frame that arrives in a step, and the one that is queued by it. */
  ghost function Arrived(step: Step): seq<Bytes> {
    if step.KReceive? then [step.data] else []
  }

  ghost function Queued(s: State, step: Step): seq<Bytes> {
    if step.SendFrame? && s.tx.pc.Sending? && s.tx.pc.offset < |s.tx.pc.frames| then [s.tx.pc.frames[s.tx.pc.offset]]
        else []
  }

  lemma {:induction false} StepAccounts(s: State, step: Step)
    requires Inv(s) && Enabled(s, step)
    ensures var n := Apply(s, step);
      && s.delivered + Arrived(step) == Handled(s, step) + n.delivered
      && s.queued + Queued(s, step) == Transmitted(s, step) + n.queued
  {
    hide Plus, Ahead, Slot, Inv, Read, Readable, WriteAt, TakeStart, TakeOne, TakeCommit, TakePublish, BatchStart,
      ReclaimOne, ReclaimDone, SendOne, SendCommit, KernelFill, KernelReceive, KernelTake, KernelComplete, Next;
    match step {
      case TakeFrame => HandlerSeesFrame(s); Sizes(s);
      case SendFrame => SendFrameKeeps(s);
      case KReceive(i, at, data) => KReceiveKeeps(s, i, at, data);
      case KTake => KernelSeesFrame(s); Sizes(s);
      case _ =>
    }
  }

  lemma Sizes(s: State)
    requires Inv(s)
    ensures |s.rx.fillSlots| == |s.rx.rxSlots| == |s.tx.txSlots| == |s.tx.doneSlots| == RING_SIZE
  {
  }

  ghost function AllHandled(states: seq<State>, steps: seq<Step>): seq<Bytes>
    requires |states| >= |steps|
  {
    if |steps| == 0 then []
        else AllHandled(states, steps[..|steps| - 1]) + Handled(states[|steps| - 1], steps[|steps| - 1])
  }

  ghost function AllArrived(steps: seq<Step>): seq<Bytes> {
    if |steps| == 0 then [] else AllArrived(steps[..|steps| - 1]) + Arrived(steps[|steps| - 1])
  }

  ghost function AllTransmitted(states: seq<State>, steps: seq<Step>): seq<Bytes>
    requires |states| >= |steps|
  {
    if |steps| == 0 then [] else AllTransmitted(states, steps[..|steps| - 1]) + Transmitted(states[|steps| - 1],
        steps[|steps| - 1])
  }

  ghost function AllQueued(states: seq<State>, steps: seq<Step>): seq<Bytes>
    requires |states| >= |steps|
  {
    if |steps| == 0 then []
        else AllQueued(states, steps[..|steps| - 1]) + Queued(states[|steps| - 1], steps[|steps| - 1])
  }

  /** Frames are neither lost, repeated, reordered nor altered: over any run, what arrived is what the
      handler saw followed by what still waits in the receive ring, and what was queued is what the
      kernel transmitted followed by what still waits in the transmit ring. */
  lemma {:induction false} FramesConserved(states: seq<State>, steps: seq<Step>, k: nat)
    requires IsRun(states, steps) && k <= |steps|
    ensures AllArrived(steps[..k]) == AllHandled(states, steps[..k]) + states[k].delivered
    ensures AllQueued(states, steps[..k]) == AllTransmitted(states, steps[..k]) + states[k].queued
  {
    hide Inv, Enabled, Apply, Handled, Transmitted, Arrived, Queued;
    if k > 0 {
      FramesConserved(states, steps, k - 1);
      RunInv(states, steps, k - 1);
      assert Follows(states[k - 1], steps[k - 1], states[k]);
      StepAccounts(states[k - 1], steps[k - 1]);
      assert steps[..k][..k - 1] == steps[..k - 1];
      Regroup(AllArrived(steps[..k - 1]), AllHandled(states, steps[..k - 1]), states[k - 1].delivered,
          Arrived(steps[k - 1]),
              Handled(states[k - 1], steps[k - 1]), states[k].delivered);
      Regroup(AllQueued(states, steps[..k - 1]), AllTransmitted(states, steps[..k - 1]), states[k - 1].queued,
          Queued(states[k - 1], steps[k - 1]),
              Transmitted(states[k - 1], steps[k - 1]), states[k].queued);
    }
  }

  // ---- Frames in flight ----

  /** A chunk the kernel is transmitting from belongs to the transmit pool. */
  lemma {:induction false} InFlightChunk(t: TxSide, k: nat)
    requires TxInv(t) && k < |t.inFlight|
    ensures RX_CHUNKS <= Chunk(t.inFlight[k]) < CHUNK_COUNT
  {
    hide Chunks, Ahead, Plus, Slot, Within;
    ChunkIn(t.inFlight, k);
    assert Chunk(t.inFlight[k]) in multiset(Pool(RX_CHUNKS, CHUNK_COUNT));
  }

  /** No step of either side writes into a chunk that is in flight. */
  lemma {:induction false} StepSparesInFlight(s: State, step: Step, k: nat)
    requires Inv(s) && Enabled(s, step) && k < |s.tx.inFlight|
    ensures var c := Chunk(s.tx.inFlight[k]); c < |s.umem| == |Apply(s, step).umem| && Apply(s, step).umem[c] == s.umem[c]
  {
    hide Plus, Ahead, Slot, Chunks, Within, Chunk, Shows, Read, RxInv, TxInv, TakeStart, TakeOne, TakeCommit,
      TakePublish, BatchStart, ReclaimOne, ReclaimDone, SendOne, SendCommit, KernelFill, KernelReceive, KernelTake,
      KernelComplete, Address;
    InFlightChunk(s.tx, k);
    match step {
      case SendFrame => if |s.tx.freeTx| > 0 { FreeIsNotQueued(s.tx); }
      case KReceive(i, at, data) => HeldIsNotReceived(s.rx, i); ChunkOf(s.rx.held[i], at);
      case _ =>
    }
  }

  /** The descriptor the kernel takes next. */
  function NextSent(s: State): (d: Desc)
    requires |s.tx.txSlots| == RING_SIZE
  {
    s.tx.txSlots[Slot(s.tx.txConsumer)]
  }

  lemma SameChunkReads(a: seq<Bytes>, b: seq<Bytes>, d: Desc)
    requires Readable(a, d) && |a| == |b| && a[Chunk(d.addr)] == b[Chunk(d.addr)]
    ensures Readable(b, d) && Read(b, d) == Read(a, d)
  {
    hide Chunk, Within;
  }

  /** One more step keeps what an in-flight descriptor shows. */
  lemma {:induction false} StepKeepsInFlight(s: State, step: Step, n: State, d: Desc)
    requires Inv(s) && Follows(s, step, n) && d.addr in s.tx.inFlight && Readable(s.umem, d)
    ensures Readable(n.umem, d) && Read(n.umem, d) == Read(s.umem, d)
  {
    hide Inv, Enabled, Apply, Read, Readable;
    var k :| 0 <= k < |s.tx.inFlight| && s.tx.inFlight[k] == d.addr;
    StepSparesInFlight(s, step, k);
    SameChunkReads(s.umem, n.umem, d);
  }

  /** From the moment the kernel takes a descriptor until its completion, the memory behind it shows the
      transmitted frame: a device that reads the chunk at any time in between sends that very frame. */
  lemma {:induction false} InFlightUnaltered(states: seq<State>, steps: seq<Step>, i: nat, j: nat)
    requires IsRun(states, steps) && i < j < |states| && steps[i].KTake? && |states[i].tx.txSlots| == RING_SIZE
    requires forall k :: i < k < j ==> NextSent(states[i]).addr in states[k].tx.inFlight
    ensures |states[i].queued| > 0 && Readable(states[j].umem, NextSent(states[i]))
    ensures Read(states[j].umem, NextSent(states[i])) == states[i].queued[0]
    decreases j
  {
    hide Inv, Enabled, Apply, Read, Readable, Starts;
    assert Follows(states[j - 1], steps[j - 1], states[j]);
    RunInv(states, steps, j - 1);
    if j == i + 1 {
      KernelSeesFrame(states[i]);
      TakeKeepsMemory(states[i]);
    } else {
      InFlightUnaltered(states, steps, i, j - 1);
      StepKeepsInFlight(states[j - 1], steps[j - 1], states[j], NextSent(states[i]));
    }
  }

  lemma TakeKeepsMemory(s: State)
    requires |s.rx.fillSlots| == |s.rx.rxSlots| == |s.tx.txSlots| == |s.tx.doneSlots| == RING_SIZE && Enabled(s, KTake)
    ensures Apply(s, KTake).umem == s.umem
  {
  }

  lemma Regroup(all: seq<Bytes>, done: seq<Bytes>, waiting: seq<Bytes>, added: seq<Bytes>, taken: seq<Bytes>,
          left: seq<Bytes>)
    requires all == done + waiting && waiting + added == taken + left
    ensures all + added == done + taken + left
  {
    assert all + added == done + (waiting + added);
    assert done + taken + left == done + (taken + left);
  }
}
