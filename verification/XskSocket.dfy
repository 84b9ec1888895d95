/** The user side of the AF_XDP socket as it runs: descriptor arrays and counters updated in place,
    one whole call at a time, over a kernel that does not move during the call. */
module XskSocket {
  import opened Core
  import opened Ring
  import opened Xsk

  class Receiver {
    const fillSlots: array<nat>
    const rxSlots: array<Desc>
    var fillProducer: U32
    var fillShared: U32
    var fillConsumer: U32
    var rxProducer: U32
    var rxConsumer: U32

    function Side(held: seq<nat>, pc: RxPc): RxSide
      reads this, fillSlots, rxSlots
    {
      RxSide(fillSlots[..], fillProducer, fillShared, fillConsumer, held, rxSlots[..], rxProducer, rxConsumer, pc)
    }

    constructor (blank: Desc)
      ensures fresh(fillSlots) && fresh(rxSlots) && fillSlots.Length == rxSlots.Length == RING_SIZE
      ensures fillProducer == fillShared == fillConsumer == rxProducer == rxConsumer == 0
    {
      fillSlots := new nat[RING_SIZE](_ => 0);
      rxSlots := new Desc[RING_SIZE](_ => blank);
      fillProducer, fillShared, fillConsumer, rxProducer, rxConsumer := 0, 0, 0, 0, 0;
    }

    method Push(address: nat)
      requires fillSlots.Length == rxSlots.Length == RING_SIZE
      modifies this`fillProducer, fillSlots
      ensures forall held, pc :: Side(held, pc) == PushFill(old(Side(held, pc)), address)
    {
      fillSlots[Slot(fillProducer)] := address;
      fillProducer := Plus(fillProducer, 1);
    }

    /** `seed_fill_ring`: every receive chunk goes into the fill ring, in order. */
    method SeedFillRing()
      requires fillSlots.Length == rxSlots.Length == RING_SIZE && fillProducer == fillConsumer == 0
      modifies this, fillSlots
      ensures FillRing(Side([], RxQuiet)) == Seeds(0, RX_CHUNKS)
      ensures fillProducer == fillShared == RX_CHUNKS && fillConsumer == 0
      ensures rxProducer == old(rxProducer) && rxConsumer == old(rxConsumer)
    {
      hide Between, Slot;
      EmptyBetween(fillSlots[..], 0);
      for chunk := 0 to RX_CHUNKS
        invariant fillProducer == chunk && fillConsumer == 0 && rxProducer == old(rxProducer)
            && rxConsumer == old(rxConsumer)
        invariant Between(fillSlots[..], 0, fillProducer) == Seeds(0, chunk)
      {
        ghost var before := fillSlots[..];
        Ring.Push(before, 0, fillProducer, Address(chunk, 0));
        Push(Address(chunk, 0));
        assert Side([], RxQuiet).fillSlots == before[Slot(chunk) := Address(chunk, 0)];
      }
      fillShared := fillProducer;
    }

    /** `receive_with`: the handler sees the oldest frames, at most `budget` of them, in order, and
        their chunks go back to the fill ring in the same order. */
    method ReceiveWith(umem: seq<Bytes>, budget: nat, ghost held: seq<nat>, ghost delivered: seq<Bytes>)
            returns (frames: seq<Bytes>)
      requires fillSlots.Length == rxSlots.Length == RING_SIZE
      requires RxInv(Side(held, RxQuiet)) && Sized(umem) && Shows(umem, RxRing(Side(held, RxQuiet)), delivered)
      modifies this`fillProducer, this`fillShared, this`rxConsumer, fillSlots
      ensures frames == delivered[..Min(|delivered|, budget)]
      ensures RxInv(Side(held, RxQuiet)) && RxRing(Side(held, RxQuiet)) == old(RxRing(Side(held, RxQuiet)))[|frames|..]
      ensures FillRing(Side(held,
          RxQuiet)) == old(FillRing(Side(held, RxQuiet))) + Addrs(old(RxRing(Side(held, RxQuiet)))[..|frames|])
      ensures fillShared == fillProducer || |frames| == 0
    {
      hide RxInv, RxRing, FillRing, Addrs, Shows, Sized, Read, Readable, Ahead, Plus, Slot;
      ghost var ring := RxRing(Side(held, RxQuiet));
      RingLength(Side(held, RxQuiet));
      ShowsLength(umem, ring, delivered);
      var count := Min(Ahead(rxProducer, rxConsumer), budget);
      if count == 0 {
        assert ring[..0] == [] && ring[0..] == ring;
        NoAddrs();
        return [];
      }
      TakeQuietKeeps(Side(held, RxQuiet), budget);
      ghost var fill := FillRing(Side(held, RxQuiet));
      SameFill(Side(held, RxQuiet), Side(held, Taking(count, 0)));
      assert ring[0..] == ring && delivered[0..] == delivered && fill + Addrs(ring[..0]) == fill by { NoAddrs();
          assert ring[..0] == []; }
      frames := [];
      for offset := 0 to count
        invariant fillSlots.Length == rxSlots.Length == RING_SIZE
        invariant rxProducer == old(rxProducer) && rxConsumer == old(rxConsumer)
        invariant count <= |ring|
        invariant RxInv(Side(held, Taking(count, offset)))
            && RxRing(Side(held, Taking(count, offset))) == ring[offset..]
        invariant FillRing(Side(held, Taking(count, offset))) == fill + Addrs(ring[..offset])
        invariant frames == delivered[..offset]
      {
        ghost var side := Side(held, Taking(count, offset));
        PushFillFits(side);
        TakeOneKeeps(side);
        FillGrows(side);
        var descriptor := rxSlots[Slot(Plus(rxConsumer, offset))];
        assert descriptor == ring[offset];
        ShownAt(umem, ring, delivered, offset);
        frames := frames + [Read(umem, descriptor)];
        Push(descriptor.addr);
        assert Side(held, Taking(count, offset + 1)) == TakeOne(side);
        AddrsNext(fill, ring, offset);
        assert ring[offset..][1..] == ring[offset + 1..];
      }
      ghost var done := Side(held, Taking(count, count));
      rxConsumer := Plus(rxConsumer, count);
      TakeQuietKeeps(done, 0);
      TakeQuietKeeps(TakeCommit(done), 0);
      fillShared := fillProducer;
      assert Side(held, RxQuiet) == TakePublish(TakeCommit(done));
      SameFill(done, Side(held, RxQuiet));
    }
  }

  lemma EmptyBetween(slots: seq<nat>, at: U32)
    requires |slots| == RING_SIZE
    ensures Between(slots, at, at) == []
  {
  }

  lemma RingLength(r: RxSide)
    requires RxInv(r) && r.pc.RxQuiet?
    ensures |r.rxSlots| == |r.fillSlots| == RING_SIZE && |RxRing(r)| == Ahead(r.rxProducer, r.rxConsumer)
  {
  }

  lemma NoAddrs()
    ensures Addrs([]) == []
  {
  }

  lemma SameFill(r: RxSide, n: RxSide)
    requires |r.fillSlots| == RING_SIZE && n.fillSlots == r.fillSlots && n.fillConsumer == r.fillConsumer
        && n.fillProducer == r.fillProducer
    ensures FillRing(n) == FillRing(r)
  {
  }

  lemma {:induction false} FillGrows(r: RxSide)
    requires RxInv(r) && r.pc.Taking? && r.pc.offset < r.pc.count
    ensures FillRing(TakeOne(r)) == FillRing(r) + [Next(r).addr]
  {
    PushFillFits(r);
    hide Plus, Ahead, Slot, Between;
    Push(r.fillSlots, r.fillConsumer, r.fillProducer, Next(r).addr);
  }

  lemma AddrsNext(fill: seq<nat>, ring: seq<Desc>, offset: nat)
    requires offset < |ring|
    ensures fill + Addrs(ring[..offset]) + [ring[offset].addr] == fill + Addrs(ring[..offset + 1])
  {
    assert ring[..offset + 1] == ring[..offset] + [ring[offset]];
    AddrsAppend(ring[..offset], ring[offset]);
  }

  lemma ShownAt(umem: seq<Bytes>, descs: seq<Desc>, frames: seq<Bytes>, i: nat)
    requires Shows(umem, descs, frames) && i < |descs|
    ensures i < |frames| && Readable(umem, descs[i]) && Read(umem, descs[i]) == frames[i]
  {
  }

  /** What waking the kernel gives: not needed or accepted, to be tried again (would block or
      interrupted), or failed. */
  datatype Kick = Awake | TryAgain | Broken

  datatype TransmitError = FrameTooLarge | KickFailed

  class Transmitter {
    const txSlots: array<Desc>
    const doneSlots: array<nat>
    var txProducer: U32
    var txShared: U32
    var txConsumer: U32
    var doneProducer: U32
    var doneConsumer: U32
    var freeTx: seq<nat>
    var umem: seq<Bytes>

    function Side(inFlight: seq<nat>, pc: TxPc): TxSide
      reads this, txSlots, doneSlots
    {
      TxSide(txSlots[..], txProducer, txShared, txConsumer, inFlight, doneSlots[..], doneProducer, doneConsumer, freeTx,
          pc)
    }

    constructor (blank: Desc, umem: seq<Bytes>)
      ensures fresh(txSlots) && fresh(doneSlots) && txSlots.Length == doneSlots.Length == RING_SIZE
      ensures txProducer == txShared == txConsumer == doneProducer == doneConsumer == 0
      ensures freeTx == Seeds(RX_CHUNKS, CHUNK_COUNT - RX_CHUNKS) && this.umem == umem
    {
      txSlots := new Desc[RING_SIZE](_ => blank);
      doneSlots := new nat[RING_SIZE](_ => 0);
      txProducer, txShared, txConsumer, doneProducer, doneConsumer := 0, 0, 0, 0, 0;
      freeTx := Seeds(RX_CHUNKS, CHUNK_COUNT - RX_CHUNKS);
      this.umem := umem;
    }

    /** `reclaim_completions`: every completed chunk joins the free list. */
    method ReclaimCompletions(frames: seq<Bytes>, ghost inFlight: seq<nat>)
      requires txSlots.Length == doneSlots.Length == RING_SIZE && TxInv(Side(inFlight, TxQuiet)) && |frames| > 0
      modifies this`doneConsumer, this`freeTx
      ensures TxInv(Side(inFlight, TxQuiet)) && TxRing(Side(inFlight, TxQuiet)) == old(TxRing(Side(inFlight, TxQuiet)))
      ensures freeTx == old(freeTx + DoneRing(Side(inFlight, TxQuiet))) && doneConsumer == doneProducer
    {
      hide TxInv, TxRing, DoneRing, Ahead, Plus, Slot;
      var count := Ahead(doneProducer, doneConsumer);
      ghost var done := DoneRing(Side(inFlight, TxQuiet));
      ghost var start := Side(inFlight, Reclaiming(frames, count, 0));
      TxQuietKeeps(Side(inFlight, TxQuiet), frames);
      DoneStart(Side(inFlight, TxQuiet), start);
      assert done[0..] == done && freeTx + done[..0] == freeTx;
      for offset := 0 to count
        invariant count <= |done| && doneProducer == old(doneProducer) && doneConsumer == old(doneConsumer)
        invariant TxInv(Side(inFlight, Reclaiming(frames, count, offset)))
        invariant TxRing(Side(inFlight, Reclaiming(frames, count, offset))) == old(TxRing(Side(inFlight, TxQuiet)))
        invariant DoneRing(Side(inFlight, Reclaiming(frames, count, offset))) == done[offset..]
        invariant freeTx == old(freeTx) + done[..offset]
      {
        ghost var side := Side(inFlight, Reclaiming(frames, count, offset));
        ReclaimOneKeeps(side);
        DoneDrops(side);
        freeTx := freeTx + [doneSlots[Slot(Plus(doneConsumer, offset))]];
        assert Side(inFlight, Reclaiming(frames, count, offset + 1)) == ReclaimOne(side);
        assert done[offset..][1..] == done[offset + 1..] && done[..offset + 1] == done[..offset] + [done[offset]];
      }
      ghost var side := Side(inFlight, Reclaiming(frames, count, count));
      AheadPlus(doneProducer, doneConsumer);
      doneConsumer := Plus(doneConsumer, count);
      Reclaimed(side, Side(inFlight, TxQuiet));
      assert done[..count] == done;
    }

    /** `transmit_batch`: an empty batch, an empty free list or an oversized frame queues nothing;
        otherwise as many frames as there are free chunks go into the ring, in order and unaltered.
        The call fails exactly for an oversized frame among those, or when frames were queued and the
        wake-up then fails; the queued frames stay queued. */
    method TransmitBatch(frames: seq<Bytes>, kick: Kick, ghost inFlight: seq<nat>, ghost queued: seq<Bytes>)
            returns (r: Result<nat, TransmitError>)
      requires txSlots.Length == doneSlots.Length == RING_SIZE && TxInv(Side(inFlight, TxQuiet)) && Sized(umem)
      requires Shows(umem, TxRing(Side(inFlight, TxQuiet)), queued)
      modifies this, txSlots
      ensures TxInv(Side(inFlight, TxQuiet)) && Sized(umem)
      ensures |frames| == 0 ==> r == Ok(0) && Shows(umem, TxRing(Side(inFlight, TxQuiet)), queued)
      ensures |frames| > 0 ==>
        var free := old(|freeTx| + |DoneRing(Side(inFlight, TxQuiet))|); var count := Min(|frames|, free);
        var fits := forall i :: 0 <= i < count ==> |frames[i]| <= CHUNK_SIZE;
        && Shows(umem, TxRing(Side(inFlight, TxQuiet)), queued + frames[..if fits then count else 0])
        && r == (if !fits then Err(FrameTooLarge) else if count > 0 && kick == Broken then Err(KickFailed)
            else Ok(count))
      ensures forall c :: 0 <= c < RX_CHUNKS ==> c < |old(umem)| && c < |umem| && umem[c] == old(umem)[c]
    {
      hide TxInv, TxRing, DoneRing, Shows, Readable, Read, WriteAt, Ahead, Plus, Slot, Chunk, Within, TxBatchCapacity,
        TxRing;
      if |frames| == 0 {
        assert queued + frames[..0] == queued;
        return Ok(0);
      }
      ReclaimCompletions(frames, inFlight);
      FreeFitsRing(Side(inFlight, TxQuiet));
      SharedIsLocal(Side(inFlight, TxQuiet));
      var count := TxBatchCapacity(|frames|, |freeTx|, txShared, txConsumer);
      assert count == Min(|frames|, |freeTx|);
      if count == 0 {
        assert queued + frames[..0] == queued;
        return Ok(0);
      }
      if exists i :: 0 <= i < count && |frames[i]| > CHUNK_SIZE {
        assert queued + frames[..0] == queued;
        return Err(FrameTooLarge);
      }
      var batch := frames[..count];
      SendingStarts(Side(inFlight, TxQuiet), Side(inFlight, Sending(batch, 0)));
      assert queued + batch[..0] == queued;
      for offset := 0 to count
        invariant txSlots.Length == doneSlots.Length == RING_SIZE
        invariant TxInv(Side(inFlight, Sending(batch, offset))) && Sized(umem)
        invariant Shows(umem, TxRing(Side(inFlight, Sending(batch, offset))), queued + batch[..offset])
        invariant forall c :: 0 <= c < RX_CHUNKS ==> c < |old(umem)| && umem[c] == old(umem)[c]
      {
        ghost var side := Side(inFlight, Sending(batch, offset));
        SendOneKeeps(side);
        FreeIsNotQueued(side);
        var address := freeTx[0];
        WriteKeepsShowing(umem, side, queued + batch[..offset], batch[offset]);
        freeTx := freeTx[1..];
        umem := WriteAt(umem, address, batch[offset]);
        txSlots[Slot(txProducer)] := Desc(address, |batch[offset]|);
        txProducer := Plus(txProducer, 1);
        assert Side(inFlight, Sending(batch, offset + 1)) == SendOne(side);
        assert queued + batch[..offset] + [batch[offset]] == queued + batch[..offset + 1];
      }
      ghost var side := Side(inFlight, Sending(batch, count));
      TxQuietKeeps(side, []);
      txShared := txProducer;
      assert Side(inFlight, TxQuiet) == SendCommit(side);
      assert batch[..count] == frames[..count];
      r := if kick == Broken then Err(KickFailed) else Ok(count);
    }
  }

  lemma {:induction false} DoneStart(t: TxSide, n: TxSide)
    requires TxInv(t) && t.pc.TxQuiet? && n.pc.Reclaiming? && n.pc.offset == 0
    requires n == t.(pc := n.pc)
    ensures |t.doneSlots| == |t.txSlots| == RING_SIZE && DoneRing(n) == DoneRing(t)
        && |DoneRing(t)| == Ahead(t.doneProducer, t.doneConsumer)
  {
    hide Plus;
    PlusZero(t.doneConsumer);
  }

  lemma {:induction false} DoneDrops(t: TxSide)
    requires TxInv(t) && t.pc.Reclaiming? && t.pc.offset < t.pc.count
    ensures |t.doneSlots| == RING_SIZE && |DoneRing(t)| > 0 && DoneRing(ReclaimOne(t)) == DoneRing(t)[1..]
    ensures t.doneSlots[Slot(Plus(t.doneConsumer, t.pc.offset))] == DoneRing(t)[0]
  {
    hide Plus, Ahead, Slot, Chunks, Within;
    AheadTake(t.doneProducer, t.doneConsumer, t.pc.offset);
    PlusZero(DoneNext(t));
    At(t.doneSlots, DoneNext(t), t.doneProducer, 0);
    PlusPlus(t.doneConsumer, t.pc.offset, 1);
    Drop(t.doneSlots, DoneNext(t), t.doneProducer, 1);
  }

  lemma {:induction false} Reclaimed(t: TxSide, n: TxSide)
    requires TxInv(t) && t.pc.Reclaiming? && t.pc.offset == t.pc.count
    requires n == t.(pc := TxQuiet, doneConsumer := Plus(t.doneConsumer, t.pc.count))
    ensures TxInv(n) && TxRing(n) == TxRing(t)
  {
    hide Plus, Ahead, Slot, Chunks, Within;
    AheadTake(t.doneProducer, t.doneConsumer, t.pc.count);
    assert DoneNext(n) == DoneNext(t);
  }

  lemma SharedIsLocal(t: TxSide)
    requires TxInv(t) && t.pc.TxQuiet?
    ensures t.txShared == t.txProducer
  {
  }

  lemma {:induction false} SendingStarts(t: TxSide, n: TxSide)
    requires TxInv(t) && t.pc.TxQuiet? && n == t.(pc := n.pc) && n.pc.Sending? && n.pc.offset == 0
    requires |n.pc.frames| <= |t.freeTx| && forall i :: 0 <= i < |n.pc.frames| ==> |n.pc.frames[i]| <= CHUNK_SIZE
    ensures TxInv(n) && TxRing(n) == TxRing(t)
  {
    hide Plus, Ahead, Slot, Chunks, Within;
    FreeFitsRing(t);
    assert DoneRing(n) == DoneRing(t);
  }

  lemma {:induction false} WriteKeepsShowing(umem: seq<Bytes>, t: TxSide, queued: seq<Bytes>, frame: Bytes)
    requires TxInv(t) && |t.freeTx| > 0 && Sized(umem) && |frame| <= CHUNK_SIZE && Shows(umem, TxRing(t), queued)
    ensures Readable(umem, Desc(t.freeTx[0], |frame|)) && RX_CHUNKS <= Chunk(t.freeTx[0])
    ensures var n := WriteAt(umem, t.freeTx[0], frame);
      && Sized(n) && Shows(n, TxRing(t) + [Desc(t.freeTx[0], |frame|)], queued + [frame])
      && forall c :: 0 <= c < RX_CHUNKS ==> n[c] == umem[c]
  {
    hide Plus, Ahead, Slot, Chunks, Chunk, Within, Shows, TxConserved, TxAligned, TxRing;
    FreeIsNotQueued(t);
    var addr := t.freeTx[0];
    WriteElsewhere(umem, TxRing(t), queued, addr, frame);
    WriteShows(umem, addr, frame);
    ShowsAppend(WriteAt(umem, addr, frame), TxRing(t), queued, Desc(addr, |frame|), frame);
  }
}
