/** Inner packets over QUIC datagrams: fragmentation on the sending side, reassembly over an
    unordered channel on the receiving side. */
module Reassembly {
  import opened Core

  const INNER_PACKET: Byte := 16
  const INNER_FRAGMENT: Byte := 17
  const HEADER_LEN: nat := 13
  const MAX_PACKET: nat := 65535
  const MAX_BYTES: nat := 1048576
  const MAX_ENTRIES: nat := 4096
  const TIMEOUT: nat := 5 * SECOND

  // ---- Wire format ----

  function Octets32(x: U32): (r: Bytes)
    ensures |r| == 4
  {
    Octets16(x / 0x1_0000) + Octets16(x % 0x1_0000)
  }

  function Octets64(x: U64): (r: Bytes)
    ensures |r| == 8
  {
    Octets32(x / 0x1_0000_0000) + Octets32(x % 0x1_0000_0000)
  }

  function Be32(b: Bytes): (r: U32)
    requires |b| == 4
  {
    WordAt(b, 0) * 0x1_0000 + WordAt(b, 2)
  }

  function Be64(b: Bytes): (r: U64)
    requires |b| == 8
  {
    Be32(b[..4]) * 0x1_0000_0000 + Be32(b[4..])
  }

  lemma {:induction false} Be32Inverse(x: U32)
    ensures Be32(Octets32(x)) == x
  {
    var (h, l) := (Octets16(x / 0x1_0000), Octets16(x % 0x1_0000));
    assert Octets32(x) == [h[0], h[1], l[0], l[1]];
  }

  lemma {:induction false} Be64Inverse(x: U64)
    ensures Be64(Octets64(x)) == x
  {
    Be32Inverse(x / 0x1_0000_0000);
    Be32Inverse(x % 0x1_0000_0000);
    assert Octets64(x)[..4] == Octets32(x / 0x1_0000_0000) && Octets64(x)[4..] == Octets32(x % 0x1_0000_0000);
  }

  /** One fragment on the wire. */
  function Encode(id: U64, total: U16, offset: U16, data: Bytes): (r: Bytes)
    ensures |r| == HEADER_LEN + |data|
  {
    [INNER_FRAGMENT] + Octets64(id) + Octets16(total) + Octets16(offset) + data
  }

  lemma {:induction false} EncodeDecodes(id: U64, total: U16, offset: U16, data: Bytes)
    ensures var w := Encode(id, total, offset, data); var p := w[1..];
      && w[0] == INNER_FRAGMENT && |p| == 12 + |data|
      && Be64(p[..8]) == id && WordAt(p, 8) == total && WordAt(p, 10) == offset && p[12..] == data
  {
    hide Octets64, Octets16, Be64;
    var p := Octets64(id) + Octets16(total) + Octets16(offset) + data;
    assert Encode(id, total, offset, data) == [INNER_FRAGMENT] + p;
    assert ([INNER_FRAGMENT] + p)[1..] == p;
    Fields(Octets64(id), Octets16(total), Octets16(offset), data);
    Be64Inverse(id);
  }

  lemma {:induction false} Fields(a: Bytes, b: Bytes, c: Bytes, d: Bytes)
    requires |a| == 8 && |b| == |c| == 2
    ensures var p := a + b + c + d;
      p[..8] == a && WordAt(p, 8) == Be16(b[0], b[1]) && WordAt(p, 10) == Be16(c[0], c[1]) && p[12..] == d
  {
  }

  // ---- Sending ----

  datatype SendError = EmptyInnerPacket | DatagramTooLarge

  /** How many pieces of `size` bytes a packet of `length` bytes takes. */
  function Pieces(length: nat, size: nat): (r: nat)
    requires size > 0
  {
    (length + size - 1) / size
  }

  lemma {:induction false} PiecesBound(length: nat, size: nat, i: nat)
    requires size > 0
    ensures i < Pieces(length, size) <==> i * size < length
  {
    var n := Pieces(length, size);
    var r := (length + size - 1) % size;
    assert length + size - 1 == n * size + r;
    if i < n {
      assert (i + 1) * size <= n * size by { Scales(i + 1, n, size); }
    } else {
      assert n * size <= i * size by { Scales(n, i, size); }
    }
  }

  function PieceEnd(length: nat, size: nat, i: nat): (r: nat) {
    if (i + 1) * size <= length then (i + 1) * size else length
  }

  /** The bytes of piece `i`. */
  function Piece(packet: Bytes, size: nat, i: nat): (r: Bytes)
    requires size > 0 && i < Pieces(|packet|, size)
    ensures 0 < |r| <= size && i * size + |r| == PieceEnd(|packet|, size, i) <= |packet|
  {
    PiecesBound(|packet|, size, i);
    assert (i + 1) * size == i * size + size;
    packet[i * size..PieceEnd(|packet|, size, i)]
  }

  /** Fragment `i` of a packet under a datagram limit. */
  function Fragment(packet: Bytes, id: U64, limit: nat, i: nat): (r: Bytes)
    requires limit > HEADER_LEN && |packet| <= MAX_PACKET && i < Pieces(|packet|, limit - HEADER_LEN)
  {
    PiecesBound(|packet|, limit - HEADER_LEN, i);
    Encode(id, |packet|, i * (limit - HEADER_LEN), Piece(packet, limit - HEADER_LEN, i))
  }

  function Fragments(packet: Bytes, id: U64, limit: nat): (r: seq<Bytes>)
    requires limit > HEADER_LEN && |packet| <= MAX_PACKET
  {
    seq(Pieces(|packet|, limit - HEADER_LEN), i requires 0 <= i < Pieces(|packet|, limit - HEADER_LEN) =>
        Fragment(packet, id, limit, i))
  }

  /** `send_inner`: the next packet identifier and the datagrams sent. */
  function SendInner(next: U64, packet: Bytes, limit: nat): (r: Result<(U64, seq<Bytes>), SendError>) {
    if |packet| == 0 then Err(EmptyInnerPacket)
    else if |packet| < limit then Ok((next, [[INNER_PACKET] + packet]))
    else if |packet| > MAX_PACKET || limit <= HEADER_LEN then Err(DatagramTooLarge)
    else Ok((Next64(next), Fragments(packet, next, limit)))
  }

  /** Position `p` of the packet belongs to the piece `p / size` and to no other. */
  lemma {:induction false} PieceOf(length: nat, size: nat, p: nat, i: nat)
    requires size > 0 && p < length && i < Pieces(length, size)
    ensures p / size < Pieces(length, size)
    ensures i * size <= p < PieceEnd(length, size, i) <==> i == p / size
  {
    hide PieceEnd, Pieces;
    var q := p / size;
    QuotientBounds(p, size);
    PiecesBound(length, size, q);
    EndOf(length, size, q);
    EndOf(length, size, i);
    OneInterval(p, size, q, i);
  }

  lemma QuotientBounds(p: nat, size: nat)
    requires size > 0
    ensures (p / size) * size <= p < (p / size + 1) * size
  {
    assert p == (p / size) * size + p % size;
    assert (p / size + 1) * size == (p / size) * size + size;
  }

  /** The multiples of `size` cut the numbers into disjoint intervals. */
  lemma OneInterval(p: nat, size: nat, q: nat, i: nat)
    requires q * size <= p < (q + 1) * size
    ensures i * size <= p < (i + 1) * size <==> i == q
  {
    if i < q { Scales(i + 1, q, size); }
    if q < i { Scales(q + 1, i, size); }
  }

  lemma EndOf(length: nat, size: nat, i: nat)
    ensures PieceEnd(length, size, i) == if (i + 1) * size <= length then (i + 1) * size else length
  {
  }

  /** Every datagram fits the limit, and the pieces tile the packet: each position is in exactly one
      piece, which carries the packet's byte there. */
  lemma {:induction false} FragmentsTile(packet: Bytes, id: U64, limit: nat)
    requires limit > HEADER_LEN && |packet| <= MAX_PACKET
    ensures forall i :: 0 <= i < |Fragments(packet, id, limit)| ==> |Fragments(packet, id, limit)[i]| <= limit
    ensures var size := limit - HEADER_LEN;
      forall p, i :: 0 <= p < |packet| && 0 <= i < Pieces(|packet|, size) ==> Covers(packet, size, i, p)
  {
    hide Pieces, Piece, Covers, Encode;
    var size := limit - HEADER_LEN;
    forall p, i | 0 <= p < |packet| && 0 <= i < Pieces(|packet|, size) ensures Covers(packet, size, i, p) {
      PieceCovers(packet, size, i, p);
    }
  }

  /** Piece `i` covers position `p` exactly when `i` is the quotient, and then with the right byte. */
  ghost predicate Covers(packet: Bytes, size: nat, i: nat, p: nat)
    requires size > 0 && i < Pieces(|packet|, size) && p < |packet|
  {
    && (i == p / size <==> i * size <= p < i * size + |Piece(packet, size, i)|)
    && (i == p / size ==> Piece(packet, size, i)[p - i * size] == packet[p])
  }

  lemma {:induction false} PieceCovers(packet: Bytes, size: nat, i: nat, p: nat)
    requires size > 0 && i < Pieces(|packet|, size) && p < |packet|
    ensures Covers(packet, size, i, p)
  {
    hide Pieces, PieceEnd;
    PieceOf(|packet|, size, p, i);
    if i == p / size { PieceAt(packet, size, i, p); }
  }

  lemma PieceAt(packet: Bytes, size: nat, i: nat, p: nat)
    requires size > 0 && i < Pieces(|packet|, size) && i * size <= p < PieceEnd(|packet|, size, i)
    ensures Piece(packet, size, i)[p - i * size] == packet[p]
  {
    hide Pieces, PieceEnd;
  }

  // ---- Receiving ----

  datatype Entry = Entry(createdAt: Instant, packet: Bytes, received: seq<bool>, count: nat)

  datatype State = State(entries: map<U64, Entry>, bytes: nat)

  const EMPTY := State(map[], 0)

  function Blank(now: Instant, total: nat): (r: Entry) {
    Entry(now, seq(total, _ => 0), seq(total, _ => false), 0)
  }

  /** Storing one byte of a fragment. */
  function Put(e: Entry, at: nat, byte: Byte): (r: Entry)
    requires at < |e.packet| == |e.received|
  {
    Entry(e.createdAt, e.packet[at := byte], e.received[at := true], if e.received[at] then e.count else e.count + 1)
  }

  /** Storing a whole fragment. */
  function Fill(e: Entry, offset: nat, data: Bytes): (r: Entry)
    requires |e.packet| == |e.received| && offset + |data| <= |e.packet|
    ensures r.createdAt == e.createdAt && |r.packet| == |r.received| == |e.packet|
    ensures forall p :: 0 <= p < |e.packet| ==> r.packet[p] == if offset <= p < offset + |data| then data[p - offset]
        else e.packet[p]
    ensures forall p :: 0 <= p < |e.packet| ==> r.received[p] == (offset <= p < offset + |data| || e.received[p])
    decreases |data|
  {
    if |data| == 0 then e
    else
      var before := Fill(e, offset, data[..|data| - 1]);
      Put(before, offset + |data| - 1, data[|data| - 1])
  }

  /** The table with an entry for the packet, unless there is no room to open one. */
  function Open(s: State, now: Instant, id: U64, total: nat): (r: Option<State>) {
    if id in s.entries then Some(s)
    else if |s.entries| >= MAX_ENTRIES || s.bytes + total > MAX_BYTES then None
    else Some(State(s.entries[id := Blank(now, total)], s.bytes + total))
  }

  function Store(s: State, id: U64, total: nat, offset: nat, data: Bytes): (r: (State, seq<Bytes>))
    requires id in s.entries && |s.entries[id].packet| == |s.entries[id].received| == total && offset + |data| <= total
  {
    var e := Fill(s.entries[id], offset, data);
    if e.count == total then (State(s.entries - {id}, if s.bytes >= total then s.bytes - total else 0), [e.packet])
    else (s.(entries := s.entries[id := e]), [])
  }

  predicate Plausible(total: nat, offset: nat, length: nat) {
    0 < total && offset < total && offset + length <= total
  }

  /** `handle_inner_fragment`: the new table and the packets completed. */
  function HandleFragment(s: State, now: Instant, payload: Bytes): (r: (State, seq<Bytes>)) {
    if |payload| < HEADER_LEN then (s, [])
    else
      var (id, total, offset, data) := (Be64(payload[..8]), WordAt(payload, 8), WordAt(payload, 10), payload[12..]);
      if !Plausible(total, offset, |data|) then (s, [])
      else
        var place := Open(s, now, id, total);
        if place.None? || id !in place.value.entries then (s, [])
        else
          var e := place.value.entries[id];
          if |e.packet| != total || |e.received| != total then (s, []) else Store(place.value, id, total, offset, data)
  }

  /** `handle_application_datagram` on an authenticated connection. */
  function HandleDatagram(s: State, now: Instant, datagram: Bytes): (r: (State, seq<Bytes>)) {
    if |datagram| == 0 then (s, [])
    else if datagram[0] == INNER_PACKET then (s, if |datagram| > 1 then [datagram[1..]] else [])
    else if datagram[0] == INNER_FRAGMENT then HandleFragment(s, now, datagram[1..])
    else (s, [])
  }

  /** Still young enough to keep. */
  predicate Young(e: Entry, now: Instant) {
    now < e.createdAt + TIMEOUT
  }

  function Kept(m: map<U64, Entry>, now: Instant): (r: map<U64, Entry>) {
    map id | id in m && Young(m[id], now) :: m[id]
  }

  ghost function Total(m: map<U64, Entry>): nat
    decreases |m|
  {
    if m == map[] then 0
    else
      var id :| id in m;
      Shrinks(m, id);
      |m[id].packet| + Total(m - {id})
  }

  lemma Shrinks(m: map<U64, Entry>, id: U64)
    requires id in m
    ensures |m - {id}| == |m| - 1
  {
    assert (m - {id}).Keys == m.Keys - {id};
    assert |m.Keys - {id}| == |m.Keys| - 1;
  }

  lemma {:induction false} TotalAt(m: map<U64, Entry>, id: U64)
    requires id in m
    ensures Total(m) == |m[id].packet| + Total(m - {id})
    decreases |m|
  {
    var j :| j in m && Total(m) == |m[j].packet| + Total(m - {j});
    if j != id {
      Shrinks(m, j);
      Shrinks(m, id);
      TotalAt(m - {j}, id);
      TotalAt(m - {id}, j);
      assert m - {j} - {id} == m - {id} - {j};
    }
  }

  lemma {:induction false} TotalPut(m: map<U64, Entry>, id: U64, e: Entry)
    ensures Total(m[id := e]) == Total(m - {id}) + |e.packet|
    ensures id in m ==> Total(m) == Total(m - {id}) + |m[id].packet|
    ensures id !in m ==> m - {id} == m
  {
    TotalAt(m[id := e], id);
    assert m[id := e] - {id} == m - {id};
    if id in m { TotalAt(m, id); }
  }

  /** `prune_reassembly`. */
  ghost function Prune(s: State, now: Instant): State {
    State(Kept(s.entries, now), Total(Kept(s.entries, now)))
  }

  // ---- The invariant ----

  ghost function Bits(r: seq<bool>): (n: nat)
    ensures n <= |r|
  {
    if |r| == 0 then 0 else Bits(r[..|r| - 1]) + (if r[|r| - 1] then 1 else 0)
  }

  lemma {:induction false} BitsSet(r: seq<bool>, i: nat)
    requires i < |r|
    ensures Bits(r[i := true]) == Bits(r) + (if r[i] then 0 else 1)
  {
    var last := |r| - 1;
    if i == last {
      assert r[i := true][..last] == r[..last];
    } else {
      BitsSet(r[..last], i);
      assert r[i := true][..last] == r[..last][i := true];
    }
  }

  ghost predicate AllSet(r: seq<bool>) {
    forall i :: 0 <= i < |r| ==> r[i]
  }

  lemma {:induction false} BitsAll(r: seq<bool>)
    ensures Bits(r) == |r| <==> AllSet(r)
  {
    if |r| > 0 {
      var front := r[..|r| - 1];
      BitsAll(front);
      if AllSet(front) && r[|r| - 1] {
        forall i | 0 <= i < |r| ensures r[i] { if i < |r| - 1 { assert front[i]; } }
      }
    }
  }

  lemma {:induction false} BitsNone(n: nat)
    ensures Bits(seq(n, _ => false)) == 0
  {
    if n > 0 {
      BitsNone(n - 1);
      assert seq(n, _ => false)[..n - 1] == seq(n - 1, _ => false);
    }
  }

  /** The byte count is the number of received bits. */
  ghost predicate Counted(e: Entry) {
    |e.packet| == |e.received| && e.count == Bits(e.received)
  }

  /** A stored entry is incomplete. */
  ghost predicate EntryInv(e: Entry) {
    Counted(e) && 0 < |e.packet| <= MAX_PACKET && e.count < |e.packet|
  }

  ghost predicate Entries(m: map<U64, Entry>) {
    forall id :: id in m ==> EntryInv(m[id])
  }

  /** The byte counter is the sum over the entries, both limits hold, and every entry is incomplete
      with `count` equal to its set bits. */
  ghost predicate Inv(s: State) {
    s.bytes == Total(s.entries) <= MAX_BYTES && |s.entries| <= MAX_ENTRIES && Entries(s.entries)
  }

  lemma {:induction false} FillCounts(e: Entry, offset: nat, data: Bytes)
    requires Counted(e) && offset + |data| <= |e.packet|
    ensures Counted(Fill(e, offset, data))
    decreases |data|
  {
    if |data| > 0 {
      FillCounts(e, offset, data[..|data| - 1]);
      var before := Fill(e, offset, data[..|data| - 1]);
      BitsSet(before.received, offset + |data| - 1);
    }
  }

  /** Filling completes an entry exactly when every bit is set. */
  lemma {:induction false} FillCompletes(e: Entry, offset: nat, data: Bytes)
    requires Counted(e) && offset + |data| <= |e.packet|
    ensures var f := Fill(e, offset, data);
      && f.count <= |e.packet|
      && (f.count == |e.packet| <==> AllSet(f.received))
  {
    hide Bits, Fill;
    FillCounts(e, offset, data);
    BitsAll(Fill(e, offset, data).received);
  }

  lemma {:induction false} BlankInv(now: Instant, total: nat)
    requires 0 < total <= MAX_PACKET
    ensures EntryInv(Blank(now, total))
  {
    BitsNone(total);
  }

  lemma {:induction false} OpenKeeps(s: State, now: Instant, id: U64, total: nat)
    requires Inv(s) && 0 < total <= MAX_PACKET && Open(s, now, id, total).Some?
    ensures Inv(Open(s, now, id, total).value) && id in Open(s, now, id, total).value.entries
  {
    hide EntryInv, Total;
    if id !in s.entries {
      BlankInv(now, total);
      TotalPut(s.entries, id, Blank(now, total));
      Grows(s.entries, id, Blank(now, total));
    }
  }

  lemma Grows(m: map<U64, Entry>, id: U64, e: Entry)
    ensures |m[id := e]| <= |m| + 1 && (id in m ==> |m[id := e]| == |m|)
  {
    assert m[id := e].Keys == m.Keys + {id};
    if id in m { assert m.Keys + {id} == m.Keys; }
  }

  lemma {:induction false} StoreKeeps(s: State, id: U64, total: nat, offset: nat, data: Bytes)
    requires Inv(s) && id in s.entries && |s.entries[id].packet| == total && offset + |data| <= total
    ensures |s.entries[id].received| == total && Inv(Store(s, id, total, offset, data).0)
  {
    hide Total, Bits, Fill;
    assert EntryInv(s.entries[id]);
    FillCounts(s.entries[id], offset, data);
    FillCompletes(s.entries[id], offset, data);
    TotalPut(s.entries, id, Fill(s.entries[id], offset, data));
    Grows(s.entries, id, Fill(s.entries[id], offset, data));
    Shrinks(s.entries, id);
  }

  lemma {:induction false} HandleFragmentKeeps(s: State, now: Instant, payload: Bytes)
    requires Inv(s)
    ensures Inv(HandleFragment(s, now, payload).0)
  {
    hide Inv, Store, Open, Be64, WordAt;
    if |payload| >= HEADER_LEN {
      var (id, total, offset, data) := (Be64(payload[..8]), WordAt(payload, 8), WordAt(payload, 10), payload[12..]);
      if Plausible(total, offset, |data|) && Open(s, now, id, total).Some? {
        OpenKeeps(s, now, id, total);
        var o := Open(s, now, id, total).value;
        if |o.entries[id].packet| == total && |o.entries[id].received| == total {
          StoreKeeps(o, id, total, offset, data);
        }
      }
    }
  }

  lemma {:induction false} TotalMono(m: map<U64, Entry>, n: map<U64, Entry>)
    requires n.Keys <= m.Keys && forall id :: id in n ==> n[id] == m[id]
    ensures Total(n) <= Total(m) && |n| <= |m|
    decreases |m|
  {
    if m == map[] {
      assert n == map[];
    } else {
      var id :| id in m;
      Shrinks(m, id);
      TotalAt(m, id);
      if id in n {
        TotalAt(n, id);
        Shrinks(n, id);
        TotalMono(m - {id}, n - {id});
      } else {
        TotalMono(m - {id}, n);
      }
    }
  }

  lemma {:induction false} PruneKeeps(s: State, now: Instant)
    requires Inv(s)
    ensures Inv(Prune(s, now))
  {
    TotalMono(s.entries, Kept(s.entries, now));
  }

  datatype Op =
    | Datagram(now: Instant, bytes: Bytes)
    | PruneAt(now: Instant)
    | Clear

  ghost function Apply(s: State, op: Op): (State, seq<Bytes>) {
    match op
    case Datagram(now, bytes) => HandleDatagram(s, now, bytes)
    case PruneAt(now) => (Prune(s, now), [])
    case Clear => (EMPTY, [])
  }

  /** Whatever arrives, the invariant holds after it. */
  lemma {:induction false} ApplyKeeps(s: State, op: Op)
    requires Inv(s)
    ensures Inv(Apply(s, op).0)
  {
    hide HandleFragment;
    match op {
      case Datagram(now, bytes) => if |bytes| > 0 { HandleFragmentKeeps(s, now, bytes[1..]); }
      case PruneAt(now) => PruneKeeps(s, now);
      case Clear =>
    }
  }

  ghost function After(s: State, ops: seq<Op>): State {
    if |ops| == 0 then s else Apply(After(s, ops[..|ops| - 1]), ops[|ops| - 1]).0
  }

  /** For any sequence of datagrams, prunes and clears the limits hold throughout. */
  lemma {:induction false} ArbitraryInput(ops: seq<Op>)
    ensures Inv(After(EMPTY, ops))
  {
    hide Inv, Apply;
    if |ops| == 0 {
      EmptyInv();
    } else {
      ArbitraryInput(ops[..|ops| - 1]);
      ApplyKeeps(After(EMPTY, ops[..|ops| - 1]), ops[|ops| - 1]);
    }
  }

  lemma EmptyInv()
    ensures Inv(EMPTY)
  {
  }

  // ---- Reassembly is the identity ----

  /** One packet under way: its identifier, bytes and datagram limit. */
  datatype Sent = Sent(id: U64, packet: Bytes, limit: nat) {
    ghost predicate Valid() {
      limit > HEADER_LEN && 0 < |packet| <= MAX_PACKET
    }

    ghost function Size(): nat
      requires Valid()
    {
      limit - HEADER_LEN
    }

    ghost function Count(): nat
      requires Valid()
    {
      Pieces(|packet|, limit - HEADER_LEN)
    }

    /** Every piece is in `got`. */
    ghost predicate Complete(got: set<nat>)
      requires Valid()
    {
      forall i :: 0 <= i < Count() ==> i in got
    }

    ghost function Frag(i: nat): Bytes
      requires Valid() && i < Count()
    {
      Fragment(packet, id, limit, i)
    }
  }

  /** The entry holds exactly the pieces in `got`. */
  ghost predicate Holds(e: Entry, x: Sent, got: set<nat>)
    requires x.Valid()
  {
    && Counted(e) && |e.packet| == |x.packet|
    && forall p :: 0 <= p < |x.packet| ==> (e.received[p] <==> p / x.Size() in got) && (e.received[p] ==>
        e.packet[p] == x.packet[p])
  }

  /** The packet's progress: nothing stored before the first piece, then an entry holding `got`. */
  ghost predicate Underway(s: State, x: Sent, got: set<nat>, started: Instant)
    requires x.Valid()
  {
    if got == {} then x.id !in s.entries
    else x.id in s.entries && Holds(s.entries[x.id], x, got) && s.entries[x.id].createdAt == started
  }

  ghost predicate Room(s: State, x: Sent) {
    |s.entries| < MAX_ENTRIES && s.bytes + |x.packet| <= MAX_BYTES
  }

  lemma {:induction false} DecodedFragment(s: State, now: Instant, x: Sent, i: nat)
    requires x.Valid() && i < x.Count()
    ensures i * x.Size() < |x.packet|
    ensures var w := x.Frag(i);
      && w[0] == INNER_FRAGMENT
      && HandleDatagram(s, now, w) == HandleFragment(s, now, w[1..])
      && HandleFragment(s, now, w[1..]) ==
           (var place := Open(s, now, x.id, |x.packet|);
            if place.None? || x.id !in place.value.entries then (s, [])
            else
              var e := place.value.entries[x.id];
              if |e.packet| != |x.packet| || |e.received| != |x.packet| then (s, [])
              else Store(place.value, x.id, |x.packet|, i * x.Size(), Piece(x.packet, x.Size(), i)))
  {
    hide Open, Store, Be64, WordAt, Encode;
    var size := x.Size();
    PiecesBound(|x.packet|, size, i);
    EncodeDecodes(x.id, |x.packet|, i * size, Piece(x.packet, size, i));
  }

  lemma {:induction false} FillHolds(e: Entry, x: Sent, got: set<nat>, i: nat)
    requires x.Valid() && i < x.Count() && Holds(e, x, got)
    ensures i * x.Size() + |Piece(x.packet, x.Size(), i)| <= |x.packet|
    ensures Holds(Fill(e, i * x.Size(), Piece(x.packet, x.Size(), i)), x, got + {i})
  {
    hide Fill, Bits;
    var size := x.Size();
    var data := Piece(x.packet, size, i);
    FillCounts(e, i * size, data);
    var f := Fill(e, i * size, data);
    forall p | 0 <= p < |x.packet|
      ensures (f.received[p] <==> p / size in got + {i}) && (f.received[p] ==> f.packet[p] == x.packet[p])
    {
      PieceOf(|x.packet|, size, p, i);
    }
  }

  lemma {:induction false} BlankHolds(now: Instant, x: Sent)
    requires x.Valid()
    ensures Holds(Blank(now, |x.packet|), x, {})
  {
    BitsNone(|x.packet|);
  }

  lemma HeldCounts(e: Entry, x: Sent, got: set<nat>)
    requires x.Valid() && Holds(e, x, got)
    ensures |e.received| == |e.packet| == |x.packet| && (e.count == |x.packet| <==> AllSet(e.received))
    ensures AllSet(e.received) ==> e.packet == x.packet
  {
    hide Bits;
    BitsAll(e.received);
  }

  /** A piece whose first byte is there has been delivered. */
  lemma {:induction false} HeldPiece(e: Entry, x: Sent, got: set<nat>, i: nat)
    requires x.Valid() && Holds(e, x, got) && AllSet(e.received) && i < x.Count()
    ensures i in got
  {
    hide Bits, Pieces;
    var size := x.Size();
    PiecesBound(|x.packet|, size, i);
    Quotient(i, size);
    assert e.received[i * size];
  }

  /** With every piece delivered every byte is there. */
  lemma {:induction false} HeldByte(e: Entry, x: Sent, got: set<nat>, p: nat)
    requires x.Valid() && Holds(e, x, got) && x.Complete(got) && p < |x.packet|
    ensures p < |e.received| && e.received[p]
  {
    hide Bits, Pieces, PieceEnd;
    PiecesBound(|x.packet|, x.Size(), 0);
    PieceOf(|x.packet|, x.Size(), p, 0);
  }

  /** An entry holding `got` is complete exactly when every piece is in it, and then it is the packet. */
  lemma {:induction false} HoldsAll(e: Entry, x: Sent, got: set<nat>)
    requires x.Valid() && Holds(e, x, got)
    ensures e.count == |x.packet| <==> x.Complete(got)
    ensures e.count == |x.packet| ==> e.packet == x.packet
  {
    hide Bits, Pieces, Holds;
    HeldCounts(e, x, got);
    if AllSet(e.received) {
      forall i | 0 <= i < x.Count() ensures i in got { HeldPiece(e, x, got, i); }
    }
    if x.Complete(got) {
      forall p | 0 <= p < |x.packet| ensures e.received[p] { HeldByte(e, x, got, p); }
    }
  }

  lemma {:induction false} Quotient(i: nat, size: nat)
    requires size > 0
    ensures (i * size) / size == i
  {
    var q := (i * size) / size;
    var r := (i * size) % size;
    assert i * size == q * size + r;
    assert (i + 1) * size == i * size + size && (q + 1) * size == q * size + size;
    if i < q { Scales(i + 1, q, size); }
    if q < i { Scales(q + 1, i, size); }
  }

  /** Delivering a missing piece: the last one yields exactly the packet and clears the entry, any
      other yields nothing and is recorded. */
  lemma {:induction false} DeliverPiece(s: State, now: Instant, x: Sent, got: set<nat>, started: Instant, i: nat)
    requires x.Valid() && i < x.Count() && Underway(s, x, got, started) && i !in got
    requires got == {} ==> Room(s, x) && started == now
    ensures var (n, out) := HandleDatagram(s, now, x.Frag(i));
      if x.Complete(got + {i}) then out == [x.packet] && x.id !in n.entries
      else out == [] && Underway(n, x, got + {i}, started)
  {
    hide Bits, Pieces, Fill, HandleDatagram, HandleFragment;
    DecodedFragment(s, now, x, i);
    var o := Open(s, now, x.id, |x.packet|).value;
    if got == {} { BlankHolds(now, x); }
    var e := o.entries[x.id];
    assert Holds(e, x, got) && e.createdAt == started;
    FillHolds(e, x, got, i);
    HoldsAll(Fill(e, i * x.Size(), Piece(x.packet, x.Size(), i)), x, got + {i});
  }

  /** An operation on other packets: a datagram of another identifier, or a prune that is not late. */
  ghost predicate Elsewhere(op: Op, x: Sent, started: Instant) {
    match op
    case Datagram(_, bytes) => |bytes| < 1 + HEADER_LEN || bytes[0] != INNER_FRAGMENT || Be64(bytes[1..9]) != x.id
    case PruneAt(now) => now < started + TIMEOUT
    case Clear => false
  }

  lemma {:induction false} ElsewhereKeeps(s: State, op: Op, x: Sent, got: set<nat>, started: Instant)
    requires x.Valid() && Underway(s, x, got, started) && Elsewhere(op, x, started)
    ensures Underway(Apply(s, op).0, x, got, started)
  {
    hide Holds, Fill, WordAt, Be64;
    match op {
      case Datagram(now, bytes) =>
        if |bytes| >= 1 + HEADER_LEN { assert bytes[1..][..8] == bytes[1..9]; }
        UntouchedBy(s, now, bytes, x.id);
      case PruneAt(now) =>
      case Clear =>
    }
  }

  lemma {:induction false} UntouchedBy(s: State, now: Instant, bytes: Bytes, id: U64)
    requires |bytes| < 1 + HEADER_LEN || bytes[0] != INNER_FRAGMENT || Be64(bytes[1..][..8]) != id
    ensures var n := HandleDatagram(s, now, bytes).0;
      (id in n.entries <==> id in s.entries) && (id in s.entries ==> n.entries[id] == s.entries[id])
  {
    hide Fill, WordAt, Be64, Blank;
  }

  /** A schedule: for each operation, the piece of the packet it delivers, if any. */
  ghost predicate Schedule(ops: seq<Op>, which: seq<Option<nat>>, x: Sent)
    requires x.Valid()
  {
    && |ops| == |which|
    && (forall k :: 0 <= k < |ops| && which[k].Some? ==>
          which[k].value < x.Count() && ops[k].Datagram? && ops[k].bytes == x.Frag(which[k].value))
    && (forall j, k :: 0 <= j < k < |ops| && which[j].Some? && which[k].Some? ==> which[j] != which[k])
  }

  /** The pieces delivered by the first `k` operations. */
  ghost function Got(which: seq<Option<nat>>, k: nat): set<nat>
    requires k <= |which|
  {
    set j | 0 <= j < k && which[j].Some? :: which[j].value
  }

  /** Everything between the pieces leaves the packet alone, and there is room when the first piece
      arrives at operation `first`. */
  ghost predicate Undisturbed(s: State, ops: seq<Op>, which: seq<Option<nat>>, x: Sent, first: nat)
    requires x.Valid() && first < |ops| == |which|
  {
    && which[first].Some? && ops[first].Datagram? && (forall k :: 0 <= k < first ==> which[k].None?)
    && Room(After(s, ops[..first]), x)
    && (forall k :: 0 <= k < |ops| && which[k].None? ==>
          Elsewhere(ops[k], x, ops[first].now) || (k < first && !ops[k].Datagram?))
  }

  ghost function Emitted(s: State, ops: seq<Op>, k: nat): seq<Bytes>
    requires k < |ops|
  {
    Apply(After(s, ops[..k]), ops[k]).1
  }

  lemma {:induction false} GotNext(which: seq<Option<nat>>, k: nat)
    requires k < |which|
    ensures Got(which, k + 1) == Got(which, k) + (if which[k].Some? then {which[k].value} else {})
  {
  }

  lemma AfterNext(s: State, ops: seq<Op>, k: nat)
    requires k < |ops|
    ensures After(s, ops[..k + 1]) == Apply(After(s, ops[..k]), ops[k]).0
  {
    assert ops[..k + 1][..k] == ops[..k];
  }

  /** Before the last piece the packet is under way and none of its pieces has produced anything. */
  lemma {:induction false} RunUnderway(s: State, ops: seq<Op>, which: seq<Option<nat>>, x: Sent, first: nat, k: nat)
    requires x.Valid() && Schedule(ops, which, x) && first < |ops| && Undisturbed(s, ops, which, x, first)
        && x.id !in s.entries
    requires k <= |ops| && !x.Complete(Got(which, k))
    ensures Underway(After(s, ops[..k]), x, Got(which, k), ops[first].now)
  {
    hide Apply, Underway, Schedule, Undisturbed, Got, After, Sent.Complete;
    Basics(s, ops, which, x, first);
    if k == 0 {
      UnderwayStart(s, ops, which, x, ops[first].now);
    } else {
      GotNext(which, k - 1);
      FewerIncomplete(x, Got(which, k - 1), Got(which, k));
      RunUnderway(s, ops, which, x, first, k - 1);
      AfterNext(s, ops, k - 1);
      if which[k - 1].Some? {
        PieceArrives(s, ops, which, x, first, k - 1);
        IsDatagram(ops, which, x, k - 1);
        ApplyDatagram(After(s, ops[..k - 1]), ops[k - 1]);
      } else {
        BetweenPieces(s, ops, which, x, first, k - 1);
        assert Got(which, k) == Got(which, k - 1);
      }
    }
  }

  lemma Basics(s: State, ops: seq<Op>, which: seq<Option<nat>>, x: Sent, first: nat)
    requires x.Valid() && Schedule(ops, which, x) && first < |ops| && Undisturbed(s, ops, which, x, first)
    ensures |ops| == |which| && ops[first].Datagram?
  {
  }

  lemma UnderwayStart(s: State, ops: seq<Op>, which: seq<Option<nat>>, x: Sent, started: Instant)
    requires x.Valid() && x.id !in s.entries
    ensures Underway(After(s, ops[..0]), x, Got(which, 0), started)
  {
    assert Got(which, 0) == {} && ops[..0] == [];
  }

  lemma FewerIncomplete(x: Sent, a: set<nat>, b: set<nat>)
    requires x.Valid() && a <= b && !x.Complete(b)
    ensures !x.Complete(a)
  {
  }

  lemma IsDatagram(ops: seq<Op>, which: seq<Option<nat>>, x: Sent, k: nat)
    requires x.Valid() && Schedule(ops, which, x) && k < |ops| && which[k].Some?
    ensures ops[k].Datagram?
  {
  }

  /** An operation between the pieces. */
  lemma {:induction false} BetweenPieces(s: State, ops: seq<Op>, which: seq<Option<nat>>, x: Sent, first: nat, k: nat)
    requires x.Valid() && first < |ops| == |which| && Undisturbed(s, ops, which, x, first)
    requires k < |ops| && which[k].None? && Underway(After(s, ops[..k]), x, Got(which, k), ops[first].now)
    ensures Underway(Apply(After(s, ops[..k]), ops[k]).0, x, Got(which, k), ops[first].now)
  {
    hide Apply, Holds, Elsewhere, After;
    var m := After(s, ops[..k]);
    if Elsewhere(ops[k], x, ops[first].now) {
      ElsewhereKeeps(m, ops[k], x, Got(which, k), ops[first].now);
    } else {
      NothingYet(which, first, k);
      StillNothing(m, ops[k], x.id);
    }
  }

  lemma NothingYet(which: seq<Option<nat>>, first: nat, k: nat)
    requires k <= first < |which| && forall j :: 0 <= j < first ==> which[j].None?
    ensures Got(which, k) == {}
  {
  }

  lemma StillNothing(s: State, op: Op, id: U64)
    requires id !in s.entries && !op.Datagram?
    ensures id !in Apply(s, op).0.entries
  {
  }

  lemma ApplyDatagram(s: State, op: Op)
    requires op.Datagram?
    ensures Apply(s, op) == HandleDatagram(s, op.now, op.bytes)
  {
  }

  /** The arrival of a piece at operation `k`. */
  lemma {:induction false} PieceArrives(s: State, ops: seq<Op>, which: seq<Option<nat>>, x: Sent, first: nat, k: nat)
    requires x.Valid() && Schedule(ops, which, x) && first < |ops| && Undisturbed(s, ops, which, x, first)
    requires k < |ops| && which[k].Some? && Underway(After(s, ops[..k]), x, Got(which, k), ops[first].now)
    ensures var (n, out) := HandleDatagram(After(s, ops[..k]), ops[k].now, ops[k].bytes);
      if x.Complete(Got(which, k + 1)) then out == [x.packet] && x.id !in n.entries
      else out == [] && Underway(n, x, Got(which, k + 1), ops[first].now)
  {
    hide Apply, Holds, Elsewhere, Pieces, HandleDatagram;
    GotNext(which, k);
    assert which[k].value !in Got(which, k);
    assert k >= first;
    if k > first { assert which[first].value in Got(which, k); }
    DeliverPiece(After(s, ops[..k]), ops[k].now, x, Got(which, k), ops[first].now, which[k].value);
  }

  /** Reassembly refines identity: every piece delivered once, in any order and amid any traffic of
      other packets, yields exactly one inner packet, equal to the one sent, at the last piece. */
  lemma {:induction false} ReassemblyIsIdentity(s: State, ops: seq<Op>, which: seq<Option<nat>>, x: Sent, first: nat,
          last: nat)
    requires x.Valid() && Schedule(ops, which, x) && first < |ops| && Undisturbed(s, ops, which, x, first)
        && x.id !in s.entries
    requires last < |ops| && which[last].Some? && (forall k :: last < k < |ops| ==> which[k].None?)
    requires x.Complete(Got(which, |ops|))
    ensures forall k :: 0 <= k < |ops| && which[k].Some? ==> Emitted(s, ops, k) == if k == last then [x.packet] else []
    ensures x.id !in After(s, ops[..last + 1]).entries
  {
    hide Apply, Holds, Elsewhere, Pieces, HandleDatagram;
    GotAfter(which, last + 1);
    forall k | 0 <= k < |ops| && which[k].Some? ensures Emitted(s, ops, k) == if k == last then [x.packet] else [] {
      assert which[last].value !in Got(which, k) by { NotBefore(which, k, last); }
      RunUnderway(s, ops, which, x, first, k);
      PieceArrives(s, ops, which, x, first, k);
      ApplyDatagram(After(s, ops[..k]), ops[k]);
      AfterNext(s, ops, k);
      if k < last {
        NotBefore(which, k + 1, last);
        assert which[last].value !in Got(which, k + 1);
      }
    }
    PieceArrives(s, ops, which, x, first, last) by {
      NotBefore(which, last, last);
      RunUnderway(s, ops, which, x, first, last);
    }
    ApplyDatagram(After(s, ops[..last]), ops[last]);
    AfterNext(s, ops, last);
  }

  lemma NotBefore(which: seq<Option<nat>>, k: nat, last: nat)
    requires k <= last < |which| && which[last].Some?
    requires forall i, j :: 0 <= i < j < |which| && which[i].Some? && which[j].Some? ==> which[i] != which[j]
    ensures which[last].value !in Got(which, k)
  {
  }

  lemma {:induction false} GotAfter(which: seq<Option<nat>>, k: nat)
    requires k <= |which| && forall j :: k <= j < |which| ==> which[j].None?
    ensures Got(which, k) == Got(which, |which|)
  {
  }

  /** A packet below the datagram limit travels in one datagram and comes out as it went in. */
  lemma {:induction false} ShortPacket(s: State, now: Instant, next: U64, packet: Bytes, limit: nat)
    requires 0 < |packet| < limit
    ensures SendInner(next, packet, limit).Ok? && |SendInner(next, packet, limit).value.1| == 1
    ensures HandleDatagram(s, now, SendInner(next, packet, limit).value.1[0]) == (s, [packet])
  {
    assert ([INNER_PACKET] + packet)[1..] == packet;
  }

  // ---- The mutable engine ----

  class Engine {
    var nextId: U64
    var entries: map<U64, Entry>
    var bytes: nat
    var events: seq<Bytes>

    function Table(): State
      reads this
    {
      State(entries, bytes)
    }

    constructor ()
      ensures Table() == EMPTY && nextId == 0 && events == []
    {
      nextId := 0;
      entries := map[];
      bytes := 0;
      events := [];
    }

    /** `send_fragmented_inner`: the loop over the offsets. */
    method SendFragmented(packet: Bytes, limit: nat) returns (r: Result<seq<Bytes>, SendError>)
      modifies this`nextId
      ensures r.Err? <==> |packet| > MAX_PACKET || limit <= HEADER_LEN
      ensures r.Err? ==> nextId == old(nextId)
      ensures r.Ok? ==> nextId == Next64(old(nextId)) && r.value == Fragments(packet, old(nextId), limit)
    {
      if |packet| > MAX_PACKET || limit <= HEADER_LEN { return Err(DatagramTooLarge); }
      hide Pieces, Encode, Fragment, Fragments;
      var id := nextId;
      nextId := Next64(nextId);
      var size := limit - HEADER_LEN;
      var wires: seq<Bytes> := [];
      var offset: nat := 0;
      PiecesBound(|packet|, size, 0);
      FragmentCount(packet, id, limit);
      assert wires == Fragments(packet, id, limit)[..0];
      while offset < |packet|
        invariant nextId == Next64(old(nextId)) && offset == |wires| * size && |wires| <= Pieces(|packet|, size)
        invariant wires == Fragments(packet, id, limit)[..|wires|]
        decreases |packet| - offset
      {
        var end := if |packet| < offset + size then |packet| else offset + size;
        PiecesBound(|packet|, size, |wires|);
        FragmentAt(packet, id, limit, |wires|);
        assert (|wires| + 1) * size == |wires| * size + size;
        ghost var i := |wires|;
        wires := wires + [Encode(id, |packet|, offset, packet[offset..end])];
        assert wires == Fragments(packet, id, limit)[..i] + [Fragments(packet, id, limit)[i]];
        offset := offset + size;
      }
      PiecesBound(|packet|, size, |wires|);
      r := Ok(wires);
    }

    /** `handle_inner_fragment`: open the entry if there is room, store byte by byte, and hand the
        packet over when every byte is there. */
    method HandleInnerFragment(now: Instant, payload: Bytes)
      requires Inv(Table())
      modifies this`entries, this`bytes, this`events
      ensures Inv(Table())
      ensures Table() == HandleFragment(old(Table()), now, payload).0
      ensures events == old(events) + HandleFragment(old(Table()), now, payload).1
    {
      hide Inv, Be64, WordAt, Store;
      HandleFragmentKeeps(Table(), now, payload);
      assert events + [] == events;
      if |payload| < HEADER_LEN { return; }
      var id := Be64(payload[..8]);
      var total := WordAt(payload, 8);
      var offset := WordAt(payload, 10);
      var fragment := payload[12..];
      if total == 0 || offset >= total || offset + |fragment| > total { return; }
      ghost var before := Table();
      if id !in entries {
        if |entries| >= MAX_ENTRIES || bytes + total > MAX_BYTES { return; }
        entries := entries[id := Blank(now, total)];
        bytes := bytes + total;
      }
      OpenKeeps(before, now, id, total);
      EntryShape(Table(), id);
      if |entries[id].packet| != total { return; }
      StoreFragment(id, total, offset, fragment);
    }

    /** The rest of `handle_inner_fragment`: store, and hand a complete packet over. */
    method StoreFragment(id: U64, total: nat, offset: nat, fragment: Bytes)
      requires Inv(Table()) && id in entries && |entries[id].packet| == |entries[id].received| == total
          && offset + |fragment| <= total
      modifies this`entries, this`bytes, this`events
      ensures Table() == Store(old(Table()), id, total, offset, fragment).0
      ensures events == old(events) + Store(old(Table()), id, total, offset, fragment).1
    {
      hide Inv, Fill;
      var e := StoreBytes(entries[id], offset, fragment);
      if e.count == total {
        EnoughBytes(Table(), id);
        entries := entries - {id};
        bytes := bytes - total;
        events := events + [e.packet];
      } else {
        entries := entries[id := e];
        assert events + [] == events;
      }
    }

    static method StoreBytes(start: Entry, offset: nat, fragment: Bytes) returns (e: Entry)
      requires |start.packet| == |start.received| && offset + |fragment| <= |start.packet|
      ensures e == Fill(start, offset, fragment)
    {
      e := start;
      var index := 0;
      while index < |fragment|
        invariant 0 <= index <= |fragment| && |e.packet| == |e.received| == |start.packet|
        invariant e == Fill(start, offset, fragment[..index])
      {
        assert fragment[..index + 1][..index] == fragment[..index];
        e := Put(e, offset + index, fragment[index]);
        index := index + 1;
      }
      assert fragment[..index] == fragment;
    }

    /** `prune_reassembly`: drop what has timed out and add up what is left. */
    method PruneReassembly(now: Instant)
      modifies this`entries, this`bytes
      ensures Table() == Prune(old(Table()), now)
    {
      entries := map id | id in entries && Young(entries[id], now) :: entries[id];
      assert entries == Kept(old(entries), now);
      var left := entries;
      bytes := 0;
      while left != map[]
        invariant left.Keys <= entries.Keys && forall id :: id in left ==> left[id] == entries[id]
        invariant bytes + Total(left) == Total(entries) && entries == Kept(old(entries), now)
        decreases |left|
      {
        var id :| id in left;
        TotalAt(left, id);
        Shrinks(left, id);
        bytes := bytes + |left[id].packet|;
        left := left - {id};
      }
    }
  }

  lemma FragmentCount(packet: Bytes, id: U64, limit: nat)
    requires limit > HEADER_LEN && |packet| <= MAX_PACKET
    ensures |Fragments(packet, id, limit)| == Pieces(|packet|, limit - HEADER_LEN)
  {
    hide Pieces, Fragment;
  }

  lemma {:induction false} FragmentAt(packet: Bytes, id: U64, limit: nat, i: nat)
    requires limit > HEADER_LEN && |packet| <= MAX_PACKET && i < Pieces(|packet|, limit - HEADER_LEN)
    ensures var size := limit - HEADER_LEN; var offset := i * size; var end := if |packet| < offset + size then |packet|
        else offset + size;
      && offset < |packet|
      && Fragments(packet, id, limit)[i] == Encode(id, |packet|, offset, packet[offset..end])
  {
    hide Pieces, Encode;
    var size := limit - HEADER_LEN;
    PiecesBound(|packet|, size, i);
    assert (i + 1) * size == i * size + size;
  }

  lemma EntryShape(s: State, id: U64)
    requires Inv(s) && id in s.entries
    ensures |s.entries[id].packet| == |s.entries[id].received|
  {
    assert EntryInv(s.entries[id]);
  }

  lemma EnoughBytes(s: State, id: U64)
    requires Inv(s) && id in s.entries
    ensures s.bytes >= |s.entries[id].packet|
  {
    TotalAt(s.entries, id);
  }
}
