/** The bounded history of completed DNS return tuples: a map from tuple to sequence number and
    its inverse, evicted oldest first. */
module History {
  import opened Core
  import opened Sets
  import opened Packet

  const CAPACITY: nat := 65536

  datatype Log = Log(completed: map<FlowKey, U64>, order: map<U64, FlowKey>, next: U64)

  const EMPTY := Log(map[], map[], 1)

  /** The two maps are inverse to each other and every sequence number has been handed out. */
  ghost predicate Inverse(h: Log) {
    && (forall f :: f in h.completed ==> h.completed[f] in h.order && h.order[h.completed[f]] == f)
    && (forall q :: q in h.order ==> h.order[q] in h.completed && h.completed[h.order[q]] == q && q < h.next)
    && |h.completed| == |h.order|
  }

  lemma MapInsertSize<K, V>(m: map<K, V>, k: K, v: V)
    ensures |m[k := v]| == if k in m then |m| else |m| + 1
  {
    assert m[k := v].Keys == m.Keys + {k};
  }

  lemma MapRemoveSize<K, V>(m: map<K, V>, k: K)
    ensures |m - {k}| == if k in m then |m| - 1 else |m|
  {
    assert (m - {k}).Keys == m.Keys - {k};
  }

  /** `forget_completed_dns_reverse`. */
  function Forget(h: Log, f: FlowKey): (r: Log) {
    if f in h.completed then Log(h.completed - {f}, h.order - {h.completed[f]}, h.next) else h
  }

  /** The insertion of `remember_completed_dns_reverse`, before eviction. */
  function Record(h: Log, f: FlowKey): (r: Log) {
    Log(h.completed[f := h.next],
        (if f in h.completed then h.order - {h.completed[f]} else h.order)[h.next := f],
        Next64(h.next))
  }

  lemma {:induction false} ForgetKeeps(h: Log, f: FlowKey)
    requires Inverse(h)
    ensures Inverse(Forget(h, f)) && f !in Forget(h, f).completed
    ensures Forget(h, f).completed == h.completed - {f} && |Forget(h, f).completed| <= |h.completed|
  {
    MapRemoveSize(h.completed, f);
    if f in h.completed {
      MapRemoveSize(h.order, h.completed[f]);
    } else {
      assert h.completed - {f} == h.completed;
    }
  }

  lemma {:induction false} InsertKeeps(g: Log, f: FlowKey)
    requires Inverse(g) && f !in g.completed && g.next < 0xFFFF_FFFF_FFFF_FFFF
    ensures Inverse(Log(g.completed[f := g.next], g.order[g.next := f], g.next + 1))
    ensures |g.completed[f := g.next]| == |g.completed| + 1
  {
    MapInsertSize(g.completed, f, g.next);
    MapInsertSize(g.order, g.next, f);
  }

  lemma RecordIsForgetInsert(h: Log, f: FlowKey)
    requires h.next < 0xFFFF_FFFF_FFFF_FFFF
    ensures var g := Forget(h, f); Record(h, f) == Log(g.completed[f := g.next], g.order[g.next := f], g.next + 1)
  {
    assert h.completed[f := h.next] == (h.completed - {f})[f := h.next];
  }

  lemma NewestIs(h: Log, q: U64, f: FlowKey)
    requires Inverse(h) && h.next == q + 1 && q in h.order && h.order[q] == f
    ensures f in h.completed && h.completed[f] == q && forall p :: p in h.order ==> p <= q
  {
  }

  /** Recording a tuple makes it the newest entry, once, keeps every other entry at its place and the
      maps inverse. */
  lemma {:induction false} RecordKeeps(h: Log, f: FlowKey)
    requires Inverse(h) && h.next < 0xFFFF_FFFF_FFFF_FFFF
    ensures var r := Record(h, f);
      && Inverse(r) && |r.completed| == |h.completed| + (if f in h.completed then 0 else 1)
      && f in r.completed && (forall q :: q in r.order ==> q <= r.completed[f])
      && (forall g :: g != f ==> (g in r.completed <==> g in h.completed))
      && (forall g :: g != f && g in h.completed ==> r.completed[g] == h.completed[g])
  {
    ForgetKeeps(h, f);
    InsertKeeps(Forget(h, f), f);
    RecordIsForgetInsert(h, f);
    MapRemoveSize(h.completed, f);
    NewestIs(Record(h, f), h.next, f);
    hide Inverse, Record, Forget;
  }

  ghost predicate IsOldest(h: Log, q: U64) {
    q in h.order && forall p :: p in h.order ==> q <= p
  }

  /** Popping the oldest entry keeps the maps inverse. */
  lemma {:induction false} PopKeeps(h: Log, q: U64)
    requires Inverse(h) && q in h.order
    ensures Inverse(Log(h.completed - {h.order[q]}, h.order - {q}, h.next))
    ensures |h.completed - {h.order[q]}| == |h.completed| - 1
  {
    MapRemoveSize(h.completed, h.order[q]);
    MapRemoveSize(h.order, q);
  }

  /** `r` is `h` without some of its oldest entries, and no smaller than it has to be. */
  ghost predicate Suffix(h: Log, r: Log) {
    && r.next == h.next
    && (forall q :: q in r.order ==> q in h.order && r.order[q] == h.order[q])
    && (forall p, q :: p in h.order && p !in r.order && q in r.order ==> p < q)
    && (r == h || |r.completed| >= CAPACITY)
  }

  /** What eviction leaves: a suffix of the sequence order within capacity. */
  ghost predicate Evicted(h: Log, r: Log) {
    Inverse(r) && Suffix(h, r) && |r.completed| <= CAPACITY
  }

  function Pop(h: Log, q: U64): (r: Log)
    requires q in h.order
  {
    var f := h.order[q];
    Log(if f in h.completed && h.completed[f] == q then h.completed - {f} else h.completed, h.order - {q}, h.next)
  }

  /** Popping the oldest entry keeps the maps inverse and leaves a suffix. */
  lemma {:induction false} PopOldest(h: Log, r: Log, q: U64)
    requires Inverse(r) && Suffix(h, r) && IsOldest(r, q) && |r.completed| > CAPACITY
    ensures Inverse(Pop(r, q)) && Suffix(h, Pop(r, q)) && |Pop(r, q).order| < |r.order|
  {
    PopKeeps(r, q);
    MapRemoveSize(r.order, q);
  }

  /** The eviction loop of `remember_completed_dns_reverse`. It terminates because the order map
      is as large as the history, so there is always an oldest entry to pop. */
  method Evict(h: Log) returns (r: Log)
    requires Inverse(h)
    ensures Evicted(h, r)
  {
    hide Inverse, Suffix, Pop;
    InverseSizes(h);
    r := h;
    while |r.completed| > CAPACITY
      invariant Inverse(r) && Suffix(h, r)
      decreases |r.order|
    {
      InverseSizes(r);
      assert |r.order.Keys| > 0;
      ghost var least := Least(r.order.Keys);
      var oldest :| oldest in r.order.Keys && forall p :: p in r.order.Keys ==> oldest <= p;
      PopOldest(h, r, oldest);
      r := Pop(r, oldest);
    }
  }

  lemma InverseSizes(h: Log)
    requires Inverse(h)
    ensures |h.completed| == |h.order| && Suffix(h, h)
  {
  }

  /** `remember_completed_dns_reverse`. */
  method Remember(h: Log, f: FlowKey) returns (r: Log)
    requires Inverse(h) && h.next < 0xFFFF_FFFF_FFFF_FFFF
    ensures Evicted(Record(h, f), r)
    ensures f in r.completed && (forall g :: g in r.completed ==> g == f || g in h.completed)
  {
    RecordKeeps(h, f);
    r := Evict(Record(h, f));
    RememberedIsKept(Record(h, f), r, f);
    forall g | g in r.completed ensures g == f || g in h.completed {
      assert r.order[r.completed[g]] == g;
      assert r.completed[g] in Record(h, f).order;
    }
  }

  /** The newest entry survives eviction. */
  lemma {:induction false} RememberedIsKept(h: Log, r: Log, f: FlowKey)
    requires Inverse(h) && Evicted(h, r) && f in h.completed
    requires forall q :: q in h.order ==> q <= h.completed[f]
    ensures f in r.completed
  {
    var last := h.completed[f];
    if r != h {
      assert |r.order| >= CAPACITY;
      assert r.order.Keys != {};
      var q :| q in r.order.Keys;
      assert q <= last;
    }
  }
}
