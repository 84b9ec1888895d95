/** The division of the configured SNAT port range among the flow workers. */
module Ports {
  import opened Core
  import Nat

  /** First offset of worker `i` when `total` ports are dealt to `count` workers. */
  function Offset(total: nat, count: nat, i: nat): (r: nat)
    requires count > 0
  {
    i * (total / count) + (if i < total % count then i else total % count)
  }

  /** `worker_port_range`: the inclusive slice of worker `i`. */
  function WorkerPortRange(start: U16, end: U16, i: nat, count: nat): (r: Option<(U16, U16)>)
    requires count < 0x1_0000_0000
  {
    if count == 0 || i >= count || start > end then None
    else
      var total: nat := end - start + 1;
      if total < count then None
      else
        var length := total / count + (if i < total % count then 1 else 0);
        var lo := start + Offset(total, count, i);
        SliceFits(start, end, i, count);
        Some((lo, lo + length - 1))
  }

  lemma {:induction false} OffsetStep(total: nat, count: nat, i: nat)
    requires count > 0
    ensures Offset(total, count, i + 1) == Offset(total, count, i) + total / count + (if i < total % count then 1
        else 0)
  {
    assert (i + 1) * (total / count) == i * (total / count) + total / count;
  }

  lemma {:induction false} OffsetEnds(total: nat, count: nat)
    requires count > 0
    ensures Offset(total, count, 0) == 0 && Offset(total, count, count) == total
  {
    assert total == count * (total / count) + total % count;
  }

  lemma {:induction false} OffsetMonotone(total: nat, count: nat, i: nat, j: nat)
    requires count > 0 && i <= j
    ensures Offset(total, count, i) + (j - i) * (total / count) <= Offset(total, count, j)
    decreases j - i
  {
    hide Offset;
    if i < j {
      OffsetMonotone(total, count, i, j - 1);
      OffsetStep(total, count, j - 1);
      assert (j - i) * (total / count) == (j - 1 - i) * (total / count) + total / count;
    }
  }

  lemma {:induction false} Ordered(total: nat, count: nat, i: nat, j: nat)
    requires count > 0 && i <= j
    ensures Offset(total, count, i) <= Offset(total, count, j)
  {
    hide Offset;
    OffsetMonotone(total, count, i, j);
    Product(j - i, total / count);
  }

  lemma Product(a: nat, b: nat)
    ensures 0 <= a * b
  {
  }

  lemma {:induction false} SliceFits(start: U16, end: U16, i: nat, count: nat)
    requires i < count && start <= end && count <= end - start + 1
    ensures var total: nat := end - start + 1;
      && 1 <= total / count
      && Offset(total, count, i) + total / count + (if i < total % count then 1 else 0) <= total
  {
    hide Offset;
    var total: nat := end - start + 1;
    OffsetStep(total, count, i);
    Ordered(total, count, i + 1, count);
    OffsetEnds(total, count);
    QuotientPositive(total, count);
  }

  lemma QuotientPositive(total: nat, count: nat)
    requires 0 < count <= total
    ensures 1 <= total / count
  {
  }

  /** The worker whose slice holds the offset `x`. */
  lemma {:induction false} Locate(total: nat, count: nat, x: nat, below: nat) returns (i: nat)
    requires count > 0 && 0 < below <= count && x < Offset(total, count, below)
    ensures i < below && Offset(total, count, i) <= x < Offset(total, count, i + 1)
  {
    hide Offset;
    OffsetEnds(total, count);
    if below > 1 && x < Offset(total, count, below - 1) {
      i := Locate(total, count, x, below - 1);
    } else {
      i := below - 1;
    }
  }

  /** The ports of worker `i`; empty when it has no slice. */
  ghost function Slice(start: U16, end: U16, i: nat, count: nat): set<U16>
    requires count < 0x1_0000_0000
  {
    match WorkerPortRange(start, end, i, count)
    case None => {}
    case Some((lo, hi)) => Nat.PortRange(lo, hi)
  }

  lemma {:induction false} SliceBounds(start: U16, end: U16, i: nat, count: nat)
    requires i < count < 0x1_0000_0000 && start <= end && count <= end - start + 1
    ensures var total: nat := end - start + 1; var r := WorkerPortRange(start, end, i, count);
      && r.Some? && r.value.0 == start + Offset(total, count, i) && r.value.1 + 1 == start + Offset(total, count, i + 1)
      && start <= r.value.0 <= r.value.1 <= end
      && total / count <= r.value.1 - r.value.0 + 1 <= total / count + 1
  {
    hide Offset;
    var total: nat := end - start + 1;
    SliceFits(start, end, i, count);
    OffsetStep(total, count, i);
  }

  /** A slice exists exactly when there is a port for every worker. */
  lemma {:induction false} SliceExists(start: U16, end: U16, i: nat, count: nat)
    requires count < 0x1_0000_0000
    ensures WorkerPortRange(start, end, i, count).Some? <==> i < count && start <= end && count <= end - start + 1
  {
    if i < count && start <= end && count <= end - start + 1 {
      SliceBounds(start, end, i, count);
    }
  }

  /** The slices partition the configured range: disjoint, nothing left over, sizes at most one apart. */
  lemma {:induction false} SlicesPartition(start: U16, end: U16, count: nat)
    requires 0 < count < 0x1_0000_0000 && start <= end && count <= end - start + 1
    ensures forall i, j :: 0 <= i < j < count ==> Slice(start, end, i, count) !! Slice(start, end, j, count)
    ensures forall p :: p in Nat.PortRange(start, end) <==> exists i ::
        0 <= i < count && p in Slice(start, end, i, count)
    ensures forall i, j :: 0 <= i < count && 0 <= j < count ==>
      var a := WorkerPortRange(start, end, i, count); var b := WorkerPortRange(start, end, j, count);
      a.Some? && b.Some? && (a.value.1 - a.value.0) - (b.value.1 - b.value.0) <= 1
  {
    hide Offset, WorkerPortRange;
    var total: nat := end - start + 1;
    forall i, j | 0 <= i < j < count ensures Slice(start, end, i, count) !! Slice(start, end, j, count) {
      SliceBounds(start, end, i, count);
      SliceBounds(start, end, j, count);
      Ordered(total, count, i + 1, j);
    }
    forall p | p in Nat.PortRange(start, end) ensures exists i :: 0 <= i < count && p in Slice(start, end, i, count) {
      OffsetEnds(total, count);
      var i := Locate(total, count, p - start, count);
      SliceBounds(start, end, i, count);
      assert p in Slice(start, end, i, count);
    }
    forall i | 0 <= i < count ensures forall p :: p in Slice(start, end, i, count) ==> start <= p <= end {
      SliceBounds(start, end, i, count);
    }
    forall i, j | 0 <= i < count && 0 <= j < count
      ensures var a := WorkerPortRange(start, end, i, count); var b := WorkerPortRange(start, end, j, count);
        a.Some? && b.Some? && (a.value.1 - a.value.0) - (b.value.1 - b.value.0) <= 1
    {
      SliceBounds(start, end, i, count);
      SliceBounds(start, end, j, count);
    }
  }
}
