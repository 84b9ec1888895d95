/** The one's-complement checksum of section 1 of RFC 1071, as `checksum_add` and
    `checksum_finish` compute it over a 32-bit accumulator. */
module Checksum {
  import opened Core

  /** The plain sum of the big-endian words; an odd last byte is the high half of a word. */
  function Sum(s: Bytes): (r: nat) {
    if |s| == 0 then 0
    else if |s| == 1 then Be16(s[0], 0)
    else Be16(s[0], s[1]) + Sum(s[2..])
  }

  /** End-around carry, repeated until the sum fits 16 bits. */
  function Fold(sum: nat): (r: U16)
    ensures (r == 0) == (sum == 0)
    ensures exists k: nat :: sum == r + 65535 * k
  {
    if sum < 65536 then
      assert sum == sum + 65535 * 0;
      sum
    else
      var carried := sum % 65536 + sum / 65536;
      var r := Fold(carried);
      assert exists k: nat :: sum == r + 65535 * k by {
        var k: nat :| carried == r + 65535 * k;
        assert sum == r + 65535 * (k + sum / 65536);
      }
      r
  }

  function Finish(sum: nat): (r: U16) {
    65535 - Fold(sum)
  }

  function InternetChecksum(s: Bytes): (r: U16) {
    Finish(Sum(s))
  }

  /** A non-empty sum that is a multiple of 65535 is what a receiver accepts. */
  ghost predicate Verifies(sum: nat) {
    sum > 0 && exists k: nat :: sum == 65535 * k
  }

  /** The value a receiver compares against zero is zero exactly on accepted sums. */
  lemma {:induction false} FinishZero(sum: nat)
    ensures Finish(sum) == 0 <==> Verifies(sum)
  {
    var r := Fold(sum);
    var k: nat :| sum == r + 65535 * k;
    if r == 65535 {
      assert sum == 65535 * (k + 1);
    }
    if Verifies(sum) {
      var j: nat :| sum == 65535 * j;
      assert r == 65535 * (j - k);
    }
  }

  /** Writing the computed checksum into a zeroed field makes the sum acceptable;
      so does writing the all-ones word in place of a computed zero. */
  lemma {:induction false} ComputedVerifies(rest: nat)
    ensures Verifies(rest + Finish(rest))
    ensures Finish(rest) == 0 ==> Verifies(rest + 65535)
  {
    var r := Fold(rest);
    var k: nat :| rest == r + 65535 * k;
    assert rest + Finish(rest) == 65535 * (k + 1);
    assert Finish(rest) == 0 ==> rest + 65535 == 65535 * (k + 2);
  }

  /** An acceptable field value is the computed one, up to the two forms of zero:
      the computed one is 65535 only when everything else is zero. */
  lemma {:induction false} AcceptedIsComputed(rest: nat, field: U16)
    requires Verifies(rest + field)
    ensures Finish(rest) == if field == 65535 && rest > 0 then 0 else field
  {
    var r := Fold(rest);
    var k: nat :| rest == r + 65535 * k;
    var j: nat :| rest + field == 65535 * j;
    assert r + field == 65535 * (j - k);
  }

  lemma {:induction false} SumAppend(a: Bytes, b: Bytes)
    requires |a| % 2 == 0
    ensures Sum(a + b) == Sum(a) + Sum(b)
  {
    if |a| == 0 {
      assert a + b == b;
    } else {
      assert (a + b)[2..] == a[2..] + b;
      SumAppend(a[2..], b);
    }
  }

  /** The sum of a string splits around an aligned word. */
  lemma {:induction false} SumAround(s: Bytes, at: nat)
    requires at % 2 == 0 && at + 2 <= |s|
    ensures Sum(s) == Sum(s[..at]) + WordAt(s, at) + Sum(s[at + 2..])
  {
    assert s == s[..at] + s[at..];
    SumAppend(s[..at], s[at..]);
    assert s[at..][2..] == s[at + 2..];
  }

  /** Replacing an aligned word changes the sum by the difference of the words. */
  lemma {:induction false} SumReplaceWord(s: Bytes, t: Bytes, at: nat)
    requires |s| == |t| && at % 2 == 0 && at + 2 <= |s|
    requires forall i :: 0 <= i < |s| && i != at && i != at + 1 ==> s[i] == t[i]
    ensures Sum(s) - WordAt(s, at) == Sum(t) - WordAt(t, at)
  {
    SumAround(s, at);
    SumAround(t, at);
    assert s[..at] == t[..at];
    assert s[at + 2..] == t[at + 2..];
  }

  lemma {:induction false} SumBound(s: Bytes)
    ensures Sum(s) <= 65535 * ((|s| + 1) / 2)
  {
    if |s| >= 2 {
      SumBound(s[2..]);
    }
  }

  /** One step of the accumulating loop, and the bound that keeps it inside 32 bits. */
  lemma {:induction false} SumExtend(s: Bytes, at: nat)
    requires at % 2 == 0 && at + 2 <= |s|
    ensures Sum(s[..at + 2]) == Sum(s[..at]) + WordAt(s, at)
    ensures Sum(s[..at + 2]) <= 65535 * ((|s| + 1) / 2)
  {
    SumAround(s[..at + 2], at);
    assert s[..at + 2][..at] == s[..at];
    SumBound(s[..at + 2]);
  }

  lemma SumNone(s: Bytes)
    ensures Sum(s[..0]) == 0
  {
  }

  lemma {:induction false} SumLastByte(s: Bytes)
    requires |s| % 2 == 1
    ensures Sum(s) == Sum(s[..|s| - 1]) + Be16(s[|s| - 1], 0)
  {
    assert s == s[..|s| - 1] + s[|s| - 1..];
    SumAppend(s[..|s| - 1], s[|s| - 1..]);
  }

  /** `checksum_add` over a sub-slice of the packet: the 32-bit accumulator takes the
      plain sum as long as the worst case fits. */
  method ChecksumAdd(sum: U32, packet: array<Byte>, from: nat, to: nat) returns (r: U32)
    requires from <= to <= packet.Length
    requires sum + 65535 * ((to - from + 1) / 2) < 0x1_0000_0000
    ensures r == sum + Sum(packet[from..to])
  {
    hide Sum, Be16;
    ghost var s := packet[from..to];
    ghost var room := 65535 * ((to - from + 1) / 2);
    r := sum;
    var at := 0;
    SumNone(s);
    while at + 2 <= to - from
      invariant 0 <= at <= to - from == |s| && at % 2 == 0
      invariant r == sum + Sum(s[..at])
    {
      SumExtend(s, at);
      assert WordAt(s, at) == Be16(packet[from + at], packet[from + at + 1]);
      assert Sum(s[..at + 2]) <= room;
      r := r + Be16(packet[from + at], packet[from + at + 1]);
      at := at + 2;
    }
    if at < to - from {
      assert at == |s| - 1;
      SumBound(s);
      SumLastByte(s);
      assert Sum(s) == Sum(s[..at]) + Be16(packet[from + at], 0) <= room;
      r := r + Be16(packet[from + at], 0);
    } else {
      assert s[..at] == s;
    }
  }

  /** `checksum_finish`: the carry loop. */
  method ChecksumFinish(sum: U32) returns (r: U16)
    ensures r == Finish(sum)
  {
    var s := sum;
    while s >= 65536
      invariant 0 <= s < 0x1_0000_0000
      invariant Fold(s) == Fold(sum)
    {
      s := s % 65536 + s / 65536;
    }
    r := 65535 - s;
  }
}
