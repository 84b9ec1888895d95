/** Coalesced wake-ups between flow workers and one IO loop: producers send a transmit request and
    then call `notify`; the loop receives until the channel is empty, polls, drains the eventfd and
    clears the pending flag. Each atomic access is one step and steps interleave freely. */
module Wakeup {
  import opened Core

  /** Largest value an eventfd counter can hold. */
  const EVENTFD_MAX: nat := 0xFFFF_FFFF_FFFF_FFFE

  /** Where a producer stands in send-then-notify. */
  datatype Producer =
    | Idle
    | Sent      // request queued, `pending` not yet swapped
    | Writing   // won the swap, eventfd not yet written
    | Failing   // the write failed, `pending` not yet reset

  /** Where the IO loop stands. */
  datatype Loop =
    | Receiving // taking requests off the channel
    | SawEmpty  // the channel was empty
    | AtPoll    // blocked in, or about to enter, `poll`
    | Draining  // `poll` reported the eventfd readable
    | Drained   // eventfd read, `pending` not yet cleared
    | Stopped

  datatype State = State(producers: map<nat, Producer>, channel: seq<nat>, pending: bool, count: nat, loop: Loop)

  datatype Step =
    | Send(p: nat, request: nat)
    | SendFull(p: nat)
    | Swap(p: nat)
    | Write(p: nat)
    | WriteFails(p: nat)
    | Reset(p: nat)
    | Receive
    | ReceiveEmpty
    | Continue
    | EnterPoll
    | PollWakes
    | PollReturns
    | Drain
    | Clear
    | Stop

  predicate At(s: State, p: nat, pc: Producer) {
    p in s.producers && s.producers[p] == pc
  }

  predicate Enabled(s: State, step: Step, capacity: nat) {
    match step
    case Send(p, _) => At(s, p, Idle) && |s.channel| < capacity
    case SendFull(p) => At(s, p, Idle) && |s.channel| >= capacity
    case Swap(p) => At(s, p, Sent)
    case Write(p) => At(s, p, Writing)
    case WriteFails(p) => At(s, p, Writing)
    case Reset(p) => At(s, p, Failing)
    case Receive => s.loop == Receiving && |s.channel| > 0
    case ReceiveEmpty => s.loop == Receiving && |s.channel| == 0
    case Continue => s.loop == SawEmpty
    case EnterPoll => s.loop == SawEmpty
    case PollWakes => s.loop == AtPoll && s.count > 0
    case PollReturns => s.loop == AtPoll // time-out, interruption or a received frame
    case Drain => s.loop == Draining
    case Clear => s.loop == Drained
    case Stop => s.loop != Stopped // a failed poll or drain, or a disconnected channel
  }

  /** The effect of a step; an eventfd write that would overflow is dropped as would-block. */
  function Apply(s: State, step: Step): (r: State) {
    match step
    case Send(p, request) => s.(channel := s.channel + [request], producers := s.producers[p := Sent])
    case SendFull(_) => s
    case Swap(p) => s.(pending := true, producers := s.producers[p := if s.pending then Idle else Writing])
    case Write(p) => s.(count := if s.count < EVENTFD_MAX then s.count + 1
        else s.count, producers := s.producers[p := Idle])
    case WriteFails(p) => s.(producers := s.producers[p := Failing])
    case Reset(p) => s.(pending := false, producers := s.producers[p := Idle])
    case Receive => if |s.channel| > 0 then s.(channel := s.channel[1..]) else s
    case ReceiveEmpty => s.(loop := SawEmpty)
    case Continue => s.(loop := Receiving)
    case EnterPoll => s.(loop := AtPoll)
    case PollWakes => s.(loop := Draining)
    case PollReturns => s.(loop := Receiving)
    case Drain => s.(count := 0, loop := Drained)
    case Clear => s.(pending := false, loop := Receiving)
    case Stop => s.(loop := Stopped)
  }

  /** The producer has won the swap and not finished. */
  predicate IsWriter(s: State, p: nat) {
    At(s, p, Writing) || At(s, p, Failing)
  }

  ghost predicate HasWriter(s: State) {
    exists p :: IsWriter(s, p)
  }

  /** `pending` is set exactly when one of three things holds, and never two of them: a writer is in
      progress, the eventfd is readable, or the loop stands between drain and clear. A stopped loop
      never clears again. */
  ghost predicate OneSource(s: State) {
    && (forall p, q :: IsWriter(s, p) && IsWriter(s, q) ==> p == q)
    && s.count <= 1
    && (HasWriter(s) ==> s.count == 0 && s.loop != Drained)
    && (s.count == 1 ==> s.loop != Drained)
    && (s.loop != Stopped ==> (s.pending <==> HasWriter(s) || s.count == 1 || s.loop == Drained))
    && (s.loop == Stopped ==> HasWriter(s) || s.count == 1 ==> s.pending)
    && (s.loop == Draining ==> s.count == 1)
  }

  /** Some producer has queued a request and not finished `notify`. */
  ghost predicate Notifying(s: State) {
    exists p :: p in s.producers && s.producers[p] != Idle
  }

  /** No lost wake-up: while the loop is at or on its way to `poll` and a request waits, the eventfd
      is readable or some producer has not finished `notify`. */
  ghost predicate Safe(s: State) {
    s.loop in {SawEmpty, AtPoll} && |s.channel| > 0 ==> s.count > 0 || Notifying(s)
  }

  /** A step that strands a request: after a failed eventfd write the only notifying producer resets
      `pending` while the loop is at or on its way to `poll` and a request waits. */
  ghost predicate Strands(s: State, step: Step) {
    && step.Reset? && s.loop in {SawEmpty, AtPoll} && |s.channel| > 0
    && forall q :: q in s.producers && q != step.p ==> s.producers[q] == Idle
  }

  lemma {:induction false} SwapKeeps(s: State, p: nat)
    requires OneSource(s) && At(s, p, Sent)
    ensures OneSource(Apply(s, Swap(p)))
  {
    var n := Apply(s, Swap(p));
    if s.pending {
      forall q ensures IsWriter(n, q) == IsWriter(s, q) { }
    } else if s.loop != Stopped {
      assert IsWriter(n, p);
      forall q ensures IsWriter(n, q) <==> q == p { assert !IsWriter(s, q); }
    } else {
      assert IsWriter(n, p);
      forall q ensures IsWriter(n, q) <==> q == p { assert !IsWriter(s, q); }
    }
  }

  /** A step that leaves every producer's writer status alone. */
  lemma {:induction false} SameWriters(s: State, n: State)
    requires forall q :: IsWriter(n, q) == IsWriter(s, q)
    ensures HasWriter(n) == HasWriter(s)
  {
    if HasWriter(s) {
      var p :| IsWriter(s, p);
      assert IsWriter(n, p);
    }
    if HasWriter(n) {
      var p :| IsWriter(n, p);
      assert IsWriter(s, p);
    }
  }

  /** A writer's last step leaves none. */
  lemma {:induction false} WriterLeaves(s: State, p: nat, n: State)
    requires OneSource(s) && IsWriter(s, p) && n.producers == s.producers[p := Idle]
    ensures !HasWriter(n) && HasWriter(s)
  {
    forall q ensures !IsWriter(n, q) {
      if q != p { assert IsWriter(n, q) ==> IsWriter(s, q); }
    }
  }

  /** Every step keeps the source of `pending` unique. */
  lemma {:induction false} StepKeepsSource(s: State, step: Step, capacity: nat)
    requires OneSource(s) && Enabled(s, step, capacity)
    ensures OneSource(Apply(s, step))
  {
    var n := Apply(s, step);
    match step {
      case Swap(p) => SwapKeeps(s, p);
      case Write(p) => WriterLeaves(s, p, n);
      case Reset(p) => WriterLeaves(s, p, n);
      case WriteFails(p) =>
        forall q ensures IsWriter(n, q) == IsWriter(s, q) { }
        SameWriters(s, n);
      case _ =>
        forall q ensures IsWriter(n, q) == IsWriter(s, q) { }
        SameWriters(s, n);
    }
  }

  /** Losing the swap means somebody else is the source of the wake-up. */
  lemma {:induction false} LostSwap(s: State, p: nat)
    requires OneSource(s) && At(s, p, Sent) && s.pending && s.loop in {SawEmpty, AtPoll}
    ensures s.count > 0 || Notifying(Apply(s, Swap(p)))
  {
    if s.count == 0 {
      var q :| IsWriter(s, q);
      var n := Apply(s, Swap(p));
      assert q in n.producers && n.producers[q] != Idle;
    }
  }

  /** A step keeps wake-ups safe if and only if it is not a stranding step. */
  lemma {:induction false} StepSafeIff(s: State, step: Step, capacity: nat)
    requires OneSource(s) && Safe(s) && Enabled(s, step, capacity)
    ensures Safe(Apply(s, step)) <==> !Strands(s, step)
  {
    var n := Apply(s, step);
    match step {
      case Send(p, _) => assert n.producers[p] == Sent;
      case Swap(p) =>
        if s.pending && s.loop in {SawEmpty, AtPoll} { LostSwap(s, p); }
        if !s.pending { assert n.producers[p] == Writing; }
      case Write(p) => assert s.count == 0 by { assert IsWriter(s, p); }
      case WriteFails(p) => assert n.producers[p] == Failing;
      case Reset(p) => ResetSafeIff(s, p);
      case Receive => SameNotifying(s, n);
      case _ => SameNotifying(s, n);
    }
  }

  lemma SameNotifying(s: State, n: State)
    ensures n.producers == s.producers ==> Notifying(n) == Notifying(s)
  {
  }

  lemma {:induction false} ResetSafeIff(s: State, p: nat)
    requires OneSource(s) && At(s, p, Failing)
    ensures Safe(Apply(s, Reset(p))) <==> !Strands(s, Reset(p))
  {
    var n := Apply(s, Reset(p));
    assert IsWriter(s, p);
    if exists q :: q in s.producers && q != p && s.producers[q] != Idle {
      var q :| q in s.producers && q != p && s.producers[q] != Idle;
      assert n.producers[q] != Idle;
    }
  }

  // ---- Runs ----

  /** A run of the protocol from quiet producers and a loop that has just started. */
  ghost predicate IsRun(states: seq<State>, steps: seq<Step>, capacity: nat) {
    && |states| == |steps| + 1 && Starts(states[0])
    && forall i :: 0 <= i < |steps| ==>
        Enabled(states[i], steps[i], capacity) && states[i + 1] == Apply(states[i], steps[i])
  }

  ghost predicate Starts(s: State) {
    s.channel == [] && !s.pending && s.count == 0 && s.loop == Receiving && forall p :: p in s.producers ==>
        s.producers[p] == Idle
  }

  /** In every reachable state `pending` has exactly one source. */
  lemma {:induction false} RunSource(states: seq<State>, steps: seq<Step>, capacity: nat, i: nat)
    requires IsRun(states, steps, capacity) && i < |states|
    ensures OneSource(states[i])
  {
    hide OneSource, Apply, Enabled;
    if i == 0 {
      StartsOneSource(states[0]);
    } else {
      RunSource(states, steps, capacity, i - 1);
      StepKeepsSource(states[i - 1], steps[i - 1], capacity);
    }
  }

  lemma StartsOneSource(s: State)
    requires Starts(s)
    ensures OneSource(s) && Safe(s)
  {
    forall p ensures !IsWriter(s, p) { }
  }

  lemma {:induction false} SafeUpTo(states: seq<State>, steps: seq<Step>, capacity: nat, i: nat)
    requires IsRun(states, steps, capacity) && i < |states|
    requires forall j :: 0 <= j < i ==> !Strands(states[j], steps[j])
    ensures Safe(states[i])
  {
    hide OneSource, Apply, Enabled, Safe, Strands;
    if i == 0 {
      StartsOneSource(states[0]);
    } else {
      SafeUpTo(states, steps, capacity, i - 1);
      RunSource(states, steps, capacity, i - 1);
      StepSafeIff(states[i - 1], steps[i - 1], capacity);
    }
  }

  /** No wake-up is ever lost in a run if and only if no step of it strands a request. */
  lemma {:induction false} NoLostWakeupIff(states: seq<State>, steps: seq<Step>, capacity: nat)
    requires IsRun(states, steps, capacity)
    ensures (forall i :: 0 <= i < |states| ==> Safe(states[i])) <==> (forall i :: 0 <= i < |steps| ==>
        !Strands(states[i], steps[i]))
  {
    hide OneSource, Apply, Enabled, Safe, Strands;
    if forall i :: 0 <= i < |steps| ==> !Strands(states[i], steps[i]) {
      forall i | 0 <= i < |states| ensures Safe(states[i]) {
        SafeUpTo(states, steps, capacity, i);
      }
    }
    if forall i :: 0 <= i < |states| ==> Safe(states[i]) {
      forall i | 0 <= i < |steps| ensures !Strands(states[i], steps[i]) {
        RunSource(states, steps, capacity, i);
        assert Safe(states[i]) && Safe(states[i + 1]);
        StepSafeIff(states[i], steps[i], capacity);
      }
    }
  }

  /** In particular none is lost while every eventfd write succeeds. */
  lemma {:induction false} NoLostWakeup(states: seq<State>, steps: seq<Step>, capacity: nat)
    requires IsRun(states, steps, capacity) && forall i :: 0 <= i < |steps| ==> !steps[i].WriteFails?
    ensures forall i :: 0 <= i < |states| ==> Safe(states[i])
  {
    forall i | 0 <= i < |steps| ensures !Strands(states[i], steps[i]) {
      NobodyFails(states, steps, capacity, i);
    }
    NoLostWakeupIff(states, steps, capacity);
  }

  lemma {:induction false} NobodyFails(states: seq<State>, steps: seq<Step>, capacity: nat, i: nat)
    requires IsRun(states, steps, capacity) && i < |states| && forall j :: 0 <= j < |steps| ==> !steps[j].WriteFails?
    ensures forall p :: !At(states[i], p, Failing)
  {
    if i > 0 {
      NobodyFails(states, steps, capacity, i - 1);
      forall p ensures !At(states[i], p, Failing) {
        assert !At(states[i - 1], p, Failing) && Enabled(states[i - 1], steps[i - 1], capacity);
      }
    }
  }

  /** A waiting request with every producer finished wakes the loop: `poll` reports the eventfd, and
      after drain and clear the loop receives with the request still queued. */
  lemma {:induction false} WakesLoop(s: State, capacity: nat)
    requires OneSource(s) && Safe(s) && s.loop == AtPoll && |s.channel| > 0 && !Notifying(s)
    ensures Enabled(s, PollWakes, capacity)
    ensures var n := Apply(Apply(Apply(s, PollWakes), Drain), Clear);
      n.loop == Receiving && n.channel == s.channel && !n.pending && n.count == 0
  {
  }

  /** A run in which the loop polls, a producer sends and its eventfd write fails. */
  const STRANDING: seq<Step> := [ReceiveEmpty, EnterPoll, Send(0, 7), Swap(0), WriteFails(0), Reset(0)]

  ghost function StrandState(i: nat): State {
    match i
    case 0 => State(map[0 := Idle], [], false, 0, Receiving)
    case 1 => State(map[0 := Idle], [], false, 0, SawEmpty)
    case 2 => State(map[0 := Idle], [], false, 0, AtPoll)
    case 3 => State(map[0 := Sent], [7], false, 0, AtPoll)
    case 4 => State(map[0 := Writing], [7], true, 0, AtPoll)
    case 5 => State(map[0 := Failing], [7], true, 0, AtPoll)
    case _ => State(map[0 := Idle], [7], false, 0, AtPoll)
  }

  lemma StrandStep(i: nat)
    requires i < 6
    ensures Enabled(StrandState(i), STRANDING[i], 1) && StrandState(i + 1) == Apply(StrandState(i), STRANDING[i])
  {
  }

  /** One failed eventfd write, and nothing else amiss, can leave the loop blocked in `poll` with a
      request queued, the eventfd not readable, the pending flag clear and nobody notifying. */
  lemma {:induction false} FailedWriteStrands() returns (states: seq<State>)
    ensures IsRun(states, STRANDING, 1) && !Safe(states[|STRANDING|])
    ensures forall i :: 0 <= i < |STRANDING| ==> (STRANDING[i].WriteFails? <==> i == 4) && !STRANDING[i].Stop?
    ensures var s := states[|STRANDING|];
      s.loop == AtPoll && s.channel == [7] && s.count == 0 && !s.pending && !Notifying(s) && !Enabled(s, PollWakes, 1)
  {
    states := seq(7, i requires 0 <= i < 7 => StrandState(i));
    forall i | 0 <= i < 6
        ensures Enabled(states[i], STRANDING[i], 1) && states[i + 1] == Apply(states[i], STRANDING[i]) {
      StrandStep(i);
    }
  }
}
