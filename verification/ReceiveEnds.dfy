/** What a receive call returns at the end of the stream, and which bytes an error takes away. */
module ReceiveEnds {
  import opened Octets
  import opened ReceiveRing

  /** The int that tcp_receive returns. */
  function Returned(r: Result): int {
    match r
    case Failed => -1
    case EndOfFile => 0
    case Bytes(data) => |data|
  }

  predicate Returns(s: Socket, r: Result)
    requires Ring(s.buf, s.head, s.tail)
  {
    !s.pc.Idle? && Advance(s).pc.Idle? && Advance(s).results == s.results + [r]
  }

  /** 0 is returned exactly at the end of the stream and for a call for no bytes, -1 exactly for an error. */
  lemma ReturnedExactly(s: Socket, r: Result)
    requires Inv(s) && Returns(s, r)
    ensures Returned(r) == 0 <==> r.EndOfFile? || (r.Bytes? && s.pc.len == 0)
    ensures Returned(r) == -1 <==> s.pc.CheckState? && s.state.Error?
    ensures r.EndOfFile? ==> s.eof && s.accepted[..s.acceptedAtClose] <= Delivered(s.results)
    ensures Returned(r) > 0 ==> |Delivered(Advance(s).results)| == |Delivered(s.results)| + Returned(r)
  {
    assert (s.results + [r])[|s.results|] == r;
    if r.EndOfFile? {
      EndOfFileIsLast(s);
    }
    DeliveredStep(s.results, r);
    hide Slot, Used, Contents, Delivered;
  }

  // ----- what can still be delivered -----

  /** No more than this is ever delivered once there is an error: only a call past its test of the state goes on. */
  function Ceiling(s: Socket): nat {
    |Delivered(s.results)| + match s.pc
                             case ReadAvail(len) => len
                             case CheckEof(len, avail) => Min(len, avail)
                             case Copying(_, toCopy, _) => toCopy
                             case _ => 0
  }

  lemma ErrorStays(s: Socket, a: Action)
    requires Inv(s) && s.state.Error?
    ensures Inv(Do(s, a)) && Do(s, a).state.Error? && Ceiling(Do(s, a)) <= Ceiling(s)
    ensures !s.pc.ReadAvail? ==> Ceiling(Do(s, a)) == Ceiling(s) && !Do(s, a).pc.ReadAvail?
  {
    hide Inv, Slot, Used, Contents, Delivered, Filled, Advance;
    RingOf(s);
    StepKeepsInv(s, a);
    if a.Continue? {
      ErrorAdvances(s);
    }
  }

  lemma RingOf(s: Socket)
    requires Inv(s)
    ensures Ring(s.buf, s.head, s.tail)
  {
  }

  lemma ErrorAdvances(s: Socket)
    requires Ring(s.buf, s.head, s.tail) && Inv(s) && s.state.Error?
    ensures Advance(s).state.Error? && Ceiling(Advance(s)) <= Ceiling(s)
    ensures !s.pc.ReadAvail? ==> Ceiling(Advance(s)) == Ceiling(s) && !Advance(s).pc.ReadAvail?
  {
    hide Slot, Used, Contents, Delivered;
    DeliveredStep(s.results, Failed);
    DeliveredStep(s.results, EndOfFile);
    if s.pc.Copying? {
      DeliveredStep(s.results, Bytes(s.pc.data));
    }
  }

  lemma {:induction false} NoMoreThanCeiling(s: Socket, actions: seq<Action>)
    requires Inv(s) && s.state.Error?
    ensures var t := Run(s, actions);
            t.state.Error? && |Delivered(t.results)| <= Ceiling(t) <= Ceiling(s) && (!s.pc.ReadAvail? ==> Ceiling(t) == Ceiling(s))
    decreases |actions|
  {
    hide PcOk, Do, Ceiling, Delivered, Contents;
    if actions == [] {
      AtMostCeiling(s);
    } else {
      ErrorStays(s, actions[0]);
      NoMoreThanCeiling(Do(s, actions[0]), actions[1..]);
    }
  }

  lemma AtMostCeiling(s: Socket)
    ensures |Delivered(s.results)| <= Ceiling(s)
  {
  }

  /** An error has been signalled, and no call is past its test of the state. */
  predicate Stuck(s: Socket) {
    s.state.Error? && !s.pc.ReadAvail? && !s.pc.CheckEof? && !s.pc.Copying?
  }

  predicate OnlyFailures(a: seq<Result>, b: seq<Result>) {
    a <= b && forall k | |a| <= k < |b| :: b[k] == Failed
  }

  /**
   Then nothing is delivered any more, whatever arrives and however often receive is
   called: every call returns -1, and what is buffered stays buffered.
   */
  lemma NothingAfterError(s: Socket, actions: seq<Action>)
    requires Inv(s) && Stuck(s)
    ensures var t := Run(s, actions);
            && Delivered(t.results) == Delivered(s.results) && OnlyFailures(s.results, t.results)
            && Contents(s.buf, s.head, s.tail) <= Contents(t.buf, t.head, t.tail)
  {
    StuckStays(s, actions);
    FailuresDeliverNothing(s.results, Run(s, actions).results);
  }

  lemma {:induction false} StuckStays(s: Socket, actions: seq<Action>)
    requires Inv(s) && Stuck(s)
    ensures var t := Run(s, actions);
            Stuck(t) && OnlyFailures(s.results, t.results) && Contents(s.buf, s.head, s.tail) <= Contents(t.buf, t.head, t.tail)
    decreases |actions|
  {
    hide PcOk, Delivered, Do, Contents, Stuck;
    if actions != [] {
      StuckStep(s, actions[0]);
      StuckStays(Do(s, actions[0]), actions[1..]);
    }
  }

  lemma StuckStep(s: Socket, a: Action)
    requires Inv(s) && Stuck(s)
    ensures var t := Do(s, a);
            && Inv(t) && Stuck(t) && OnlyFailures(s.results, t.results)
            && Contents(s.buf, s.head, s.tail) <= Contents(t.buf, t.head, t.tail)
  {
    hide PcOk, Conserved, Slot, Used, Contents, Delivered, Filled, Accept;
    RingOf(s);
    StepKeepsInv(s, a);
    if a.Segment? {
      AcceptAppends(s, a.bytes);
      AcceptKeeps(s, a.bytes);
    }
  }

  lemma AcceptKeeps(s: Socket, bytes: seq<Byte>)
    requires Ring(s.buf, s.head, s.tail)
    ensures var t := Accept(s, bytes); t.pc == s.pc && t.state == s.state && t.results == s.results
  {
  }

  lemma {:induction false} FailuresDeliverNothing(a: seq<Result>, b: seq<Result>)
    requires OnlyFailures(a, b)
    ensures Delivered(b) == Delivered(a)
    decreases |b|
  {
    if |a| < |b| {
      FailuresDeliverNothing(a, b[..|b| - 1]);
    } else {
      assert a == b;
    }
  }

  // ----- what is buffered is delivered otherwise -----

  /** The callback does not run. */
  predicate OnlyCalls(actions: seq<Action>) {
    forall a | a in actions :: a.Continue? || a.Call?
  }

  /** Running on from where a run has come to. */
  lemma {:induction false} RunOn(s: Socket, a: seq<Action>, b: seq<Action>)
    requires Inv(s)
    ensures Run(s, a + b) == Run(Run(s, a), b)
    decreases |a|
  {
    hide PcOk, Conserved, Do;
    RingOf(s);
    if a == [] {
      assert a + b == b;
    } else {
      StepKeepsInv(s, a[0]);
      RunOn(Do(s, a[0]), a[1..], b);
      assert (a + b)[1..] == a[1..] + b;
    }
  }

  lemma OneStep(s: Socket)
    requires Inv(s)
    ensures Inv(Advance(s)) && Run(s, [Continue]) == Advance(s)
  {
    StepKeepsInv(s, Continue);
    var t := Do(s, Continue);
    assert Run(t, [Continue][1..]) == t;
  }

  /** Accesses left until a call returns, once it is past its test of the state. */
  function StepsLeft(pc: Pc): nat {
    match pc
    case ReadAvail(_) => SIZE + 2
    case CheckEof(_, _) => SIZE + 1
    case Copying(_, toCopy, data) => if |data| <= toCopy <= SIZE then toCopy - |data| else 0
    case _ => 0
  }

  lemma Finishes(s: Socket) returns (actions: seq<Action>)
    requires Inv(s) && (s.pc.ReadAvail? || s.pc.CheckEof? || s.pc.Copying?)
    ensures var t := Run(s, actions);
            && t.pc.Idle? && t.state == s.state && t.accepted == s.accepted
            && (Ceiling(s) <= |s.accepted| ==> |Delivered(t.results)| == Ceiling(s))
            && (Ceiling(s) > |s.accepted| ==> Delivered(t.results) == s.accepted)
    ensures OnlyCalls(actions)
    decreases StepsLeft(s.pc)
  {
    hide Slot, Delivered;
    OneStep(s);
    var u := Advance(s);
    AdvanceFinishes(s);
    if u.pc.Idle? {
      actions := [Continue];
    } else {
      var rest := Finishes(u);
      RunOn(s, [Continue], rest);
      actions := [Continue] + rest;
    }
  }

  /** One access past the test of the state. */
  lemma AdvanceFinishes(s: Socket)
    requires Inv(s) && Inv(Advance(s)) && (s.pc.ReadAvail? || s.pc.CheckEof? || s.pc.Copying?)
    ensures var u := Advance(s);
            && u.state == s.state && u.accepted == s.accepted
            && (if u.pc.Idle? then |Delivered(u.results)| == Ceiling(s) && Ceiling(s) <= |s.accepted|
                else (u.pc.CheckEof? || u.pc.Copying?) && StepsLeft(u.pc) < StepsLeft(s.pc)
                     && (Ceiling(s) <= |s.accepted| ==> Ceiling(u) == Ceiling(s))
                     && (Ceiling(s) > |s.accepted| ==> Ceiling(u) == |s.accepted|))
  {
    DeliveredStep(s.results, EndOfFile);
    if s.pc.Copying? {
      DeliveredStep(s.results, Bytes(s.pc.data));
    }
    assert |s.accepted| == |Delivered(s.results)| + Used(s.head, s.tail);
    hide Slot, Delivered, Used, Contents;
  }

  /** Accesses left until a call with something to read is past its test of the state. */
  function WaitLeft(pc: Pc): nat {
    match pc
    case WaitEof(_) => 4
    case WaitState(_) => 3
    case WaitUsed(_) => 2
    case CheckState(_) => 1
    case _ => 0
  }

  lemma StopsWaiting(s: Socket) returns (actions: seq<Action>)
    requires Inv(s) && s.state.Connected? && Used(s.head, s.tail) > 0 && WaitLeft(s.pc) > 0
    ensures var t := Run(s, actions);
            t.pc == ReadAvail(s.pc.len) && t.state == s.state && t.accepted == s.accepted && t.results == s.results
    ensures OnlyCalls(actions)
    decreases WaitLeft(s.pc)
  {
    hide PcOk, Used, Slot, Delivered, Contents;
    OneStep(s);
    var u := Advance(s);
    if u.pc.ReadAvail? {
      actions := [Continue];
    } else {
      var rest := StopsWaiting(u);
      RunOn(s, [Continue], rest);
      actions := [Continue] + rest;
    }
  }

  /** Without an error a call that has something to read runs to its end. */
  lemma CallEnds(s: Socket) returns (actions: seq<Action>)
    requires Inv(s) && s.state.Connected? && Used(s.head, s.tail) > 0
    ensures var t := Run(s, actions); t.pc.Idle? && t.state.Connected? && t.accepted == s.accepted
    ensures WaitLeft(s.pc) > 0 && s.pc.len >= SIZE ==> Delivered(Run(s, actions).results) == s.accepted
    ensures OnlyCalls(actions)
  {
    hide PcOk, Slot, Delivered, Contents, Do, Advance, Used;
    if s.pc.Idle? {
      actions := [];
    } else if WaitLeft(s.pc) > 0 {
      var wait := StopsWaiting(s);
      var t := Run(s, wait);
      var rest := Finishes(t);
      RunOn(s, wait, rest);
      AcceptedIs(t);
      actions := wait + rest;
    } else {
      actions := Finishes(s);
    }
  }

  lemma AcceptedIs(s: Socket)
    requires Inv(s)
    ensures |s.accepted| == |Delivered(s.results)| + Used(s.head, s.tail) < |Delivered(s.results)| + SIZE
    ensures Used(s.head, s.tail) == 0 ==> Delivered(s.results) == s.accepted
  {
    hide PcOk, Delivered, Slot;
  }

  lemma DeliversAll(s: Socket) returns (actions: seq<Action>)
    requires Inv(s) && s.state.Connected?
    ensures Delivered(Run(s, actions).results) == s.accepted && OnlyCalls(actions)
  {
    hide PcOk, Slot, Delivered, Contents, Advance, Used;
    AcceptedIs(s);
    if Used(s.head, s.tail) == 0 {
      actions := [];
    } else {
      var first := CallEnds(s);
      var t := Run(s, first);
      AcceptedIs(t);
      if Used(t.head, t.tail) == 0 {
        actions := first;
      } else {
        StepKeepsInv(t, Call(SIZE));
        var u := Do(t, Call(SIZE));
        var second := CallEnds(u);
        RunOn(t, [Call(SIZE)], second);
        OneAction(t, Call(SIZE));
        RunOn(s, first, [Call(SIZE)] + second);
        actions := first + ([Call(SIZE)] + second);
      }
    }
  }

  lemma OneAction(s: Socket, a: Action)
    requires Inv(s)
    ensures Inv(Do(s, a)) && Run(s, [a]) == Do(s, a)
  {
    StepKeepsInv(s, a);
    var t := Do(s, a);
    assert Run(t, [a][1..]) == t;
  }

  /**
   Exactly which of the bytes taken are lost: the first n can still be delivered if and only
   if there is no error, or they are delivered already or asked for by the call that is
   past its test of the state.
   */
  lemma LostExactly(s: Socket, n: nat)
    requires Inv(s) && n <= |s.accepted|
    ensures (exists actions: seq<Action> :: n <= |Delivered(Run(s, actions).results)|) <==> s.state.Connected? || n <= Ceiling(s)
  {
    hide Inv, Delivered, Run, Ceiling;
    if s.state.Connected? {
      var actions := DeliversAll(s);
      assert n <= |Delivered(Run(s, actions).results)|;
    } else {
      if n <= Ceiling(s) {
        var actions := UpToCeiling(s);
        assert n <= |Delivered(Run(s, actions).results)|;
      }
      forall actions: seq<Action> ensures |Delivered(Run(s, actions).results)| <= Ceiling(s) {
        NoMoreThanCeiling(s, actions);
      }
    }
  }

  lemma UpToCeiling(s: Socket) returns (actions: seq<Action>)
    requires Inv(s)
    ensures var d := |Delivered(Run(s, actions).results)|; d >= Ceiling(s) || d >= |s.accepted|
  {
    hide PcOk, Delivered, Slot, Contents, Used;
    if s.pc.ReadAvail? || s.pc.CheckEof? || s.pc.Copying? {
      actions := Finishes(s);
    } else {
      actions := [];
    }
  }

  // ----- what the callback drops -----

  /** The bytes of all segments that arrive, in order. */
  function Arriving(actions: seq<Action>): seq<Byte> {
    if actions == [] then []
    else (if actions[0].Segment? then actions[0].bytes else []) + Arriving(actions[1..])
  }

  /** Every segment is at most what is free when it arrives. */
  predicate AllFit(s: Socket, actions: seq<Action>)
    requires Inv(s)
    decreases |actions|
  {
    actions == [] ||
    (StepKeepsInv(s, actions[0]);
     && (actions[0].Segment? ==> |actions[0].bytes| <= Free(s.head, s.tail))
     && AllFit(Do(s, actions[0]), actions[1..]))
  }

  lemma AcceptedStep(s: Socket, a: Action)
    requires Inv(s)
    ensures Inv(Do(s, a))
    ensures a.Segment? ==> Do(s, a).accepted == s.accepted + a.bytes[..Min(|a.bytes|, Free(s.head, s.tail))]
    ensures !a.Segment? ==> Do(s, a).accepted == s.accepted
  {
    StepKeepsInv(s, a);
    hide PcOk, Contents, Delivered, Filled, Slot, Used;
  }

  lemma {:induction false} AcceptedOf(s: Socket, actions: seq<Action>)
    requires Inv(s)
    ensures |Run(s, actions).accepted| <= |s.accepted| + |Arriving(actions)|
    ensures AllFit(s, actions) ==> Run(s, actions).accepted == s.accepted + Arriving(actions)
    ensures !AllFit(s, actions) ==> |Run(s, actions).accepted| < |s.accepted| + |Arriving(actions)|
    decreases |actions|
  {
    hide PcOk, Conserved, Do, Free;
    RingOf(s);
    if actions != [] {
      AcceptedStep(s, actions[0]);
      AcceptedOf(Do(s, actions[0]), actions[1..]);
      if actions[0].Segment? && |actions[0].bytes| <= Free(s.head, s.tail) {
        assert actions[0].bytes[..|actions[0].bytes|] == actions[0].bytes;
      }
    }
  }

  /** The bytes that arrive are all taken exactly if every segment fits; what does not fit is dropped. */
  lemma NothingDroppedExactly(s: Socket, actions: seq<Action>)
    requires Inv(s)
    ensures Run(s, actions).accepted == s.accepted + Arriving(actions) <==> AllFit(s, actions)
  {
    AcceptedOf(s, actions);
    hide Run, AllFit, Arriving, Inv;
  }

  lemma {:induction false} CallsBringNothing(actions: seq<Action>)
    requires OnlyCalls(actions)
    ensures Arriving(actions) == []
  {
    if actions != [] {
      assert actions[0] in actions;
      CallsBringNothing(actions[1..]);
    }
  }

  lemma {:induction false} ArrivingPlus(a: seq<Action>, b: seq<Action>)
    ensures Arriving(a + b) == Arriving(a) + Arriving(b)
  {
    if a == [] {
      assert a + b == b;
    } else {
      assert (a + b)[1..] == a[1..] + b;
      ArrivingPlus(a[1..], b);
    }
  }

  lemma OneArriving(bytes: seq<Byte>)
    ensures Arriving([Segment(bytes)]) == bytes
  {
    assert [Segment(bytes)][1..] == [];
  }

  /** A segment as long as the ring loses its last byte, and the next byte is delivered in its place. */
  lemma StreamHasHole(s: Socket, bytes: seq<Byte>, next: Byte) returns (actions: seq<Action>)
    requires Fresh(s) && |bytes| == SIZE
    ensures Inv(s) && Arriving(actions) == bytes + [next]
    ensures Delivered(Run(s, actions).results) == bytes[..SIZE - 1] + [next]
  {
    FreshInv(s);
    FreshFree(s);
    hide Slot, Used, Delivered, Contents, PcOk, Conserved, Advance, Free, Filled, Run, Arriving;
    AcceptedStep(s, Segment(bytes));
    OneAction(s, Segment(bytes));
    var t := Do(s, Segment(bytes));
    var first := DeliversAll(t);
    KeepsConnected(t, first);
    var u := Run(t, first);
    RunOn(s, [Segment(bytes)], first);
    AllRead(u);
    AcceptedStep(u, Segment([next]));
    OneAction(u, Segment([next]));
    var v := Do(u, Segment([next]));
    RunOn(s, [Segment(bytes)] + first, [Segment([next])]);
    var second := DeliversAll(v);
    RunOn(s, [Segment(bytes)] + first + [Segment([next])], second);
    actions := [Segment(bytes)] + first + [Segment([next])] + second;
    assert [next][..1] == [next] && s.accepted == [] && [] + bytes[..SIZE - 1] == bytes[..SIZE - 1];
    ArrivesTwice(bytes, first, next, second);
  }

  lemma ArrivesTwice(bytes: seq<Byte>, first: seq<Action>, next: Byte, second: seq<Action>)
    requires OnlyCalls(first) && OnlyCalls(second)
    ensures Arriving([Segment(bytes)] + first + [Segment([next])] + second) == bytes + [next]
  {
    hide Arriving;
    OneArriving(bytes);
    OneArriving([next]);
    CallsBringNothing(first);
    CallsBringNothing(second);
    ArrivingPlus([Segment(bytes)], first);
    ArrivingPlus([Segment(bytes)] + first, [Segment([next])]);
    ArrivingPlus([Segment(bytes)] + first + [Segment([next])], second);
  }

  lemma FreshFree(s: Socket)
    requires Fresh(s)
    ensures Free(s.head, s.tail) == SIZE - 1
  {
  }

  /** When all that was taken is delivered the ring is empty. */
  lemma AllRead(s: Socket)
    requires Inv(s) && Delivered(s.results) == s.accepted
    ensures Free(s.head, s.tail) == SIZE - 1
  {
    hide Slot, Delivered, PcOk;
  }

  lemma {:induction false} KeepsConnected(s: Socket, actions: seq<Action>)
    requires Inv(s) && s.state.Connected? && OnlyCalls(actions)
    ensures Run(s, actions).state.Connected? && Run(s, actions).accepted == s.accepted
    decreases |actions|
  {
    hide PcOk, Conserved, Slot, Used, Contents;
    RingOf(s);
    if actions != [] {
      assert actions[0] in actions;
      StepKeepsInv(s, actions[0]);
      KeepsConnected(Do(s, actions[0]), actions[1..]);
    }
  }

  // ----- two runs of a fresh socket -----

  lemma RunLast(s: Socket, actions: seq<Action>, a: Action)
    requires Inv(s)
    ensures Inv(Run(s, actions)) && Run(s, actions + [a]) == Do(Run(s, actions), a)
  {
    RunOn(s, actions, [a]);
    OneAction(Run(s, actions), a);
  }

  lemma FreshInv(s: Socket)
    requires Fresh(s)
    ensures Inv(s) && Delivered(s.results) == []
  {
  }

  /** A byte arrives, the connection is reset, and no later call ever gets the byte. */
  lemma ResetLosesBytes(s: Socket, actions: seq<Action>)
    requires Fresh(s)
    ensures Inv(s)
    ensures var t := Run(s, [Segment([7]), Reset]);
            t.accepted == [7] && Delivered(Run(t, actions).results) == [] && OnlyFailures([], Run(t, actions).results)
  {
    FreshInv(s);
    OneAction(s, Segment([7]));
    RunLast(s, [Segment([7])], Reset);
    assert [Segment([7])] + [Reset] == [Segment([7]), Reset];
    var t := Run(s, [Segment([7]), Reset]);
    assert t.accepted == [7] && t.results == s.results && Stuck(t) by {
      assert Used(0, 0) == 0;
      assert [7][..1] == [7];
    }
    NothingAfterError(t, actions);
    hide Run, Delivered, Inv, Do;
  }

  function OneAccess(s: Socket): (t: Socket)
    requires Inv(s)
    ensures Inv(t)
  {
    AdvanceKeepsInv(s);
    Advance(s)
  }

  /** A call from its start to its end. */
  function FiveSteps(s: Socket): Socket
    requires Inv(s)
  {
    OneAccess(OneAccess(OneAccess(OneAccess(OneAccess(s)))))
  }

  lemma CallSteps(s: Socket, len: nat)
    requires Inv(s) && s.pc == WaitUsed(len) && s.state.Connected?
    ensures s.eof && Used(s.head, s.tail) == 0 ==> FiveSteps(s).results == s.results + [EndOfFile]
    ensures Used(s.head, s.tail) > 0 && len == 0 ==> FiveSteps(s).results == s.results + [Bytes([])]
  {
    hide Inv, Contents, Delivered, Filled, Slot, Used;
  }

  lemma RunFive(s: Socket)
    requires Inv(s)
    ensures Run(s, [Continue, Continue, Continue, Continue, Continue]) == FiveSteps(s)
  {
    hide PcOk, Conserved, Advance, Run;
    var one := [Continue];
    OneStep(s);
    RunLast(s, one, Continue);
    RunLast(s, one + [Continue], Continue);
    RunLast(s, one + [Continue] + [Continue], Continue);
    RunLast(s, one + [Continue] + [Continue] + [Continue], Continue);
    assert one + [Continue] + [Continue] + [Continue] + [Continue] == [Continue, Continue, Continue, Continue, Continue];
  }

  /** A call behind one action of the callback. */
  lemma OneCall(s: Socket, first: Action, len: nat)
    requires Inv(s) && Inv(Do(s, first)) && Do(s, first).pc.Idle? && Do(s, first).state.Connected? && Do(s, first).results == s.results
    ensures var t, calls := Do(s, first), [first, Call(len), Continue, Continue, Continue, Continue, Continue];
            && (t.eof && Used(t.head, t.tail) == 0 ==> Run(s, calls).results == s.results + [EndOfFile])
            && (Used(t.head, t.tail) > 0 && len == 0 ==> Run(s, calls).results == s.results + [Bytes([])])
  {
    hide PcOk, Contents, Delivered, Filled, Slot, Used, Run, FiveSteps, Advance, Accept;
    OneAction(s, first);
    RunLast(s, [first], Call(len));
    var t := Do(Do(s, first), Call(len));
    CallSteps(t, len);
    RunFive(t);
    RunOn(s, [first] + [Call(len)], [Continue, Continue, Continue, Continue, Continue]);
    assert [first] + [Call(len)] + [Continue, Continue, Continue, Continue, Continue] ==
           [first, Call(len), Continue, Continue, Continue, Continue, Continue];
  }

  lemma AcceptUses(s: Socket, bytes: seq<Byte>)
    requires Ring(s.buf, s.head, s.tail) && |bytes| == 1 && Free(s.head, s.tail) > 0
    ensures Used(Accept(s, bytes).head, s.tail) > 0
  {
    UsedSplit(s.head, s.tail, 1);
  }

  /** The end of the stream and a call for no bytes look the same to the caller. */
  lemma TwoZeros(s: Socket)
    requires Fresh(s)
    ensures Inv(s)
    ensures Run(s, [Close, Call(1), Continue, Continue, Continue, Continue, Continue]).results == [EndOfFile]
    ensures Run(s, [Segment([7]), Call(0), Continue, Continue, Continue, Continue, Continue]).results == [Bytes([])]
    ensures Returned(EndOfFile) == Returned(Bytes([])) == 0
  {
    FreshInv(s);
    StepKeepsInv(s, Close);
    StepKeepsInv(s, Segment([7]));
    AcceptUses(s, [7]);
    AcceptKeeps(s, [7]);
    OneCall(s, Close, 1);
    OneCall(s, Segment([7]), 0);
    assert s.results == [];
    hide Run, Inv, Do;
  }
}
