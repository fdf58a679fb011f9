/** max_stack: exactly when every run keeps to it, and a method the analysis accepts that does not. */
module StackLimit {
  import opened Types
  import opened Bytecode
  import opened Merging
  import opened Dataflow
  import opened Machine
  import Soundness
  import Guarantees

  /** In every run the stack takes at most max_stack words. */
  ghost predicate KeepsToLimit(m: Method) {
    forall states: seq<State> | Run(m, states) && states[|states| - 1].Running? ::
      Guarantees.ValueWords(states[|states| - 1].stack) <= m.maxStack
  }

  // ----- runs follow the control-flow graph -----

  lemma StepFollowsEdge(m: Method, s: State, u: State)
    requires s.Running? && u.Running? && Step(m, s, u)
    ensures Edge(m, s.pc, u.pc)
    ensures !Executes(m, s, u) ==> exists h | h in m.handlers :: Covers(h, s.pc)
  {
    hide Executes, Throws, Safe, Successors;
    assert s.pc < |m.code| by {
      SafeIsInCode(m, s);
    }
    if Executes(m, s, u) {
      ExecutesToSuccessor(m, s, u);
    } else {
      var h :| Throws(m, s, u, h);
      ThrowsToHandler(m, s, u, h);
      CaughtAtHandler(m.handlers, s.pc, u.pc);
    }
  }

  lemma SafeIsInCode(m: Method, s: State)
    requires s.Running? && Safe(m, s)
    ensures s.pc < |m.code|
  {
    hide Operands, Satisfies, RegisterCheck, ReturnCheck;
  }

  lemma ExecutesToSuccessor(m: Method, s: State, u: State)
    requires s.Running? && u.Running? && s.pc < |m.code| && Safe(m, s) && Executes(m, s, u)
    ensures u.pc in Successors(m.code[s.pc], s.pc)
  {
    hide Safe, Successors, Produces, Operands, Creates, Grows;
  }

  lemma ThrowsToHandler(m: Method, s: State, u: State, h: Handler)
    requires s.Running? && u.Running? && s.pc < |m.code| && Safe(m, s) && Throws(m, s, u, h)
    ensures h in m.handlers && Covers(h, s.pc) && u.pc == h.handler
  {
    hide Safe, Operands, HasType, Grows, Initializes;
  }

  lemma {:induction false} RunIsReachable(m: Method, states: seq<State>)
    requires Run(m, states) && states[|states| - 1].Running?
    ensures Reachable(m, states[|states| - 1].pc)
  {
    hide Step, Reachable, HalvesAgree, HasType;
    var n := |states| - 1;
    if n == 0 {
      StartIsReachable(m);
    } else {
      var s := states[n - 1];
      assert Step(m, s, states[n]);
      StepsRun(m, s, states[n]);
      RunIsReachable(m, states[..n]);
      StepFollowsEdge(m, s, states[n]);
      ReachableStep(m, s.pc, states[n].pc);
    }
  }

  lemma StepsRun(m: Method, s: State, u: State)
    requires Step(m, s, u)
    ensures s.Running?
  {
    hide Safe, Executes, Throws;
  }

  lemma StartIsReachable(m: Method)
    ensures Reachable(m, 0)
  {
    assert PathTo(m, [0], 0);
  }

  // ----- with max_stack 0 the control-flow graph is what runs can do -----

  /** Where nothing may be left on the stack, an instruction takes all there is and pushes nothing. */
  lemma NothingLeft(m: Method, i: nat, f: Frame)
    requires i < |m.code| && Execute(m, i, f, true).Some? && Execute(m, i, f, true).value.stack == []
    requires !m.code[i].Stack? && !m.code[i].Jsr?
    ensures PushesNothing(m.code[i]) && !m.code[i].New? && |f.stack| == |Operands(m, m.code[i])|
  {
    Soundness.PushesNothingAgrees(m, i, f);
    hide Operands, OperandsAccepted, UpdateRegisters, UpdateMasks, RegistersReadable;
    assert Pushed(m, i, m.code[i], f).None?;
  }

  lemma ShuffledAway(m: Method, s: State, f: Frame)
    requires JsrFree(m) && s.Running? && s.pc < |m.code| && Soundness.AllTyped(m, s.heap, s.stack, f.stack) && |s.stack| == |f.stack|
    requires Bogus !in f.stack && m.code[s.pc].Stack? && Execute(m, s.pc, f, true).Some? && Execute(m, s.pc, f, true).value.stack == []
    ensures Shuffle(m.code[s.pc].op, WideValue, s.stack) == Some([])
  {
    Soundness.ShuffleSound(m, s.heap, m.code[s.pc].op, s.stack, f.stack);
    hide Shuffle, HasType;
  }

  /** A described state can go on to every successor of its instruction. */
  lemma CanGoOn(m: Method, t: Table, s: State, j: nat) returns (u: State)
    requires JsrFree(m) && PostFixpoint(m, t) && Soundness.Described(m, t, s) && s.Running? && m.maxStack == 0
    requires s.pc < |m.code| && j in Successors(m.code[s.pc], s.pc)
    ensures u.Running? && u.pc == j && Step(m, s, u)
  {
    hide HasType, Safe, Operands, Shuffle, PushesNothing, RegistersAfter, Execute, Flows, FrameBelow, FlagsBelow, Successors;
    Soundness.DescribedIsSafe(m, t, s);
    var ins, f := m.code[s.pc], t[s.pc].frame.value;
    PlainlySettled(m, t, s.pc);
    Guarantees.SettledExecutes(m, s.pc, f, t[s.pc].flags);
    NoWords(Execute(m, s.pc, f, true).value.stack);
    if ins.Stack? {
      ShuffledAway(m, s, f);
      u := State.Running(j, [], RegistersAfter(m, s, 0), s.heap, s.constructed, s.clock + 1);
    } else {
      NothingLeft(m, s.pc, f);
      var k := |Operands(m, ins)|;
      assert s.stack[k..] == [];
      if ins.InvokeInit? {
        Guarantees.ReceiverChecked(m, s);
        var o := s.stack[k - 1].id;
        var heap := s.heap.(objects := s.heap.objects[o := s.heap.objects[o].(initialized := true)]);
        u := State.Running(j, [], RegistersAfter(m, s, 0), heap, s.constructed || s.heap.objects[o].maker.Self?, s.clock + 1);
      } else {
        u := State.Running(j, [], RegistersAfter(m, s, 0), s.heap, s.constructed, s.clock + 1);
      }
    }
    assert Executes(m, s, u);
  }

  lemma NoWords(stack: seq<Type>)
    requires StackWords(stack) <= 0
    ensures stack == []
  {
  }

  lemma Extended(m: Method, states: seq<State>, u: State)
    requires Run(m, states) && Step(m, states[|states| - 1], u)
    ensures Run(m, states + [u])
  {
    hide Step, Starts;
  }

  lemma {:induction false} PathIsRun(m: Method, t: Table, p: seq<nat>, j: nat) returns (states: seq<State>)
    requires JsrFree(m) && PostFixpoint(m, t) && m.maxStack == 0 && PathTo(m, p, j)
    ensures Run(m, states) && states[|states| - 1].Running? && states[|states| - 1].pc == j
    decreases |p|
  {
    hide Run, Step, PostFixpoint, Edge;
    if |p| == 1 {
      states := SomeStart(m);
    } else {
      var i := p[|p| - 2];
      assert PathTo(m, p[..|p| - 1], i);
      var before := PathIsRun(m, t, p[..|p| - 1], i);
      RunIsSafe(m, t, before);
      assert Edge(m, i, j);
      var u := FollowEdge(m, t, before[|before| - 1], j);
      Extended(m, before, u);
      states := before + [u];
    }
  }

  lemma RunIsSafe(m: Method, t: Table, states: seq<State>)
    requires JsrFree(m) && PostFixpoint(m, t) && Run(m, states)
    ensures states != [] && Soundness.Described(m, t, states[|states| - 1]) && Safe(m, states[|states| - 1])
  {
    Soundness.TypeSafety(m, t, states);
    hide Soundness.Described, Safe, PostFixpoint, Step, Starts;
  }

  lemma FollowEdge(m: Method, t: Table, s: State, j: nat) returns (u: State)
    requires JsrFree(m) && PostFixpoint(m, t) && m.maxStack == 0 && s.Running? && Soundness.Described(m, t, s) && Safe(m, s) && Edge(m, s.pc, j)
    ensures u.Running? && u.pc == j && Step(m, s, u)
  {
    hide Safe, PostFixpoint, Soundness.Described, Step, Successors;
    if j in Successors(m.code[s.pc], s.pc) {
      u := CanGoOn(m, t, s, j);
    } else {
      CaughtAtHandler(m.handlers, s.pc, j);
      var h :| h in m.handlers && Covers(h, s.pc) && h.handler == j;
      u := Guarantees.HandlerEntered(m, s, h);
    }
  }

  // ----- some run there is -----

  function SomeValue(t: Type): Value {
    match t
    case Integer => VInt(0)
    case Float => VFloat(0)
    case Long => VLong(0, 0)
    case Long2 => VLong2(0, 0)
    case Double => VDouble(0, 0)
    case Double2 => VDouble2(0, 0)
    case InitObject => VRef(0)
    case _ => VNull
  }

  predicate StartsWith(t: Type) {
    IsFieldType(t) || t.Long2? || t.Double2? || t.InitObject?
  }

  lemma {:induction false} RegistersStart(params: seq<Type>)
    requires forall t | t in params :: IsFieldType(t)
    ensures forall k | 0 <= k < |RegistersOf(params)| :: StartsWith(RegistersOf(params)[k])
  {
    if params != [] {
      RegistersStart(params[1..]);
      assert params[0] in params;
    }
  }

  function StartHeap(m: Method): Heap
    requires JsrFree(m)
  {
    Heap(map[0 := Object(m.current, false, Self)], map[], 0)
  }

  lemma SomeValueTyped(m: Method, t: Type)
    requires JsrFree(m) && StartsWith(t)
    ensures HasType(m, StartHeap(m), SomeValue(t), t)
  {
  }

  function StartRegisters(entry: seq<Type>, n: nat): (regs: seq<Value>)
    requires |entry| <= n
    ensures |regs| == n && forall k | 0 <= k < |entry| :: regs[k] == SomeValue(entry[k])
    ensures HalvesAgree(regs)
  {
    seq(n, k requires 0 <= k => if k < |entry| then SomeValue(entry[k]) else VJunk)
  }

  lemma EntryStarts(m: Method)
    requires JsrFree(m)
    ensures forall k | 0 <= k < |EntryRegisters(m)| :: StartsWith(EntryRegisters(m)[k])
  {
    RegistersStart(m.params);
    hide StartsWith;
    assert forall t | t == m.current || t == InitObject :: StartsWith(t) by {
      CurrentStarts(m);
    }
  }

  lemma CurrentStarts(m: Method)
    requires JsrFree(m)
    ensures forall t | t == m.current || t == InitObject :: StartsWith(t)
  {
  }

  lemma SomeStart(m: Method) returns (states: seq<State>)
    requires JsrFree(m)
    ensures Run(m, states) && states[|states| - 1].Running? && states[|states| - 1].pc == 0
  {
    hide HasType, StartsWith, SomeValue, EntryRegisters, HalvesAgree, StartRegisters, Step, LegalOperands, LegalHandler;
    EntryStarts(m);
    var entry := EntryRegisters(m);
    forall k | 0 <= k < |entry| ensures HasType(m, StartHeap(m), SomeValue(entry[k]), entry[k]) {
      SomeValueTyped(m, entry[k]);
    }
    var s := State.Running(0, [], StartRegisters(entry, m.maxLocals), StartHeap(m), false, 0);
    assert Starts(m, s);
    states := [s];
  }

  // ----- the exact condition -----

  /** An instruction that the control-flow graph reaches is covered by a handler. */
  ghost predicate CoversReachable(m: Method) {
    exists i: nat, h | h in m.handlers && Covers(h, i) :: Reachable(m, i)
  }

  /**
   Every run keeps to max_stack if and only if max_stack is not 0 or no reachable
   instruction is covered: entry to a handler is the one push that is not compared with it.
   */
  lemma StackLimitExactly(m: Method, t: Table)
    requires JsrFree(m) && PostFixpoint(m, t)
    ensures KeepsToLimit(m) <==> m.maxStack > 0 || !CoversReachable(m)
  {
    hide PostFixpoint, Reachable, Step, Starts, Covers;
    if m.maxStack == 0 && CoversReachable(m) {
      var i: nat, h :| h in m.handlers && Covers(h, i) && Reachable(m, i);
      var states := ExceedingRun(m, t, i, h);
    } else {
      forall states: seq<State> | Run(m, states) && states[|states| - 1].Running?
        ensures Guarantees.ValueWords(states[|states| - 1].stack) <= m.maxStack
      {
        Uncovered(m, t, states);
      }
    }
  }

  lemma Uncovered(m: Method, t: Table, states: seq<State>)
    requires JsrFree(m) && PostFixpoint(m, t) && Run(m, states) && states[|states| - 1].Running?
    requires m.maxStack > 0 || !CoversReachable(m)
    ensures Guarantees.ValueWords(states[|states| - 1].stack) <= m.maxStack
  {
    hide PostFixpoint, Reachable, Step, Covers, Starts;
    Guarantees.StackStaysWithinLimit(m, t, states);
    var n := |states| - 1;
    if m.maxStack == 0 && n > 0 {
      var s := states[n - 1];
      assert Step(m, s, states[n]);
      StepsRun(m, s, states[n]);
      RunIsReachable(m, states[..n]);
      StepFollowsEdge(m, s, states[n]);
      Guarantees.ExecutedWithinLimit(m, t, states);
    } else if n == 0 {
      StartsEmpty(m, states[0]);
    }
  }

  lemma StartsEmpty(m: Method, s: State)
    requires Starts(m, s)
    ensures s.Running? && s.stack == []
  {
    hide HasType, HalvesAgree;
  }

  /** A run up to the covered instruction, and into its handler. */
  lemma ExceedingRun(m: Method, t: Table, i: nat, h: Handler) returns (states: seq<State>)
    requires JsrFree(m) && PostFixpoint(m, t) && m.maxStack == 0 && h in m.handlers && Covers(h, i) && Reachable(m, i)
    ensures Run(m, states) && states[|states| - 1].Running? && states[|states| - 1].pc == h.handler
    ensures Guarantees.ValueWords(states[|states| - 1].stack) > m.maxStack
  {
    hide Run, Step, PostFixpoint, PathTo, Covers;
    var p :| PathTo(m, p, i);
    var before := PathIsRun(m, t, p, i);
    RunIsSafe(m, t, before);
    var u := Guarantees.HandlerEntered(m, before[|before| - 1], h);
    Extended(m, before, u);
    states := before + [u];
  }

  // ----- a method that exceeds its max_stack -----

  const THROWABLE: Type := Obj(0, Cls(Subclass("java/lang/Throwable", JavaLangObject)))

  /** A guarded goto; the handler stores what it caught.  Nothing but the exception is ever pushed. */
  function GuardedGoto(): Method {
    Method([Goto(1), ReturnVoid, Store(KRef, 0), ReturnVoid], [Handler(0, 1, 2, THROWABLE)],
           NoReceiver, [], Void, OBJECT, None, THROWABLE, 0, 1)
  }

  function GuardedGotoTable(): Table {
    var flags := Flags(false, true, false, false);
    [Record(false, Some(Frame([], [], [])), flags, None), Record(false, Some(Frame([], [], [])), flags, None),
     Record(false, Some(Frame([THROWABLE], [], [])), flags, None), Record(false, Some(Frame([], [THROWABLE], [])), flags, None)]
  }

  /** Its analysis succeeds with this table, and it has a run that exceeds the limit. */
  lemma GuardedGotoExceeds() returns (states: seq<State>)
    ensures JsrFree(GuardedGoto()) && PostFixpoint(GuardedGoto(), GuardedGotoTable()) && GuardedGoto().maxStack == 0
    ensures Run(GuardedGoto(), states) && states[|states| - 1].Running? && states[|states| - 1].pc == 2
    ensures Guarantees.ValueWords(states[|states| - 1].stack) > GuardedGoto().maxStack && !KeepsToLimit(GuardedGoto())
  {
    GuardedGotoLegal();
    GuardedGotoSettled();
    hide JsrFree, PostFixpoint, Run, Reachable;
    StartIsReachable(GuardedGoto());
    states := ExceedingRun(GuardedGoto(), GuardedGotoTable(), 0, Handler(0, 1, 2, THROWABLE));
  }

  lemma GuardedGotoLegal()
    ensures JsrFree(GuardedGoto())
  {
  }

  lemma GuardedGotoSettled()
    requires JsrFree(GuardedGoto())
    ensures PostFixpoint(GuardedGoto(), GuardedGotoTable())
  {
    var m, t := GuardedGoto(), GuardedGotoTable();
    GotoSettled();
    StoreSettled();
    VoidSettled(1);
    VoidSettled(3);
    GuardedGotoRecords();
    hide *;
    FixpointFrom(m, t);
  }

  lemma FixpointFrom(m: Method, t: Table)
    requires TableOk(m, t) && CleanStacks(t) && EntryAllowed(m, t) && |t| == 4 && forall i | 0 <= i < 4 :: !t[i].changed
    requires Known(t, 0) && Known(t, 1) && Known(t, 2) && Known(t, 3)
    requires Settled(m, true, t, 0) && Settled(m, true, t, 1) && Settled(m, true, t, 2) && Settled(m, true, t, 3)
    ensures PostFixpoint(m, t)
  {
    hide TableOk, CleanStacks, EntryAllowed, Settled, JsrFree;
  }

  lemma GuardedGotoRecords()
    ensures var m, t := GuardedGoto(), GuardedGotoTable();
            && TableOk(m, t) && CleanStacks(t) && EntryAllowed(m, t) && |t| == 4 && (forall i | 0 <= i < 4 :: !t[i].changed)
            && Known(t, 0) && Known(t, 1) && Known(t, 2) && Known(t, 3)
  {
  }

  lemma GotoSettled()
    ensures Settled(GuardedGoto(), true, GuardedGotoTable(), 0)
  {
    var m, t := GuardedGoto(), GuardedGotoTable();
    var f, fl := t[0].frame.value, t[0].flags;
    var hf := HandlerFlows(m, 0, f, f, fl, fl, m.handlers);
    assert Execute(m, 0, f, true).value == f;
    assert m.handlers[1..] == [];
    assert hf == [Flow(2, Frame([THROWABLE], [], []), fl)] + HandlerFlows(m, 0, f, f, fl, fl, []);
    assert Flows(m, 0, f, fl, true).value == hf + [Flow(1, f, fl)];
  }

  lemma StoreSettled()
    ensures Settled(GuardedGoto(), true, GuardedGotoTable(), 2)
  {
    var m, t := GuardedGoto(), GuardedGotoTable();
    var f, fl, after := t[2].frame.value, t[2].flags, Frame([], [THROWABLE], []);
    StoreExecutes();
    NotCovered(2, f, after, fl);
    OneFlow(m, 2, f, fl, after);
    hide Execute, Flows, HandlerFlows;
    assert Sent(m, true, t, 2) == Flows(m, 2, f, fl, false);
    AddsIrrelevant(m, 2, f, fl, true, false);
  }

  lemma StoreExecutes()
    ensures Execute(GuardedGoto(), 2, GuardedGotoTable()[2].frame.value, true) == Some(Frame([], [THROWABLE], []))
  {
    var after := Execute(GuardedGoto(), 2, GuardedGotoTable()[2].frame.value, true).value;
    assert after.stack == [] && after.regs == [THROWABLE] && after.masks == [];
  }

  /** What an instruction without handlers that falls through sends. */
  lemma OneFlow(m: Method, i: nat, f: Frame, fl: Flags, after: Frame)
    requires i + 1 < |m.code| && m.code[i].Store? && Execute(m, i, f, true) == Some(after)
    requires HandlerFlows(m, i, f, after, fl, fl, m.handlers) == []
    ensures Flows(m, i, f, fl, true).Some? && Flows(m, i, f, fl, true).value == [Flow(i + 1, after, fl)]
  {
    hide Execute, HandlerFlows;
  }

  lemma VoidSettled(i: nat)
    requires i == 1 || i == 3
    ensures Settled(GuardedGoto(), true, GuardedGotoTable(), i)
  {
    var m, t := GuardedGoto(), GuardedGotoTable();
    var f, fl := t[i].frame.value, t[i].flags;
    var after := Execute(m, i, f, true).value;
    assert after.stack == [] && after.masks == [];
    NotCovered(i, f, after, fl);
    assert Flows(m, i, f, fl, true).value == [];
  }

  lemma NotCovered(i: nat, f: Frame, g: Frame, fl: Flags)
    requires 0 < i < 4
    ensures HandlerFlows(GuardedGoto(), i, f, g, fl, fl, GuardedGoto().handlers) == []
  {
    var m := GuardedGoto();
    assert m.handlers[1..] == [];
    assert HandlerFlows(m, i, f, g, fl, fl, m.handlers[1..]) == [];
  }
}
