/**
 What type safety buys: uninitialised objects, two-word values, constructors, stack
 depth, and the marking of dead code.
 */
module Guarantees {
  import opened Types
  import opened Bytecode
  import opened Merging
  import opened Dataflow
  import opened Machine
  import Soundness

  // ----- FLAG_REACHED -----

  lemma {:induction false} PathIsMarked(m: Method, t: Table, p: seq<nat>, j: nat)
    requires JsrFree(m) && PostFixpoint(m, t) && Marked(m, t) && PathTo(m, p, j)
    ensures Known(t, j)
  {
    if |p| > 1 {
      var i := p[|p| - 2];
      assert PathTo(m, p[..|p| - 1], i);
      PathIsMarked(m, t, p[..|p| - 1], i);
      PlainlySettled(m, t, i);
      assert Edge(m, i, j);
      FlowTargets(m, i, t[i].frame.value, t[i].flags, true);
      var g :| g in Flows(m, i, t[i].frame.value, t[i].flags, true).value && g.to == j;
    }
  }

  /** FLAG_REACHED marks exactly the instructions the control-flow graph can reach. */
  lemma ReachedExactly(m: Method, t: Table, i: nat)
    requires JsrFree(m) && PostFixpoint(m, t) && Marked(m, t) && i < |t|
    ensures t[i].flags.reached <==> Reachable(m, i)
  {
    assert RecordOk(m, t, i);
    if Reachable(m, i) {
      var p :| PathTo(m, p, i);
      PathIsMarked(m, t, p, i);
    }
  }

  // ----- uninitialised objects -----

  /** A cell of the frame: a stack item or a register, with the type recorded for it. */
  ghost predicate Cell(t: Table, s: State, v: Value, ty: Type)
    requires s.Running?
  {
    && Known(t, s.pc)
    && var f := t[s.pc].frame.value;
       || (exists k :: 0 <= k < |f.stack| && k < |s.stack| && s.stack[k] == v && f.stack[k] == ty)
       || (exists k :: 0 <= k < |f.regs| && k < |s.regs| && s.regs[k] == v && f.regs[k] == ty)
  }

  /** All cells typed as made by `new` number i hold the newest object made there. */
  lemma NewObjectCellsAgree(m: Method, t: Table, states: seq<State>, k: nat, v: Value, i: nat)
    requires JsrFree(m) && PostFixpoint(m, t) && Run(m, states) && k < |states| && states[k].Running?
    requires Cell(t, states[k], v, NewObject(i))
    ensures var hp := states[k].heap;
            && i in hp.latest && v == VRef(hp.latest[i])
            && IsUninitialized(hp, v) && hp.objects[v.id].maker == MadeBy(i)
  {
    Soundness.TypeSafety(m, t, states);
    CellTyped(m, t, states[k], v, NewObject(i));
  }

  lemma CellTyped(m: Method, t: Table, s: State, v: Value, ty: Type)
    requires s.Running? && Soundness.Described(m, t, s) && Cell(t, s, v, ty)
    ensures HasType(m, s.heap, v, ty)
  {
  }

  /** In step j an invokeinit ran, wholly or up to an exception, on the object `o`. */
  predicate ConstructedIn(m: Method, states: seq<State>, j: nat, o: nat) {
    && j + 1 < |states| && states[j].Running? && Safe(m, states[j])
    && states[j].pc < |m.code| && m.code[states[j].pc].InvokeInit?
    && var k := |Operands(m, m.code[states[j].pc])| - 1;
       k >= 0 && states[j].stack[k] == VRef(o)
  }

  lemma {:induction false} InitializedOnlyByConstructor(m: Method, states: seq<State>, o: nat)
    requires Run(m, states) && states[|states| - 1].Running?
    requires forall x | x in states[0].heap.objects :: !states[0].heap.objects[x].maker.MadeBy?
    requires var objs := states[|states| - 1].heap.objects;
             o in objs && objs[o].maker.MadeBy? && objs[o].initialized
    ensures exists j: nat :: ConstructedIn(m, states, j, o)
  {
    hide Executes, Throws, Safe, Operands, HasType, HalvesAgree;
    if |states| > 1 {
      var n := |states| - 1;
      var s, u := states[n - 1], states[n];
      assert Step(m, s, u);
      if o in s.heap.objects && s.heap.objects[o] == u.heap.objects[o] {
        InitializedOnlyByConstructor(m, states[..n], o);
        var j: nat :| ConstructedIn(m, states[..n], j, o);
        assert ConstructedIn(m, states, j, o);
      } else {
        InitializingStep(m, s, u, o);
        assert ConstructedIn(m, states, n - 1, o);
      }
    }
  }

  lemma InitializingStep(m: Method, s: State, u: State, o: nat)
    requires s.Running? && u.Running? && Step(m, s, u)
    requires o in u.heap.objects && u.heap.objects[o].maker.MadeBy? && u.heap.objects[o].initialized
    requires !(o in s.heap.objects && s.heap.objects[o] == u.heap.objects[o])
    ensures s.pc < |m.code| && m.code[s.pc].InvokeInit?
    ensures var k := |Operands(m, m.code[s.pc])| - 1;
            k >= 0 && s.stack[k] == VRef(o)
  {
    hide Satisfies, HasType, Produces, RegistersAfter, Shuffle, Operands;
    if m.code[s.pc].InvokeInit? {
      ReceiverChecked(m, s);
    }
  }

  lemma ReceiverChecked(m: Method, s: State)
    requires s.Running? && Safe(m, s) && s.pc < |m.code| && m.code[s.pc].InvokeInit?
    ensures var k := |Operands(m, m.code[s.pc])| - 1;
            0 <= k < |s.stack| && IsUninitialized(s.heap, s.stack[k])
  {
    var ops := Operands(m, m.code[s.pc]);
    assert ops[|ops| - 1].Uninitialized?;
    assert Satisfies(m, s.heap, ops[|ops| - 1], s.stack[|ops| - 1]);
  }

  /**
   An object made by `new` is never typed as an ordinary object before a constructor has
   been called on it, in loops and handlers too.
   */
  lemma NoUninitializedMasquerade(m: Method, t: Table, states: seq<State>, v: Value, ty: Type)
    requires JsrFree(m) && PostFixpoint(m, t) && Run(m, states) && states[|states| - 1].Running?
    requires forall x | x in states[0].heap.objects :: !states[0].heap.objects[x].maker.MadeBy?
    requires Cell(t, states[|states| - 1], v, ty) && (ty.Obj? || ty.PrimArray?)
    requires v.VRef? && v.id in states[|states| - 1].heap.objects
    requires states[|states| - 1].heap.objects[v.id].maker.MadeBy?
    ensures exists j: nat :: ConstructedIn(m, states, j, v.id)
  {
    Soundness.TypeSafety(m, t, states);
    CellTyped(m, t, states[|states| - 1], v, ty);
    InitializedOnlyByConstructor(m, states, v.id);
  }

  /** A constructor only returns after the constructor of its own object has been called. */
  lemma ConstructorsConstruct(m: Method, t: Table, states: seq<State>)
    requires JsrFree(m) && PostFixpoint(m, t) && Run(m, states) && states[|states| - 1].Running?
    requires var pc := states[|states| - 1].pc;
             m.receiver.UnderConstruction? && pc < |m.code| && m.code[pc].ReturnVoid?
    ensures exists j: nat :: CallsOwnConstructor(m, states, j)
  {
    var s := states[|states| - 1];
    Soundness.TypeSafety(m, t, states);
    assert ReturnCheck(m, s, m.code[s.pc]);
    ConstructedByInvokeInit(m, states);
  }

  /** In step j an invokeinit ran on the object under construction. */
  predicate CallsOwnConstructor(m: Method, states: seq<State>, j: nat) {
    && j + 1 < |states| && states[j].Running? && Safe(m, states[j])
    && states[j].pc < |m.code| && m.code[states[j].pc].InvokeInit?
    && var k := |Operands(m, m.code[states[j].pc])| - 1;
       && k >= 0 && IsUninitialized(states[j].heap, states[j].stack[k])
       && states[j].heap.objects[states[j].stack[k].id].maker.Self?
  }

  lemma {:induction false} ConstructedByInvokeInit(m: Method, states: seq<State>)
    requires Run(m, states) && states[|states| - 1].Running? && states[|states| - 1].constructed
    ensures exists j: nat :: CallsOwnConstructor(m, states, j)
  {
    hide Safe, Executes, HasType, HalvesAgree, Throws, Operands;
    var n := |states| - 1;
    if n > 0 {
      var s := states[n - 1];
      assert Step(m, s, states[n]);
      if s.constructed {
        ConstructedByInvokeInit(m, states[..n]);
        var j: nat :| CallsOwnConstructor(m, states[..n], j);
        assert CallsOwnConstructor(m, states, j);
      } else {
        ConstructedStep(m, s, states[n]);
        assert CallsOwnConstructor(m, states, n - 1);
      }
    }
  }

  lemma ConstructedStep(m: Method, s: State, u: State)
    requires s.Running? && u.Running? && Step(m, s, u) && !s.constructed && u.constructed
    ensures s.pc < |m.code| && m.code[s.pc].InvokeInit?
    ensures var k := |Operands(m, m.code[s.pc])| - 1;
            && 0 <= k < |s.stack| && IsUninitialized(s.heap, s.stack[k])
            && s.heap.objects[s.stack[k].id].maker.Self?
  {
    hide Satisfies, HasType, Produces, RegistersAfter, Shuffle, Operands, Grows;
    if m.code[s.pc].InvokeInit? {
      ReceiverChecked(m, s);
    }
  }

  // ----- two-word values -----

  /** Register n of a state got its two-word value from the store executed in step j. */
  predicate StoredIn(m: Method, states: seq<State>, j: nat, n: nat, v: Value) {
    && j < |states| && states[j].Running? && states[j].pc < |m.code|
    && m.code[states[j].pc].Store? && m.code[states[j].pc].local == n
    && states[j].stack != []
    && ((v.VLong? && states[j].stack[0].VLong?) || (v.VDouble? && states[j].stack[0].VDouble?))
    && states[j].stack[0].bits == v.bits && states[j].clock == v.store
  }

  lemma {:induction false} WideRegisterOrigin(m: Method, states: seq<State>, n: nat)
    requires Run(m, states) && states[|states| - 1].Running? && n < |states[|states| - 1].regs|
    requires WideValue(states[|states| - 1].regs[n])
    ensures var v := states[|states| - 1].regs[n];
            || (n < |states[0].regs| && states[0].regs[n] == v)
            || exists j: nat :: j < |states| - 1 && StoredIn(m, states, j, n, v)
  {
    hide HasType, Safe, Executes, Throws;
    var k := |states| - 1;
    if k > 0 {
      var s, v := states[k - 1], states[k].regs[n];
      assert Step(m, s, states[k]);
      WideRegisterStep(m, s, states[k], n);
      if n < |s.regs| && s.regs[n] == v {
        WideRegisterOrigin(m, states[..k], n);
        if !(n < |states[0].regs| && states[0].regs[n] == v) {
          var j: nat :| j < k - 1 && StoredIn(m, states[..k], j, n, v);
          assert StoredIn(m, states, j, n, v);
        }
      } else {
        assert StoredIn(m, states, k - 1, n, v);
      }
    }
  }

  lemma WideRegisterStep(m: Method, s: State, u: State, n: nat)
    requires s.Running? && u.Running? && Step(m, s, u) && n < |u.regs| && WideValue(u.regs[n])
    ensures || (n < |s.regs| && s.regs[n] == u.regs[n])
            || StoredIn(m, [s], 0, n, u.regs[n])
  {
    hide HasType, Produces, Shuffle, Grows, Throws, Creates, Initializes;
    if Executes(m, s, u) {
      var x :| u.regs == RegistersAfter(m, s, x);
      if m.code[s.pc].Store? {
        assert Satisfies(m, s.heap, Operands(m, m.code[s.pc])[0], s.stack[0]);
      }
    } else {
      ThrowsKeepsRegisters(m, s, u);
    }
  }

  lemma ThrowsKeepsRegisters(m: Method, s: State, u: State)
    requires s.Running? && u.Running? && Step(m, s, u) && !Executes(m, s, u)
    ensures u.regs == s.regs
  {
    hide HasType, Safe, Grows, Executes;
  }

  /**
   A long or double load that the analysis accepts reads the two halves of one value,
   both written by the same store, or both already there on entry.
   */
  lemma WideLoadsReadOneStore(m: Method, t: Table, states: seq<State>)
    requires JsrFree(m) && PostFixpoint(m, t) && Run(m, states)
    requires states[|states| - 1].Running? && states[|states| - 1].pc < |m.code|
    requires var ins := m.code[states[|states| - 1].pc]; ins.Load? && (ins.kind.KLong? || ins.kind.KDouble?)
    ensures var s := states[|states| - 1];
            var n := m.code[s.pc].local;
            && n + 1 < |s.regs| && WideValue(s.regs[n])
            && (s.regs[n + 1] == VLong2(s.regs[n].bits, s.regs[n].store)
                || s.regs[n + 1] == VDouble2(s.regs[n].bits, s.regs[n].store))
            && (|| s.regs[n] == states[0].regs[n]
                || exists j: nat :: j < |states| - 1 && StoredIn(m, states, j, n, s.regs[n]))
  {
    var s := states[|states| - 1];
    Soundness.TypeSafety(m, t, states);
    assert RegisterCheck(m, m.code[s.pc], s.regs);
    RegistersKeepLength(m, t, states);
    WideRegisterOrigin(m, states, m.code[s.pc].local);
  }

  lemma RegistersKeepLength(m: Method, t: Table, states: seq<State>)
    requires JsrFree(m) && PostFixpoint(m, t) && Run(m, states)
    requires states[|states| - 1].Running?
    ensures |states[|states| - 1].regs| == |states[0].regs|
  {
    Soundness.TypeSafety(m, t, states);
  }

  // ----- stack depth -----

  function ValueWords(stack: seq<Value>): nat {
    if stack == [] then 0 else (if WideValue(stack[0]) then 2 else 1) + ValueWords(stack[1..])
  }

  lemma {:induction false} WordsAgree(m: Method, hp: Heap, vs: seq<Value>, ts: seq<Type>)
    requires |vs| == |ts| && Soundness.AllTyped(m, hp, vs, ts) && Bogus !in ts
    ensures ValueWords(vs) == StackWords(ts)
  {
    if vs != [] {
      assert ts[0] in ts;
      Soundness.WideAgrees(m, hp, vs[0], ts[0]);
      WordsAgree(m, hp, vs[1..], ts[1..]);
    }
  }

  lemma SettledExecutes(m: Method, i: nat, f: Frame, fl: Flags)
    requires i < |m.code| && Flows(m, i, f, fl, true).Some?
    ensures Execute(m, i, f, true).Some? && StackWords(Execute(m, i, f, true).value.stack) <= m.maxStack
  {
  }

  /** What an instruction leaves on the stack is within max_stack. */
  lemma ExecutedWithinLimit(m: Method, t: Table, states: seq<State>)
    requires JsrFree(m) && PostFixpoint(m, t) && Run(m, states) && |states| > 1 && states[|states| - 1].Running?
    ensures var s, u := states[|states| - 2], states[|states| - 1];
            s.Running? && Step(m, s, u) && s.pc < |m.code| && (Executes(m, s, u) ==> ValueWords(u.stack) <= m.maxStack)
  {
    hide HasType, Executes, Safe, Flows, Execute, HalvesAgree;
    var s, u := states[|states| - 2], states[|states| - 1];
    Soundness.TypeSafety(m, t, states);
    assert Step(m, s, u);
    if Executes(m, s, u) {
      var f, fl := t[s.pc].frame.value, t[s.pc].flags;
      PlainlySettled(m, t, s.pc);
      SettledExecutes(m, s.pc, f, fl);
      Soundness.ExecutesSound(m, s, u, f, fl);
      ExecuteClean(m, s.pc, f, true);
      WordsAgree(m, u.heap, u.stack, Execute(m, s.pc, f, true).value.stack);
    }
  }

  /**
   The stack of a running method stays within max_stack, except on entry to a handler,
   where the analysis does not compare the one caught reference with the limit.
   */
  lemma StackStaysWithinLimit(m: Method, t: Table, states: seq<State>)
    requires JsrFree(m) && PostFixpoint(m, t) && Run(m, states) && states[|states| - 1].Running?
    ensures var s := states[|states| - 1];
            || ValueWords(s.stack) <= m.maxStack
            || (m.maxStack == 0 && |s.stack| == 1 && s.stack[0].VRef?
                && exists h :: h in m.handlers && h.handler == s.pc)
  {
    hide HasType, Executes, Safe, Flows, Execute, HalvesAgree;
    var n := |states| - 1;
    if n > 0 {
      var s, u := states[n - 1], states[n];
      ExecutedWithinLimit(m, t, states);
      if !Executes(m, s, u) {
        var h :| Throws(m, s, u, h);
        assert |u.stack| == 1;
      }
    }
  }

  /** A handler can be entered from every instruction it covers, and its one item takes a word. */
  lemma HandlerEntered(m: Method, s: State, h: Handler) returns (u: State)
    requires JsrFree(m) && s.Running? && s.pc < |m.code| && Safe(m, s) && h in m.handlers && Covers(h, s.pc)
    ensures u.Running? && u.pc == h.handler && Step(m, s, u) && ValueWords(u.stack) == 1
  {
    assert LegalHandler(m, h);
    var o := FreshId(s.heap.objects.Keys);
    var thrown := Object(Erase(h.catchType), true, Elsewhere);
    var heap := s.heap.(objects := s.heap.objects[o := thrown]);
    u := State.Running(h.handler, [VRef(o)], s.regs, heap, s.constructed, s.clock);
    assert Grows(s.heap, heap);
    assert Throws(m, s, u, h);
    assert ValueWords(u.stack) == 1 + ValueWords(u.stack[1..]);
  }

  lemma {:induction false} FreshId(used: set<nat>) returns (o: nat)
    ensures o !in used && forall x | x in used :: x < o
  {
    if used == {} {
      o := 0;
    } else {
      var x :| x in used;
      var rest := FreshId(used - {x});
      o := if x < rest then rest else x + 1;
      forall y | y in used ensures y < o {
        assert y == x || y in used - {x};
      }
    }
  }
}
