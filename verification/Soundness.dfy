/**
 Code the analysis accepts never fails a run-time check: in every run each frame is
 described by the record of its instruction.
 */
module Soundness {
  import opened Types
  import opened Bytecode
  import opened Merging
  import opened Dataflow
  import opened Machine
  import Lattice

  // ----- what a record says about a state -----

  ghost predicate AllTyped(m: Method, hp: Heap, vs: seq<Value>, ts: seq<Type>) {
    |ts| <= |vs| && forall k | 0 <= k < |ts| :: HasType(m, hp, vs[k], ts[k])
  }

  ghost predicate DescribedBy(m: Method, s: State, f: Frame, fl: Flags)
    requires s.Running?
  {
    && |s.stack| == |f.stack| && |s.regs| == m.maxLocals
    && AllTyped(m, s.heap, s.stack, f.stack)
    && AllTyped(m, s.heap, s.regs, f.regs)
    && (fl.constructed ==> s.constructed)
    && (m.receiver.UnderConstruction? ==> fl.needConstructor)
  }

  /** The record of the instruction at hand describes the state. */
  ghost predicate Described(m: Method, t: Table, s: State) {
    s.Running? ==>
      && Known(t, s.pc)
      && DescribedBy(m, s, t[s.pc].frame.value, t[s.pc].flags)
      && HalvesAgree(s.regs)
  }

  // ----- the meaning of types follows the order -----

  /** A value of a type is a value of every type it is assignable to. */
  lemma AssignableSound(m: Method, hp: Heap, v: Value, a: Type, b: Type)
    requires HasType(m, hp, v, a) && IsAssignableTo(a, b)
    ensures HasType(m, hp, v, b)
  {
    Lattice.AssignableExactly(a, b);
    if IsInitialized(hp, v) && (a.Obj? || a.PrimArray?) && (b.Obj? || b.PrimArray?) {
      Lattice.ConformsTransitive(hp.objects[v.id].rtype, a, b);
    }
  }

  lemma FrameBelowSound(m: Method, s: State, f: Frame, fl: Flags, g: Frame, gl: Flags)
    requires s.Running? && DescribedBy(m, s, f, fl) && FrameBelow(f, g) && FlagsBelow(fl, gl)
    ensures DescribedBy(m, s, g, gl)
  {
    forall k | 0 <= k < |g.stack| ensures HasType(m, s.heap, s.stack[k], g.stack[k]) {
      AssignableSound(m, s.heap, s.stack[k], f.stack[k], g.stack[k]);
    }
    forall k | 0 <= k < |g.regs| ensures HasType(m, s.heap, s.regs[k], g.regs[k]) {
      AssignableSound(m, s.heap, s.regs[k], f.regs[k], g.regs[k]);
    }
  }

  /** An operand the analysis accepts passes its run-time check. */
  lemma OperandSound(m: Method, hp: Heap, op: Operand, v: Value, t: Type)
    requires HasType(m, hp, v, t) && Accepts(m, op, t)
    requires op.Exactly? ==> IsPrimitiveItem(op.t)
    requires !t.Bogus?
    ensures Satisfies(m, hp, op, v)
  {
    match op
    case Reference(targets, _) =>
      if IsInitialized(hp, v) {
        forall g | g in targets && IsReference(t) ensures Conforms(hp.objects[v.id].rtype, g) {
          Lattice.AssignableExactly(t, g);
          Lattice.ConformsTransitive(hp.objects[v.id].rtype, t, g);
        }
      }
    case ObjectOnly(g) =>
      if IsInitialized(hp, v) && t.Obj? {
        Lattice.AssignableExactly(t, g);
        Lattice.ConformsTransitive(hp.objects[v.id].rtype, t, g);
      }
    case FieldOwner(c, _) =>
      Lattice.AssignableExactly(t, c);
      Lattice.AssignableExactly(m.current, c);
      if v.VRef? && t.InitObject? {
        Lattice.ConformsTransitive(hp.objects[v.id].rtype, m.current, c);
      } else if IsInitialized(hp, v) && IsReference(t) {
        Lattice.ConformsTransitive(hp.objects[v.id].rtype, t, c);
      }
    case _ =>
  }

  lemma {:induction false} ArgumentOperands(params: seq<Type>)
    requires forall t | t in params :: IsFieldType(t)
    ensures forall op | op in Arguments(params) :: op.Exactly? ==> IsPrimitiveItem(op.t)
  {
    if params != [] {
      ArgumentOperands(params[1..]);
      assert params[0] in params;
    }
  }

  lemma ExactOperands(m: Method, i: nat)
    requires JsrFree(m) && i < |m.code|
    ensures forall op | op in Operands(m, m.code[i]) :: op.Exactly? ==> IsPrimitiveItem(op.t)
  {
    var ins := m.code[i];
    assert LegalOperands(m, ins);
    match ins
    case Invoke(_, _, ps, _) => ArgumentOperands(ps);
    case InvokeInit(_, ps) => ArgumentOperands(ps);
    case _ =>
  }

  lemma WideAgrees(m: Method, hp: Heap, v: Value, t: Type)
    requires HasType(m, hp, v, t) && !t.Bogus?
    ensures WideValue(v) == IsWide(t)
  {
  }

  /** The stack operations move types and values alike. */
  lemma ShuffleSound(m: Method, hp: Heap, op: StackOp, vs: seq<Value>, ts: seq<Type>)
    requires |vs| == |ts| && AllTyped(m, hp, vs, ts) && Bogus !in ts
    requires Shuffle(op, IsWide, ts).Some?
    ensures Shuffle(op, WideValue, vs).Some?
    ensures var ws, us := Shuffle(op, WideValue, vs).value, Shuffle(op, IsWide, ts).value;
            |ws| == |us| && AllTyped(m, hp, ws, us)
  {
    forall k | 0 <= k < |ts| ensures WideValue(vs[k]) == IsWide(ts[k]) {
      assert ts[k] in ts;
      WideAgrees(m, hp, vs[k], ts[k]);
    }
    assert WideFlags(WideValue, vs) == WideFlags(IsWide, ts);
  }

  // ----- progress -----

  /** In a described state with settled code no run-time check fails. */
  lemma DescribedIsSafe(m: Method, t: Table, s: State)
    requires JsrFree(m) && PostFixpoint(m, t) && Described(m, t, s)
    ensures Safe(m, s)
  {
    if s.Running? {
      var i, ins := s.pc, m.code[s.pc];
      var f, fl := t[i].frame.value, t[i].flags;
      PlainlySettled(m, t, i);
      var ops := Operands(m, ins);
      ExactOperands(m, i);
      assert LegalOperands(m, ins);
      forall k | 0 <= k < |ops| ensures Satisfies(m, s.heap, ops[k], s.stack[k]) {
        assert ops[k] in ops && f.stack[k] in f.stack;
        OperandSound(m, s.heap, ops[k], s.stack[k], f.stack[k]);
      }
      if ins.Stack? {
        ShuffleSound(m, s.heap, ins.op, s.stack, f.stack);
      }
      RegistersSafe(m, s, f, fl, ins);
    }
  }

  lemma RegistersSafe(m: Method, s: State, f: Frame, fl: Flags, ins: Instr)
    requires JsrFree(m) && s.Running? && DescribedBy(m, s, f, fl) && HalvesAgree(s.regs)
    requires LegalOperands(m, ins) && RegistersReadable(ins, f.regs) && FlagsAllow(ins, fl)
    requires |f.stack| >= |Operands(m, ins)| && CrossChecks(m, s.pc, ins, f.stack)
    ensures RegisterCheck(m, ins, s.regs) && ReturnCheck(m, s, ins)
  {
  }

  // ----- the heap changes under typed values -----

  lemma GrowsSound(m: Method, a: Heap, b: Heap, v: Value, t: Type)
    requires HasType(m, a, v, t) && Grows(a, b)
    ensures HasType(m, b, v, t)
  {
  }

  /** Making a new object leaves every value typed, older objects of the same `new` aside. */
  lemma CreatesSound(m: Method, a: Heap, b: Heap, i: nat, c: Type, o: nat, v: Value, t: Type)
    requires HasType(m, a, v, t) && Creates(i, c, a, b, o) && t != NewObject(i)
    ensures HasType(m, b, v, t)
  {
  }

  /** Running a constructor turns exactly the cells typed as its object into ordinary ones. */
  lemma InitializesSound(m: Method, a: Heap, b: Heap, r: Value, from: Type, v: Value, t: Type)
    requires from.NewObject? || from.InitObject?
    requires HasType(m, a, r, from) && HasType(m, a, v, t) && Initializes(a, b, r.id)
    ensures HasType(m, b, v, if t == from then InitializedAs(m, from) else t)
  {
    if t == from {
      Lattice.ConformsTransitive(m.current, m.current, m.current);
    }
  }

  lemma AllGrow(m: Method, a: Heap, b: Heap, vs: seq<Value>, ts: seq<Type>)
    requires AllTyped(m, a, vs, ts) && Grows(a, b)
    ensures AllTyped(m, b, vs, ts)
  {
    forall k | 0 <= k < |ts| ensures HasType(m, b, vs[k], ts[k]) {
      GrowsSound(m, a, b, vs[k], ts[k]);
    }
  }

  lemma AllCreate(m: Method, a: Heap, b: Heap, i: nat, c: Type, o: nat, vs: seq<Value>, ts: seq<Type>)
    requires AllTyped(m, a, vs, ts) && Creates(i, c, a, b, o)
    ensures AllTyped(m, b, vs, Replace(ts, NewObject(i), Bogus))
    ensures NewObject(i) !in ts ==> AllTyped(m, b, vs, ts)
  {
    forall k | 0 <= k < |ts| && ts[k] != NewObject(i) ensures HasType(m, b, vs[k], ts[k]) {
      CreatesSound(m, a, b, i, c, o, vs[k], ts[k]);
    }
  }

  lemma AllInitialize(m: Method, a: Heap, b: Heap, r: Value, from: Type, vs: seq<Value>, ts: seq<Type>)
    requires from.NewObject? || from.InitObject?
    requires HasType(m, a, r, from) && AllTyped(m, a, vs, ts) && Initializes(a, b, r.id)
    ensures AllTyped(m, b, vs, Replace(ts, from, InitializedAs(m, from)))
  {
    forall k | 0 <= k < |ts| ensures HasType(m, b, vs[k], Replace(ts, from, InitializedAs(m, from))[k]) {
      InitializesSound(m, a, b, r, from, vs[k], ts[k]);
    }
  }

  // ----- preservation: the registers -----

  lemma StoreSound(m: Method, s: State, f: Frame, fl: Flags, i: nat, n: int)
    requires JsrFree(m) && s.Running? && s.pc == i < |m.code| && m.code[i].Store? && Safe(m, s)
    requires DescribedBy(m, s, f, fl) && OperandsAccepted(m, i, m.code[i], f.stack)
    ensures |RegistersAfter(m, s, n)| == |s.regs|
    ensures AllTyped(m, s.heap, RegistersAfter(m, s, n), UpdateRegisters(m, i, m.code[i], f))
  {
    var ins := m.code[i];
    var ops := Operands(m, ins);
    assert Accepts(m, ops[0], f.stack[0]);
    assert HasType(m, s.heap, s.stack[0], f.stack[0]);
    var regs, types := RegistersAfter(m, s, n), UpdateRegisters(m, i, ins, f);
    if ins.kind.KLong? || ins.kind.KDouble? {
      var r := SetRegister(f.regs, ins.local, f.stack[0]);
      forall k | 0 <= k < |types| ensures HasType(m, s.heap, regs[k], types[k]) {
        if k != ins.local && k != ins.local + 1 && k < |f.regs| {
          assert types[k] == f.regs[k] && regs[k] == s.regs[k];
        }
      }
    } else {
      forall k | 0 <= k < |types| ensures HasType(m, s.heap, regs[k], types[k]) {
        if k != ins.local && k < |f.regs| {
          assert types[k] == f.regs[k] && regs[k] == s.regs[k];
        }
      }
    }
  }

  lemma IncrementSound(m: Method, s: State, f: Frame, fl: Flags, n: int)
    requires JsrFree(m) && s.Running? && s.pc < |m.code| && Safe(m, s) && !m.code[s.pc].Store?
    requires DescribedBy(m, s, f, fl) && RegistersReadable(m.code[s.pc], f.regs)
    ensures |RegistersAfter(m, s, n)| == |s.regs|
    ensures AllTyped(m, s.heap, RegistersAfter(m, s, n), f.regs)
  {
  }

  lemma HalvesKept(m: Method, s: State, n: int)
    requires s.Running? && s.pc < |m.code| && Safe(m, s) && HalvesAgree(s.regs)
    ensures HalvesAgree(RegistersAfter(m, s, n))
  {
  }

  /** The receiver of an invokeinit, as a typed value. */
  lemma ReceiverTyped(m: Method, s: State, f: Frame, fl: Flags, i: nat)
    requires JsrFree(m) && s.Running? && s.pc == i < |m.code| && m.code[i].InvokeInit?
    requires DescribedBy(m, s, f, fl) && OperandsAccepted(m, i, m.code[i], f.stack)
    ensures var k := |Operands(m, m.code[i])| - 1;
            && 0 <= k < |s.stack| && k < |f.stack|
            && (f.stack[k].NewObject? || f.stack[k].InitObject?)
            && HasType(m, s.heap, s.stack[k], f.stack[k])
  {
    var ops := Operands(m, m.code[i]);
    assert Accepts(m, ops[|ops| - 1], f.stack[|ops| - 1]);
  }

  lemma RegistersSound(m: Method, s: State, u: State, f: Frame, fl: Flags, n: int)
    requires JsrFree(m) && s.Running? && u.Running? && s.pc < |m.code| && Safe(m, s)
    requires DescribedBy(m, s, f, fl) && RegistersReadable(m.code[s.pc], f.regs)
    requires OperandsAccepted(m, s.pc, m.code[s.pc], f.stack)
    requires Executes(m, s, u) && u.regs == RegistersAfter(m, s, n)
    ensures |u.regs| == m.maxLocals
    ensures AllTyped(m, u.heap, u.regs, UpdateRegisters(m, s.pc, m.code[s.pc], f))
  {
    hide HasType, Safe, Operands, RegistersReadable, Produces;
    var i, ins := s.pc, m.code[s.pc];
    if ins.Store? {
      StoreSound(m, s, f, fl, i, n);
      AllGrow(m, s.heap, u.heap, u.regs, UpdateRegisters(m, i, ins, f));
    } else if ins.New? {
      AllCreate(m, s.heap, u.heap, i, ins.created, u.stack[0].id, s.regs, f.regs);
    } else if ins.InvokeInit? {
      var k := |Operands(m, ins)| - 1;
      ReceiverTyped(m, s, f, fl, i);
      AllInitialize(m, s.heap, u.heap, s.stack[k], f.stack[k], s.regs, f.regs);
    } else {
      IncrementSound(m, s, f, fl, n);
      AllGrow(m, s.heap, u.heap, u.regs, f.regs);
    }
  }

  // ----- preservation: the stack -----

  lemma PushedSound(m: Method, s: State, st: Heap, f: Frame, fl: Flags, v: Value)
    requires JsrFree(m) && s.Running? && s.pc < |m.code| && Safe(m, s) && DescribedBy(m, s, f, fl)
    requires RegistersReadable(m.code[s.pc], f.regs) && OperandsAccepted(m, s.pc, m.code[s.pc], f.stack)
    requires Grows(s.heap, st) && Produces(m, s, st, m.code[s.pc], v)
    ensures Pushed(m, s.pc, m.code[s.pc], f).Some?
    ensures HasType(m, st, v, Pushed(m, s.pc, m.code[s.pc], f).value)
  {
    var ins := m.code[s.pc];
    assert LegalOperands(m, ins);
    match ins
    case Load(k, n) =>
      assert HasType(m, s.heap, s.regs[n], f.regs[n]);
      GrowsSound(m, s.heap, st, v, f.regs[n]);
    case AaLoad =>
      assert Accepts(m, Operands(m, ins)[1], f.stack[1]);
      assert HasType(m, s.heap, s.stack[1], f.stack[1]);
      ElementSound(m, s.heap, st, s.stack[1], f.stack[1], v);
    case _ =>
  }

  /** An element of an array has the type of an element of whatever the array is typed as. */
  lemma ElementSound(m: Method, hp: Heap, st: Heap, a: Value, t: Type, v: Value)
    requires a.VRef? && HasType(m, hp, a, t)
    requires (t.Obj? && t.dims > 0) || (t.PrimArray? && t.more > 0)
    requires var r := hp.objects[a.id].rtype;
             ((r.Obj? && r.dims > 0) || r.PrimArray?) && HasType(m, st, v, DecrementIndirection(r))
    ensures HasType(m, st, v, DecrementIndirection(t))
  {
    var r := hp.objects[a.id].rtype;
    Lattice.DecrementConforms(r, t);
    if IsInitialized(st, v) {
      Lattice.ConformsTransitive(st.objects[v.id].rtype, DecrementIndirection(r), DecrementIndirection(t));
    }
  }

  lemma PushesNothingAgrees(m: Method, i: nat, f: Frame)
    requires i < |m.code| && RegistersReadable(m.code[i], f.regs) && OperandsAccepted(m, i, m.code[i], f.stack)
    ensures !m.code[i].Stack? ==> (PushesNothing(m.code[i]) <==> Pushed(m, i, m.code[i], f).None?)
  {
  }

  /** Instructions other than the stack operations, `new` and invokeinit. */
  lemma PlainStackSound(m: Method, s: State, u: State, f: Frame, fl: Flags)
    requires JsrFree(m) && s.Running? && u.Running? && s.pc < |m.code| && Safe(m, s)
    requires DescribedBy(m, s, f, fl) && RegistersReadable(m.code[s.pc], f.regs)
    requires OperandsAccepted(m, s.pc, m.code[s.pc], f.stack) && Executes(m, s, u)
    requires !m.code[s.pc].Stack? && !m.code[s.pc].New? && !m.code[s.pc].InvokeInit?
    ensures var ts := UpdateStack(m, s.pc, m.code[s.pc], f).value;
            |u.stack| == |ts| && AllTyped(m, u.heap, u.stack, ts)
  {
    hide HasType, Satisfies, Operands, RegistersReadable, RegistersAfter, Pushed, PushesNothing, Produces;
    var ins := m.code[s.pc];
    var k := |Operands(m, ins)|;
    var vs, ts := s.stack[k..], f.stack[k..];
    assert AllTyped(m, s.heap, vs, ts);
    PushesNothingAgrees(m, s.pc, f);
    AllGrow(m, s.heap, u.heap, vs, ts);
    if !PushesNothing(ins) {
      PushedSound(m, s, u.heap, f, fl, u.stack[0]);
      assert u.stack == [u.stack[0]] + vs;
    }
  }

  lemma StackSound(m: Method, s: State, u: State, f: Frame, fl: Flags)
    requires JsrFree(m) && s.Running? && u.Running? && s.pc < |m.code| && Safe(m, s)
    requires DescribedBy(m, s, f, fl) && RegistersReadable(m.code[s.pc], f.regs) && Bogus !in f.stack
    requires OperandsAccepted(m, s.pc, m.code[s.pc], f.stack)
    requires UpdateStack(m, s.pc, m.code[s.pc], f).Some? && Executes(m, s, u)
    ensures var ts := UpdateStack(m, s.pc, m.code[s.pc], f).value;
            |u.stack| == |ts| && AllTyped(m, u.heap, u.stack, ts)
  {
    hide HasType, Satisfies, RegistersReadable, RegistersAfter, Produces, StackPicks;
    var i, ins := s.pc, m.code[s.pc];
    var k := |Operands(m, ins)|;
    var vs, ts := s.stack[k..], f.stack[k..];
    assert AllTyped(m, s.heap, vs, ts);
    if ins.Stack? {
      ShuffleSound(m, s.heap, ins.op, s.stack, f.stack);
      AllGrow(m, s.heap, u.heap, u.stack, Shuffle(ins.op, IsWide, f.stack).value);
    } else if ins.New? {
      assert NewObject(i) !in ts;
      AllCreate(m, s.heap, u.heap, i, ins.created, u.stack[0].id, vs, ts);
      NewIsTyped(m, s.heap, u.heap, i, u.stack[0]);
      assert u.stack == [u.stack[0]] + vs;
    } else if ins.InvokeInit? {
      ReceiverTyped(m, s, f, fl, i);
      AllInitialize(m, s.heap, u.heap, s.stack[k - 1], f.stack[k - 1], vs, ts);
    } else {
      PlainStackSound(m, s, u, f, fl);
    }
  }

  lemma NewIsTyped(m: Method, a: Heap, b: Heap, i: nat, v: Value)
    requires i < |m.code| && m.code[i].New? && v.VRef? && Creates(i, m.code[i].created, a, b, v.id)
    ensures HasType(m, b, v, NewObject(i))
  {
  }

  // ----- preservation: a whole step -----

  lemma ExecutesSound(m: Method, s: State, u: State, f: Frame, fl: Flags)
    requires JsrFree(m) && s.Running? && u.Running? && s.pc < |m.code| && Safe(m, s)
    requires DescribedBy(m, s, f, fl) && HalvesAgree(s.regs) && Bogus !in f.stack
    requires Execute(m, s.pc, f, true).Some? && Executes(m, s, u)
    ensures DescribedBy(m, u, Execute(m, s.pc, f, true).value, UpdateFlags(m, m.code[s.pc], f, fl))
    ensures HalvesAgree(u.regs)
  {
    hide HasType, Satisfies, Operands, OperandsAccepted, RegistersReadable, RegistersAfter, UpdateStack, UpdateRegisters, Produces;
    var n :| u.regs == RegistersAfter(m, s, n);
    StackSound(m, s, u, f, fl);
    RegistersSound(m, s, u, f, fl, n);
    HalvesKept(m, s, n);
    if m.code[s.pc].InvokeInit? {
      ReceiverTyped(m, s, f, fl, s.pc);
    }
  }

  /** The flow to a handler that a thrown exception follows. */
  lemma {:induction false} HandlerFlowExists(m: Method, i: nat, before: Frame, after: Frame, fl: Flags, flAfter: Flags, hs: seq<Handler>, h: Handler)
    requires i < |m.code| && h in hs && Covers(h, i)
    ensures var flows := HandlerFlows(m, i, before, after, fl, flAfter, hs);
            && Flow(h.handler, Frame([h.catchType], before.regs, before.masks), fl) in flows
            && (m.code[i].InvokeInit? ==>
                 Flow(h.handler, Frame([h.catchType], after.regs, after.masks), flAfter) in flows
                 || Flow(h.handler, Frame([h.catchType], after.regs, after.masks), flAfter.(noReturn := true)) in flows)
  {
    if h != hs[0] {
      HandlerFlowExists(m, i, before, after, fl, flAfter, hs[1..], h);
    }
  }

  lemma ThrowsBefore(m: Method, s: State, u: State, h: Handler, f: Frame, fl: Flags)
    requires JsrFree(m) && s.Running? && u.Running? && s.pc < |m.code| && Safe(m, s)
    requires DescribedBy(m, s, f, fl) && Throws(m, s, u, h) && LegalHandler(m, h)
    requires Grows(s.heap, u.heap) && u.constructed == s.constructed
    ensures DescribedBy(m, u, Frame([h.catchType], f.regs, f.masks), fl)
  {
    hide HasType, Safe, Operands;
    AllGrow(m, s.heap, u.heap, s.regs, f.regs);
  }

  lemma ThrowsAfter(m: Method, s: State, u: State, h: Handler, f: Frame, fl: Flags)
    requires JsrFree(m) && s.Running? && u.Running? && s.pc < |m.code| && Safe(m, s)
    requires DescribedBy(m, s, f, fl) && Throws(m, s, u, h) && LegalHandler(m, h)
    requires OperandsAccepted(m, s.pc, m.code[s.pc], f.stack)
    requires !(Grows(s.heap, u.heap) && u.constructed == s.constructed)
    ensures var ins := m.code[s.pc];
            && ins.InvokeInit?
            && DescribedBy(m, u, Frame([h.catchType], UpdateRegisters(m, s.pc, ins, f), UpdateMasks(m, s.pc, ins, f, true)), UpdateFlags(m, ins, f, fl))
  {
    hide Satisfies, Operands, Safe, UpdateStack, RegistersReadable, HasType, OperandsAccepted;
    var ins := m.code[s.pc];
    var k := |Operands(m, ins)| - 1;
    ReceiverTyped(m, s, f, fl, s.pc);
    AllInitialize(m, s.heap, u.heap, s.stack[k], f.stack[k], s.regs, f.regs);
    MakerOf(m, s.heap, s.stack[k], f.stack[k]);
  }

  lemma MakerOf(m: Method, hp: Heap, v: Value, t: Type)
    requires HasType(m, hp, v, t) && (t.NewObject? || t.InitObject?)
    ensures v.VRef? && v.id in hp.objects && (hp.objects[v.id].maker.Self? <==> t.InitObject?)
  {
  }

  lemma ThrowsSound(m: Method, t: Table, s: State, u: State, h: Handler)
    requires JsrFree(m) && PostFixpoint(m, t) && Described(m, t, s)
    requires s.Running? && u.Running? && s.pc < |m.code| && Safe(m, s) && Throws(m, s, u, h)
    ensures Described(m, t, u)
  {
    hide HasType, Satisfies, Operands, OperandsAccepted, RegistersReadable, UpdateStack, UpdateRegisters, HandlerFlows, FrameBelow, FlagsBelow, DescribedBy, Safe;
    var i := s.pc;
    var f, fl := t[i].frame.value, t[i].flags;
    PlainlySettled(m, t, i);
    var after := Execute(m, i, f, true).value;
    var flAfter := UpdateFlags(m, m.code[i], f, fl);
    HandlerFlowExists(m, i, f, after, fl, flAfter, m.handlers, h);
    var flows := Flows(m, i, f, fl, true).value;
    assert LegalHandler(m, h);
    if Grows(s.heap, u.heap) && u.constructed == s.constructed {
      var g := Flow(h.handler, Frame([h.catchType], f.regs, f.masks), fl);
      assert g in flows;
      ThrowsBefore(m, s, u, h, f, fl);
      FrameBelowSound(m, u, g.frame, fl, t[h.handler].frame.value, t[h.handler].flags);
    } else {
      ThrowsAfter(m, s, u, h, f, fl);
      var g :| g in flows && g.to == h.handler && g.frame == Frame([h.catchType], after.regs, after.masks)
               && (g.flags == flAfter || g.flags == flAfter.(noReturn := true));
      NoReturnAside(m, u, g.frame, flAfter, g.flags);
      FrameBelowSound(m, u, g.frame, g.flags, t[h.handler].frame.value, t[h.handler].flags);
    }
  }

  lemma NoReturnAside(m: Method, u: State, f: Frame, fl: Flags, gl: Flags)
    requires u.Running? && DescribedBy(m, u, f, fl) && (gl == fl || gl == fl.(noReturn := true))
    ensures DescribedBy(m, u, f, gl)
  {
  }

  /** Every step out of a described state leads to a described state. */
  lemma StepKeepsDescribed(m: Method, t: Table, s: State, u: State)
    requires JsrFree(m) && PostFixpoint(m, t) && Described(m, t, s) && Step(m, s, u)
    ensures Described(m, t, u)
  {
    hide HasType, Safe, Operands, OperandsAccepted, RegistersReadable, UpdateStack, UpdateRegisters, HandlerFlows, FrameBelow, FlagsBelow, DescribedBy, Execute, Throws;
    if u.Running? {
      if Executes(m, s, u) {
        var i := s.pc;
        var f, fl := t[i].frame.value, t[i].flags;
        PlainlySettled(m, t, i);
        ExecutesSound(m, s, u, f, fl);
        var after := Execute(m, i, f, true).value;
        var flAfter := UpdateFlags(m, m.code[i], f, fl);
        var succ := Successors(m.code[i], i);
        var k :| 0 <= k < |succ| && succ[k] == u.pc;
        var g := Flow(u.pc, after, flAfter);
        var flows := Flows(m, i, f, fl, true).value;
        assert flows[|flows| - |succ| + k] == g;
        FrameBelowSound(m, u, after, flAfter, t[u.pc].frame.value, t[u.pc].flags);
      } else {
        var h :| Throws(m, s, u, h);
        ThrowsSound(m, t, s, u, h);
      }
    }
  }

  lemma StartIsDescribed(m: Method, t: Table, s: State)
    requires JsrFree(m) && PostFixpoint(m, t) && Starts(m, s)
    ensures Described(m, t, s)
  {
    FrameBelowSound(m, s, EntryFrame(m), EntryFlags(m), t[0].frame.value, t[0].flags);
  }

  // ----- the theorems -----

  /** Type safety: in every run of accepted code every state is described and safe. */
  lemma {:induction false} TypeSafety(m: Method, t: Table, states: seq<State>)
    requires JsrFree(m) && PostFixpoint(m, t) && Run(m, states)
    ensures forall k | 0 <= k < |states| :: Described(m, t, states[k]) && Safe(m, states[k])
  {
    if |states| == 1 {
      StartIsDescribed(m, t, states[0]);
      DescribedIsSafe(m, t, states[0]);
    } else {
      var n := |states| - 1;
      TypeSafety(m, t, states[..n]);
      assert Described(m, t, states[..n][n - 1]);
      StepKeepsDescribed(m, t, states[n - 1], states[n]);
      DescribedIsSafe(m, t, states[n]);
      forall k | 0 <= k < n ensures Described(m, t, states[k]) && Safe(m, states[k]) {
        assert states[..n][k] == states[k];
      }
    }
  }
}
