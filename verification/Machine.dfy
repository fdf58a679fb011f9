/**
 A defensive virtual machine for one activation of a method without subroutines: every instruction says which
 run-time checks it would need, and which states may follow when they hold.
 */
module Machine {
  import opened Types
  import opened Bytecode

  /**
   Run-time values.  A two-word value is a whole on the stack; in the registers its halves
   carry the number of the store that wrote them.
   */
  datatype Value =
    | VJunk
    | VInt(n: int)
    | VFloat(bits: int)
    | VLong(bits: int, store: nat) | VLong2(bits: int, store: nat)
    | VDouble(bits: int, store: nat) | VDouble2(bits: int, store: nat)
    | VNull
    | VRef(id: nat)

  datatype Maker = Elsewhere | MadeBy(inumber: nat) | Self

  type RuntimeType = t: Type | t.Obj? || t.PrimArray? witness OBJECT

  /** An object, whether its constructor has run, and what made it. */
  datatype Object = Object(rtype: RuntimeType, initialized: bool, maker: Maker)

  /** `latest[i]` is the newest object made by the `new` instruction i of this activation. */
  datatype Heap = Heap(objects: map<nat, Object>, latest: map<nat, nat>, self: nat)

  datatype State =
    | Running(pc: nat, stack: seq<Value>, regs: seq<Value>, heap: Heap, constructed: bool, clock: nat)
    | Finished

  predicate WideValue(v: Value) {
    v.VLong? || v.VDouble?
  }

  predicate IsInitialized(st: Heap, v: Value) {
    v.VRef? && v.id in st.objects && st.objects[v.id].initialized
  }

  predicate IsUninitialized(st: Heap, v: Value) {
    v.VRef? && v.id in st.objects && !st.objects[v.id].initialized
  }

  predicate IsPrimitive(v: Value, t: Type) {
    match t
    case Integer => v.VInt?
    case Float => v.VFloat?
    case Long => v.VLong?
    case Double => v.VDouble?
    case _ => false
  }

  /** The meaning of a verification type. */
  predicate HasType(m: Method, st: Heap, v: Value, t: Type) {
    match t
    case Bogus => true
    case Void => false
    case ReturnAddress(_) => false
    case Long2 => v.VLong2?
    case Double2 => v.VDouble2?
    case Null => v.VNull?
    case Obj(_, _) => v.VNull? || (IsInitialized(st, v) && Conforms(st.objects[v.id].rtype, t))
    case PrimArray(_, _) => v.VNull? || (IsInitialized(st, v) && Conforms(st.objects[v.id].rtype, t))
    case NewObject(i) =>
      && IsUninitialized(st, v)
      && i in st.latest && st.latest[i] == v.id
      && st.objects[v.id].maker == MadeBy(i)
      && i < |m.code| && m.code[i] == New(st.objects[v.id].rtype)
    case InitObject =>
      && IsUninitialized(st, v)
      && v.id == st.self
      && st.objects[v.id].maker == Self
      && Conforms(st.objects[v.id].rtype, m.current)
    case _ => IsPrimitive(v, t)
  }

  // ----- run-time checks -----

  /** The check an operand would need at run time. */
  predicate Satisfies(m: Method, st: Heap, op: Operand, v: Value) {
    match op
    case Exactly(t) => IsPrimitive(v, t)
    case Reference(targets, uninitialized) =>
      || v.VNull?
      || (IsInitialized(st, v) && forall g | g in targets :: Conforms(st.objects[v.id].rtype, g))
      || (uninitialized && IsUninitialized(st, v))
    case Storable => v.VNull? || IsInitialized(st, v) || IsUninitialized(st, v)
    case ObjectOnly(g) => v.VNull? || (IsInitialized(st, v) && Conforms(st.objects[v.id].rtype, g))
    case PrimitiveArray(elems) =>
      || v.VNull?
      || (IsInitialized(st, v)
          && var t := st.objects[v.id].rtype; t.PrimArray? && t.more == 0 && t.prim in elems)
    case ReferenceArray =>
      || v.VNull?
      || (IsInitialized(st, v)
          && var t := st.objects[v.id].rtype; (t.Obj? && t.dims > 0) || (t.PrimArray? && t.more > 0))
    case AnyArray =>
      || v.VNull?
      || (IsInitialized(st, v)
          && var t := st.objects[v.id].rtype; (t.Obj? && t.dims > 0) || t.PrimArray?)
    case Uninitialized(c) =>
      && IsUninitialized(st, v)
      && var o := st.objects[v.id];
         || (o.maker.MadeBy? && o.rtype == c)
         || (o.maker.Self? && (m.super == Some(c) || m.current == c))
    case FieldOwner(c, declared) =>
      || v.VNull?
      || (IsInitialized(st, v) && Conforms(st.objects[v.id].rtype, c))
      || (declared && IsUninitialized(st, v) && st.objects[v.id].maker.Self?
          && Conforms(st.objects[v.id].rtype, c))
  }

  predicate RegisterCheck(m: Method, ins: Instr, regs: seq<Value>) {
    match ins
    case Iinc(n) => n < |regs| && regs[n].VInt?
    case Load(KRef, n) => n < |regs| && (regs[n].VNull? || regs[n].VRef?)
    case Load(KLong, n) =>
      n + 1 < |regs| && regs[n].VLong? && regs[n + 1] == VLong2(regs[n].bits, regs[n].store)
    case Load(KDouble, n) =>
      n + 1 < |regs| && regs[n].VDouble? && regs[n + 1] == VDouble2(regs[n].bits, regs[n].store)
    case Load(k, n) => n < |regs| && IsPrimitive(regs[n], KindType(k))
    case Store(k, n) => n + (if k.KLong? || k.KDouble? then 1 else 0) < |regs|
    case _ => true
  }

  predicate ReturnCheck(m: Method, s: State, ins: Instr)
    requires s.Running?
  {
    match ins
    case ReturnVoid => m.returnType.Void? && (m.receiver.UnderConstruction? ==> s.constructed)
    case Return(k) => k.KRef? || KindType(k) == m.returnType
    case _ => true
  }

  /** The instruction at hand can be executed without any of its checks failing. */
  predicate Safe(m: Method, s: State) {
    s.Running? ==>
      && s.pc < |m.code|
      && var ins := m.code[s.pc];
         var ops := Operands(m, ins);
         && (forall t | t in Successors(ins, s.pc) :: t < |m.code|)
         && |s.stack| >= |ops|
         && (forall k | 0 <= k < |ops| :: Satisfies(m, s.heap, ops[k], s.stack[k]))
         && (ins.Stack? ==> Shuffle(ins.op, WideValue, s.stack).Some?)
         && RegisterCheck(m, ins, s.regs)
         && ReturnCheck(m, s, ins)
  }

  // ----- steps -----

  /** Other code may allocate, but leaves the objects of this activation as they are. */
  predicate Grows(a: Heap, b: Heap) {
    && (forall o | o in a.objects :: o in b.objects && b.objects[o] == a.objects[o])
    && (forall o | o in b.objects && o !in a.objects :: b.objects[o].maker == Elsewhere)
    && a.latest == b.latest && a.self == b.self
  }

  /** The object instruction i makes is a new one, uninitialised, and now the latest. */
  ghost predicate Creates(i: nat, t: Type, a: Heap, b: Heap, o: nat) {
    && o !in a.objects && o in b.objects
    && b.objects[o].rtype == t && !b.objects[o].initialized && b.objects[o].maker == MadeBy(i)
    && b.latest == a.latest[i := o]
    && Grows(a, Heap(b.objects - {o}, a.latest, b.self))
  }

  predicate Initializes(a: Heap, b: Heap, o: nat) {
    && o in a.objects
    && Grows(Heap(a.objects[o := a.objects[o].(initialized := true)], a.latest, a.self), b)
  }

  /** What an instruction may push; fields, elements and results have their declared types. */
  predicate Produces(m: Method, s: State, st: Heap, ins: Instr, v: Value)
    requires s.Running? && s.pc < |m.code| && ins == m.code[s.pc] && Safe(m, s)
  {
    match ins
    case Compute(_, outs) => outs.Some? && IsPrimitive(v, outs.value)
    case Constant(t) => HasType(m, st, v, t)
    case Load(k, n) => v == s.regs[n]
    case PrimLoad(_, t) => IsPrimitive(v, t)
    case AaLoad =>
      var a := s.stack[1];
      assert Satisfies(m, s.heap, Operands(m, ins)[1], a);
      a.VRef? && HasType(m, st, v, DecrementIndirection(s.heap.objects[a.id].rtype))
    case ArrayLength => v.VInt?
    case GetStatic(t) => HasType(m, st, v, t)
    case GetField(_, t) => HasType(m, st, v, t)
    case Invoke(_, _, _, r) => r.Some? && HasType(m, st, v, r.value)
    case NewArray(_, t) => v.VRef? && HasType(m, st, v, t)
    case CheckCast(t) => v == s.stack[0] && HasType(m, st, v, t)
    case InstanceOf => v.VInt?
    case _ => false
  }

  predicate PushesNothing(ins: Instr) {
    match ins
    case Compute(_, outs) => outs.None?
    case Invoke(_, _, _, r) => r.None?
    case Constant(_) => false
    case Load(_, _) => false
    case PrimLoad(_, _) => false
    case AaLoad => false
    case ArrayLength => false
    case GetStatic(_) => false
    case GetField(_, _) => false
    case New(_) => false
    case NewArray(_, _) => false
    case CheckCast(_) => false
    case InstanceOf => false
    case Jsr(_) => false
    case _ => true
  }

  function StoreHalves(regs: seq<Value>, n: nat, v: Value, clock: nat): seq<Value>
    requires n + 1 < |regs|
  {
    match v
    case VLong(bits, _) => regs[n := VLong(bits, clock)][n + 1 := VLong2(bits, clock)]
    case VDouble(bits, _) => regs[n := VDouble(bits, clock)][n + 1 := VDouble2(bits, clock)]
    case _ => regs
  }

  /** The registers after an instruction, with `n` the new value of an incremented one. */
  function RegistersAfter(m: Method, s: State, n: int): seq<Value>
    requires s.Running? && s.pc < |m.code| && Safe(m, s)
  {
    match m.code[s.pc]
    case Store(k, x) =>
      if k.KLong? || k.KDouble? then StoreHalves(s.regs, x, s.stack[0], s.clock)
      else s.regs[x := s.stack[0]]
    case Iinc(x) => s.regs[x := VInt(n)]
    case _ => s.regs
  }

  /** Normal completion of the instruction at hand. */
  ghost predicate Executes(m: Method, s: State, u: State)
    requires s.Running? && u.Running? && s.pc < |m.code| && Safe(m, s)
  {
    var ins := m.code[s.pc];
    var k := |Operands(m, ins)|;
    var rest := s.stack[k..];
    && u.pc in Successors(ins, s.pc)
    && u.clock == s.clock + 1
    && (exists n :: u.regs == RegistersAfter(m, s, n))
    && (if ins.Stack? then u.stack == Shuffle(ins.op, WideValue, s.stack).value
        else if PushesNothing(ins) then u.stack == rest
        else
          && u.stack != [] && u.stack[1..] == rest
          && (if ins.New? then u.stack[0].VRef? else Produces(m, s, u.heap, ins, u.stack[0])))
    && (if ins.New? then Creates(s.pc, ins.created, s.heap, u.heap, u.stack[0].id)
        else if ins.InvokeInit? then Initializes(s.heap, u.heap, s.stack[k - 1].id)
        else Grows(s.heap, u.heap))
    && u.constructed ==
       (s.constructed || (ins.InvokeInit? && s.heap.objects[s.stack[k - 1].id].maker.Self?))
  }

  /** Abrupt completion into a handler that covers the instruction. */
  ghost predicate Throws(m: Method, s: State, u: State, h: Handler)
    requires s.Running? && u.Running? && s.pc < |m.code| && Safe(m, s)
  {
    var ins := m.code[s.pc];
    && h in m.handlers && Covers(h, s.pc)
    && u.pc == h.handler && u.regs == s.regs && u.clock == s.clock
    && |u.stack| == 1 && u.stack[0].VRef? && HasType(m, u.heap, u.stack[0], h.catchType)
    && (|| (Grows(s.heap, u.heap) && u.constructed == s.constructed)
        || (ins.InvokeInit? && var o := s.stack[|Operands(m, ins)| - 1].id;
            // the constructor had already run when the exception was thrown
            && Initializes(s.heap, u.heap, o)
            && u.constructed == (s.constructed || s.heap.objects[o].maker.Self?)))
  }

  ghost predicate Step(m: Method, s: State, u: State) {
    && s.Running? && Safe(m, s)
    && (|| (u.Running? && Executes(m, s, u))
        || (u.Running? && exists h :: Throws(m, s, u, h))
        || u.Finished?)
  }

  /** The values local 0 and the argument registers may start with. */
  ghost predicate Starts(m: Method, s: State) {
    && s.Running? && s.pc == 0 && s.stack == [] && |s.regs| == m.maxLocals
    && !s.constructed && s.heap.latest == map[]
    && |EntryRegisters(m)| <= |s.regs|
    && (forall k | 0 <= k < |EntryRegisters(m)| :: HasType(m, s.heap, s.regs[k], EntryRegisters(m)[k]))
    && HalvesAgree(s.regs)
  }

  /** Two halves that stand next to each other were written by one store. */
  predicate HalvesAgree(regs: seq<Value>) {
    forall n | 0 <= n < |regs| - 1 ::
      && (regs[n].VLong? && regs[n + 1].VLong2? ==> regs[n + 1] == VLong2(regs[n].bits, regs[n].store))
      && (regs[n].VDouble? && regs[n + 1].VDouble2? ==> regs[n + 1] == VDouble2(regs[n].bits, regs[n].store))
  }

  ghost predicate Run(m: Method, states: seq<State>) {
    && states != [] && Starts(m, states[0])
    && forall k | 0 <= k < |states| - 1 :: Step(m, states[k], states[k + 1])
  }
}
