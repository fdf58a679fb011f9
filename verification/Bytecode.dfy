/**
 Methods as the dataflow analysis of check_code.c sees them: numbered instructions with
 canonical opcodes and resolved operands, and what one instruction does to a recorded
 stack and register set and to the masks of the subroutines it is in.
 */
module Bytecode {
  import opened Types

  datatype Kind = KInt | KFloat | KLong | KDouble | KRef

  datatype StackOp = Pop | Pop2 | Dup | DupX1 | DupX2 | Dup2 | Dup2X1 | Dup2X2 | Swap

  datatype Condition = OneInt | TwoInts | OneRef | TwoRefs

  datatype InvokeKind = InvokeVirtual | InvokeSpecial | InvokeStatic | InvokeInterface

  datatype Instr =
    /** Table-driven opcodes on primitives; `ins` lists the operands, last pushed first. */
    | Compute(ins: seq<Type>, outs: Option<Type>)
    /** ldc of any constant, aconst_null. */
    | Constant(constant: Type)
    | Load(kind: Kind, local: nat)
    | Store(kind: Kind, local: nat)
    | Iinc(local: nat)
    | Stack(op: StackOp)
    | PrimLoad(elems: set<Prim>, elem: Type)
    | PrimStore(elems: set<Prim>, elem: Type)
    | AaLoad
    | AaStore
    | ArrayLength
    | Branch(cond: Condition, target: nat)
    | Goto(target: nat)
    | Switch(targets: seq<nat>)
    | ReturnVoid
    | Return(kind: Kind)
    | AThrow
    | GetStatic(field: Type)
    | PutStatic(field: Type)
    | GetField(owner: Type, field: Type)
    /** `declared`: the owner class itself declares the field. */
    | PutField(owner: Type, field: Type, declared: bool)
    | Invoke(how: InvokeKind, owner: Type, params: seq<Type>, result: Option<Type>)
    /** invokespecial of an <init> method. */
    | InvokeInit(owner: Type, params: seq<Type>)
    | New(created: Type)
    /** newarray, anewarray and multianewarray: `counts` ints make one array. */
    | NewArray(counts: nat, created: Type)
    | CheckCast(to: Type)
    | InstanceOf
    /** monitorenter, monitorexit. */
    | Monitor
    | Jsr(target: nat)
    | Ret(local: nat)

  datatype Handler = Handler(start: nat, end: nat, handler: nat, catchType: Type)

  /** How local 0 starts: no receiver, an initialised one, or a constructor's own object. */
  datatype Receiver = NoReceiver | Initialized | UnderConstruction

  datatype Method = Method(
    code: seq<Instr>, handlers: seq<Handler>,
    receiver: Receiver, params: seq<Type>, returnType: Type,
    current: Type, super: Option<Type>, throwable: Type,
    maxStack: nat, maxLocals: nat)

  /** What verify_opcode_operands has settled about one instruction. */
  predicate LegalOperands(m: Method, ins: Instr) {
    match ins
    case Compute(ins, outs) =>
      && (forall t | t in ins :: IsPrimitiveItem(t))
      && (outs.Some? ==> IsPrimitiveItem(outs.value))
    case Constant(t) => IsFieldType(t) || t.Null?
    case Load(k, n) => n + (if k.KLong? || k.KDouble? then 1 else 0) < m.maxLocals
    case Store(k, n) => n + (if k.KLong? || k.KDouble? then 1 else 0) < m.maxLocals
    case Iinc(n) => n < m.maxLocals
    case PrimLoad(_, t) => IsPrimitiveItem(t)
    case PrimStore(_, t) => IsPrimitiveItem(t)
    case Branch(_, t) => t < |m.code|
    case Goto(t) => t < |m.code|
    case Switch(ts) => forall t | t in ts :: t < |m.code|
    case GetStatic(t) => IsFieldType(t)
    case PutStatic(t) => IsFieldType(t)
    case GetField(c, t) => (c.Obj? || c.PrimArray?) && IsFieldType(t)
    case PutField(c, t, _) => (c.Obj? || c.PrimArray?) && IsFieldType(t)
    case Invoke(_, c, ps, r) =>
      && (c.Obj? || c.PrimArray?)
      && (forall t | t in ps :: IsFieldType(t))
      && (r.Some? ==> IsFieldType(r.value))
    case InvokeInit(c, ps) => (c.Obj? || c.PrimArray?) && forall t | t in ps :: IsFieldType(t)
    case New(t) => t.Obj? && t.dims == 0
    case NewArray(_, t) => (t.Obj? && t.dims > 0) || t.PrimArray?
    case CheckCast(t) => t.Obj? || t.PrimArray?
    case Jsr(t) => t < |m.code|
    case Ret(n) => n < m.maxLocals
    case _ => true
  }

  predicate LegalHandler(m: Method, h: Handler) {
    h.start < h.end <= |m.code| && h.handler < |m.code| && h.catchType.Obj?
  }

  /** What the class loader and the earlier passes guarantee before the analysis runs. */
  predicate Legal(m: Method) {
    && m.code != []
    && (forall i | 0 <= i < |m.code| :: LegalOperands(m, m.code[i]))
    && (forall h | h in m.handlers :: LegalHandler(m, h))
    && (forall t | t in m.params :: IsFieldType(t))
    && (IsFieldType(m.returnType) || m.returnType.Void?)
    && m.current.Obj? && m.current.dims == 0
    && |EntryRegisters(m)| <= m.maxLocals
  }

  /** Legal code without subroutines. */
  predicate JsrFree(m: Method) {
    Legal(m) && forall i | 0 <= i < |m.code| :: !m.code[i].Jsr? && !m.code[i].Ret?
  }

  // ----- method entry -----

  /** A register image: a two-word type takes its register and the next one. */
  function RegistersOf(types: seq<Type>): seq<Type> {
    if types == [] then []
    else
      (match types[0]
       case Double => [Double, Double2]
       case Long => [Long, Long2]
       case t => [t]) + RegistersOf(types[1..])
  }

  function EntryRegisters(m: Method): seq<Type> {
    (match m.receiver
     case NoReceiver => []
     case Initialized => [m.current]
     case UnderConstruction => [InitObject]) + RegistersOf(m.params)
  }

  // ----- operands -----

  datatype Operand =
    /** 'I', 'F', 'D', 'L'. */
    | Exactly(t: Type)
    /** 'A', assignable to each target; some opcodes also take uninitialised objects. */
    | Reference(targets: seq<Type>, uninitialized: bool)
    /** 'A' for an astore: also uninitialised objects and return addresses. */
    | Storable
    /** 'O': not an array. */
    | ObjectOnly(target: Type)
    /** "[I]" and its like. */
    | PrimitiveArray(elems: set<Prim>)
    /** "[A]". */
    | ReferenceArray
    /** "[?]". */
    | AnyArray
    /** '@'. */
    | Uninitialized(owner: Type)
    /** The object of a putfield. */
    | FieldOwner(owner: Type, declared: bool)

  predicate Accepts(m: Method, op: Operand, t: Type) {
    match op
    case Exactly(e) => t == e
    case Reference(targets, uninitialized) =>
      || (IsReference(t) && forall g | g in targets :: IsAssignableTo(t, g))
      || (uninitialized && (t.NewObject? || t.InitObject?))
    case Storable => IsReference(t) || t.NewObject? || t.InitObject? || t.ReturnAddress?
    case ObjectOnly(g) => (t.Null? || (t.Obj? && t.dims == 0)) && IsAssignableTo(t, g)
    case PrimitiveArray(elems) => t.Null? || (t.PrimArray? && t.more == 0 && t.prim in elems)
    case ReferenceArray => t.Null? || (t.Obj? && t.dims > 0) || (t.PrimArray? && t.more > 0)
    case AnyArray => t.Null? || (t.Obj? && t.dims > 0) || t.PrimArray?
    case Uninitialized(c) =>
      || (t.NewObject? && t.inumber < |m.code| && m.code[t.inumber] == New(c))
      || (t.InitObject? && (m.super == Some(c) || m.current == c))
    case FieldOwner(c, declared) =>
      || (IsReference(t) && IsAssignableTo(t, c))
      || (t.InitObject? && declared && IsAssignableTo(m.current, c))
  }

  function OperandFor(t: Type): Operand {
    if IsReference(t) then Reference([t], false) else Exactly(t)
  }

  function KindType(k: Kind): Type
    requires !k.KRef?
  {
    match k
    case KInt => Integer
    case KFloat => Float
    case KLong => Long
    case KDouble => Double
  }

  /** The operands declared by a signature, last argument first. */
  function Arguments(params: seq<Type>): seq<Operand> {
    if params == [] then []
    else Arguments(params[1..]) + [OperandFor(params[0])]
  }

  /** The operands an instruction takes from the stack, top first. */
  function Operands(m: Method, ins: Instr): seq<Operand> {
    match ins
    case Compute(ins, _) => seq(|ins|, k requires 0 <= k < |ins| => Exactly(ins[k]))
    case Constant(_) => []
    case Load(_, _) => []
    case Store(k, _) => if k.KRef? then [Storable] else [Exactly(KindType(k))]
    case Iinc(_) => []
    case Stack(_) => []
    case PrimLoad(elems, _) => [Exactly(Integer), PrimitiveArray(elems)]
    case PrimStore(elems, t) => [Exactly(t), Exactly(Integer), PrimitiveArray(elems)]
    case AaLoad => [Exactly(Integer), ReferenceArray]
    case AaStore => [Reference([], false), Exactly(Integer), ReferenceArray]
    case ArrayLength => [AnyArray]
    case Branch(OneInt, _) => [Exactly(Integer)]
    case Branch(TwoInts, _) => [Exactly(Integer), Exactly(Integer)]
    case Branch(OneRef, _) => [Reference([], true)]
    case Branch(TwoRefs, _) => [Reference([], true), Reference([], true)]
    case Goto(_) => []
    case Switch(_) => [Exactly(Integer)]
    case ReturnVoid => []
    case Return(k) => if k.KRef? then [Reference([m.returnType], false)] else [Exactly(KindType(k))]
    case AThrow => [ObjectOnly(m.throwable)]
    case GetStatic(_) => []
    case PutStatic(t) => [OperandFor(t)]
    case GetField(c, _) => [Reference([c], false)]
    case PutField(c, t, declared) => [OperandFor(t), FieldOwner(c, declared)]
    case Invoke(how, c, ps, _) =>
      Arguments(ps) + (match how
                       case InvokeStatic => []
                       case InvokeSpecial => [Reference([c, m.current], false)]
                       case _ => [Reference([c], false)])
    case InvokeInit(c, ps) => Arguments(ps) + [Uninitialized(c)]
    case New(_) => []
    case NewArray(n, _) => seq(n, _ => Exactly(Integer))
    case CheckCast(_) => [Reference([], false)]
    case InstanceOf => [Reference([], false)]
    case Monitor => [Reference([], false)]
    case Jsr(_) => []
    case Ret(_) => []
  }

  /** Items that fill the top two words: one wide one or two narrow ones; 0 when neither. */
  function Pair(wide: seq<bool>): (n: nat)
    ensures n <= |wide| && n <= 2
  {
    if |wide| >= 1 && wide[0] then 1
    else if |wide| >= 2 && !wide[1] then 2
    else 0
  }

  /** A stack operation replaces the top `count` items by the items picked, top first. */
  datatype Picks = Picks(items: seq<nat>, count: nat)

  /** The dup, pop and swap family, from which of the items are wide. */
  function StackPicks(op: StackOp, wide: seq<bool>): (p: Option<Picks>)
    ensures p.Some? ==> p.value.count <= |wide| && forall k | k in p.value.items :: k < p.value.count
  {
    var narrow := |wide| >= 1 && !wide[0];
    var n := Pair(wide);
    match op
    case Pop => if narrow then Some(Picks([], 1)) else None
    case Pop2 => if n > 0 then Some(Picks([], n)) else None
    case Dup => if narrow then Some(Picks([0, 0], 1)) else None
    case DupX1 => if narrow && |wide| >= 2 && !wide[1] then Some(Picks([0, 1, 0], 2)) else None
    case DupX2 =>
      if !narrow then None
      else (match Pair(wide[1..])
            case 1 => Some(Picks([0, 1, 0], 2))
            case 2 => Some(Picks([0, 1, 2, 0], 3))
            case _ => None)
    case Dup2 =>
      (match n
       case 1 => Some(Picks([0, 0], 1))
       case 2 => Some(Picks([0, 1, 0, 1], 2))
       case _ => None)
    case Dup2X1 =>
      if n == 0 || |wide| <= n || wide[n] then None
      else if n == 1 then Some(Picks([0, 1, 0], 2))
      else Some(Picks([0, 1, 2, 0, 1], 3))
    case Dup2X2 =>
      if n == 0 then None
      else
        var q := Pair(wide[n..]);
        if q == 0 then None
        else if n == 1 && q == 1 then Some(Picks([0, 1, 0], 2))
        else if n == 1 then Some(Picks([0, 1, 2, 0], 3))
        else if q == 1 then Some(Picks([0, 1, 2, 0, 1], 3))
        else Some(Picks([0, 1, 2, 3, 0, 1], 4))
    case Swap => if narrow && |wide| >= 2 && !wide[1] then Some(Picks([1, 0], 2)) else None
  }

  function WideFlags<T>(wide: T -> bool, s: seq<T>): seq<bool> {
    seq(|s|, k requires 0 <= k < |s| => wide(s[k]))
  }

  /** A stack operation on items, top first: types in the analysis, values at run time. */
  function Shuffle<T>(op: StackOp, wide: T -> bool, s: seq<T>): Option<seq<T>> {
    match StackPicks(op, WideFlags(wide, s))
    case None => None
    case Some(p) =>
      assert forall k | 0 <= k < |p.items| :: p.items[k] in p.items;
      Some(seq(|p.items|, k requires 0 <= k < |p.items| => s[p.items[k]]) + s[p.count..])
  }

  // ----- the effect of one instruction on a recorded frame -----

  /** A subroutine an instruction is in, and the registers it may have changed. */
  datatype Mask = Mask(entry: nat, changed: set<nat>)

  datatype Frame = Frame(stack: seq<Type>, regs: seq<Type>, masks: seq<Mask>)

  function StackWords(stack: seq<Type>): nat {
    if stack == [] then 0 else Words(stack[0]) + StackWords(stack[1..])
  }

  /** check_register_values. */
  predicate RegistersReadable(ins: Instr, regs: seq<Type>) {
    match ins
    case Iinc(n) => n < |regs| && regs[n].Integer?
    case Load(KInt, n) => n < |regs| && regs[n].Integer?
    case Load(KFloat, n) => n < |regs| && regs[n].Float?
    case Load(KRef, n) =>
      n < |regs| && (IsReference(regs[n]) || regs[n].InitObject? || regs[n].NewObject?)
    case Load(KLong, n) => n + 1 < |regs| && regs[n].Long? && regs[n + 1].Long2?
    case Load(KDouble, n) => n + 1 < |regs| && regs[n].Double? && regs[n + 1].Double2?
    case Ret(n) => n < |regs| && regs[n].ReturnAddress?
    case _ => true
  }

  /** The tests of pop_stack that look at more than one operand, or past the operands. */
  predicate CrossChecks(m: Method, i: nat, ins: Instr, stack: seq<Type>)
    requires |stack| >= |Operands(m, ins)|
  {
    match ins
    case AaStore =>
      var elem := stack[2];
      if elem.Null? then true
      else if elem.Obj? && elem.dims == 1 && (stack[0].Null? || (stack[0].Obj? && stack[0].dims == 0)) then true
      else
        && ((elem.Obj? && elem.dims > 0) || elem.PrimArray?)
        && IsAssignableTo(stack[0], DecrementIndirection(elem))
    case ReturnVoid => m.returnType.Void?
    case Return(k) => k.KRef? || IsAssignableTo(KindType(k), m.returnType)
    case Invoke(_, _, _, _) => |Operands(m, ins)| < 256
    case InvokeInit(_, _) => |Operands(m, ins)| < 256
    case New(_) => NewObject(i) !in stack
    case _ => true
  }

  predicate OperandsAccepted(m: Method, i: nat, ins: Instr, stack: seq<Type>) {
    var ops := Operands(m, ins);
    && |stack| >= |ops|
    && (forall k | 0 <= k < |ops| :: Accepts(m, ops[k], stack[k]))
    && CrossChecks(m, i, ins, stack)
  }

  function Replace(s: seq<Type>, from: Type, to: Type): (r: seq<Type>) {
    seq(|s|, k requires 0 <= k < |s| => if s[k] == from then to else s[k])
  }

  /** Write one register, padding with bogus ones when the set is too short. */
  function SetRegister(regs: seq<Type>, n: nat, t: Type): (r: seq<Type>)
    ensures |r| == if n < |regs| then |regs| else n + 1
    ensures forall k | 0 <= k < |r| ::
              r[k] == if k == n then t else if k < |regs| then regs[k] else Bogus
  {
    if n < |regs| then regs[n := t]
    else regs + seq(n - |regs|, _ => Bogus) + [t]
  }

  function SecondHalf(t: Type): Type {
    if t.Double? then Double2 else if t.Long? then Long2 else Bogus
  }

  /** What an invokeinit makes of the object it was called on. */
  function InitializedAs(m: Method, t: Type): Type {
    if t.NewObject? && t.inumber < |m.code| && m.code[t.inumber].New? then m.code[t.inumber].created
    else m.current
  }

  /** update_registers. */
  function UpdateRegisters(m: Method, i: nat, ins: Instr, f: Frame): seq<Type>
    requires |f.stack| >= |Operands(m, ins)|
  {
    match ins
    case Store(k, n) =>
      var r := SetRegister(f.regs, n, f.stack[0]);
      if k.KLong? || k.KDouble? then SetRegister(r, n + 1, SecondHalf(f.stack[0])) else r
    case New(_) => Replace(f.regs, NewObject(i), Bogus)
    case InvokeInit(_, ps) =>
      var from := f.stack[|Operands(m, ins)| - 1];
      Replace(f.regs, from, InitializedAs(m, from))
    case _ => f.regs
  }

  /** The item push_stack adds, if any. */
  function Pushed(m: Method, i: nat, ins: Instr, f: Frame): Option<Type>
    requires RegistersReadable(ins, f.regs)
    requires OperandsAccepted(m, i, ins, f.stack)
  {
    match ins
    case Compute(_, outs) => outs
    case Constant(t) => Some(t)
    case Load(k, n) => if k.KRef? then Some(f.regs[n]) else Some(KindType(k))
    case PrimLoad(_, t) => Some(t)
    case AaLoad =>
      var ops := Operands(m, ins);
      assert Accepts(m, ops[1], f.stack[1]);
      Some(DecrementIndirection(f.stack[1]))
    case ArrayLength => Some(Integer)
    case GetStatic(t) => Some(t)
    case GetField(_, t) => Some(t)
    case Invoke(_, _, _, r) => r
    case New(_) => Some(NewObject(i))
    case NewArray(_, t) => Some(t)
    case CheckCast(t) => Some(t)
    case InstanceOf => Some(Integer)
    case Jsr(t) => Some(ReturnAddress(t))
    case _ => None
  }

  /** pop_stack and push_stack. */
  function UpdateStack(m: Method, i: nat, ins: Instr, f: Frame): Option<seq<Type>>
    requires RegistersReadable(ins, f.regs)
    requires OperandsAccepted(m, i, ins, f.stack)
  {
    if ins.Stack? then Shuffle(ins.op, IsWide, f.stack)
    else
      var ops := Operands(m, ins);
      var rest := f.stack[|ops|..];
      var left :=
        if ins.InvokeInit? then
          var from := f.stack[|ops| - 1];
          Replace(rest, from, InitializedAs(m, from))
        else rest;
      match Pushed(m, i, ins, f)
      case None => Some(left)
      case Some(t) => Some([t] + left)
  }

  // ----- masks -----

  predicate HasEntry(masks: seq<Mask>, entry: nat) {
    exists k :: 0 <= k < |masks| && masks[k].entry == entry
  }

  /** The registers that count as changed by an instruction: those it reads, too. */
  function Touched(m: Method, i: nat, ins: Instr, f: Frame): set<nat>
    requires |f.stack| >= |Operands(m, ins)|
  {
    match ins
    case Store(k, n) => if k.KLong? || k.KDouble? then {n, n + 1} else {n}
    case Load(k, n) => if k.KLong? || k.KDouble? then {n, n + 1} else {n}
    case Iinc(n) => {n}
    case Ret(n) => {n}
    case New(_) => Cells(f.regs, NewObject(i))
    case InvokeInit(_, ps) => Cells(f.regs, f.stack[|Operands(m, ins)| - 1])
    case _ => {}
  }

  function Cells(regs: seq<Type>, t: Type): set<nat> {
    set k: nat | k < |regs| && regs[k] == t
  }

  function Touch(masks: seq<Mask>, registers: set<nat>): (r: seq<Mask>)
    ensures |r| == |masks|
  {
    seq(|masks|, k requires 0 <= k < |masks| => masks[k].(changed := masks[k].changed + registers))
  }

  /** The masks after an instruction; `adds` says whether a jsr adds the one of its subroutine. */
  function UpdateMasks(m: Method, i: nat, ins: Instr, f: Frame, adds: bool): seq<Mask>
    requires |f.stack| >= |Operands(m, ins)|
  {
    if ins.Jsr? then if adds then f.masks + [Mask(ins.target, {})] else f.masks
    else Touch(f.masks, Touched(m, i, ins, f))
  }

  /** The frame after instruction i, or None where the verifier reports an error. */
  function Execute(m: Method, i: nat, f: Frame, adds: bool): Option<Frame>
    requires i < |m.code|
  {
    var ins := m.code[i];
    if !RegistersReadable(ins, f.regs) || !OperandsAccepted(m, i, ins, f.stack) then None
    else if ins.Jsr? && HasEntry(f.masks, ins.target) then None
    else
      match UpdateStack(m, i, ins, f)
      case None => None
      case Some(stack) =>
        if StackWords(stack) > m.maxStack then None
        else Some(Frame(stack, UpdateRegisters(m, i, ins, f), UpdateMasks(m, i, ins, f, adds)))
  }

  function Forgotten(s: seq<Type>): (r: seq<Type>)
    ensures |r| == |s|
  {
    seq(|s|, k requires 0 <= k < |s| => if s[k].NewObject? then Bogus else s[k])
  }

  /** Uninitialised objects do not get into or out of a subroutine. */
  function Forget(ins: Instr, f: Frame): Frame {
    if ins.Jsr? || ins.Ret? then Frame(Forgotten(f.stack), Forgotten(f.regs), f.masks) else f
  }

  // ----- flags and control flow -----

  /** `constructed` holds on all paths (and_flags), the others on at least one (or_flags). */
  datatype Flags = Flags(constructed: bool, reached: bool, needConstructor: bool, noReturn: bool)

  /** check_flags. */
  predicate FlagsAllow(ins: Instr, fl: Flags) {
    match ins
    case ReturnVoid => fl.needConstructor ==> fl.constructed
    case Return(_) => !fl.noReturn
    case _ => true
  }

  /** The object an invokeinit initialises, as the stack types it. */
  predicate InitializesReceiver(m: Method, ins: Instr, f: Frame) {
    && ins.InvokeInit?
    && |f.stack| >= |Operands(m, ins)|
    && f.stack[|Operands(m, ins)| - 1].InitObject?
  }

  /** update_flags. */
  function UpdateFlags(m: Method, ins: Instr, f: Frame, fl: Flags): Flags {
    if InitializesReceiver(m, ins, f) then fl.(constructed := true) else fl
  }

  /** Where an instruction goes; the returns of a ret depend on the calls: see ReturnPoints. */
  function Successors(ins: Instr, i: nat): seq<nat> {
    match ins
    case Branch(_, t) => [i + 1, t]
    case Goto(t) => [t]
    case Switch(ts) => ts
    case ReturnVoid => []
    case Return(_) => []
    case AThrow => []
    case Jsr(t) => [t]
    case Ret(_) => []
    case _ => [i + 1]
  }

  predicate Covers(h: Handler, i: nat) {
    h.start <= i < h.end
  }

  // ----- what one instruction sends to the others -----

  datatype Flow = Flow(to: nat, frame: Frame, flags: Flags)

  /** The flows of merge_into_successors to the handlers of the table `hs`. */
  function HandlerFlows(m: Method, i: nat, before: Frame, after: Frame, fl: Flags, flAfter: Flags, hs: seq<Handler>)
    : (r: seq<Flow>)
    requires i < |m.code|
  {
    if hs == [] then []
    else
      var rest := HandlerFlows(m, i, before, after, fl, flAfter, hs[1..]);
      var h := hs[0];
      if !Covers(h, i) then rest
      else if m.code[i].InvokeInit? then
        [Flow(h.handler, Frame([h.catchType], before.regs, before.masks), fl),
         Flow(h.handler, Frame([h.catchType], after.regs, after.masks),
              if InitializesReceiver(m, m.code[i], before) then flAfter.(noReturn := true) else flAfter)] + rest
      else [Flow(h.handler, Frame([h.catchType], before.regs, before.masks), fl)] + rest
  }

  /** Everything instruction i merges into other instructions, the returns of a ret aside, or None on an error. */
  function Flows(m: Method, i: nat, f: Frame, fl: Flags, adds: bool): Option<seq<Flow>>
    requires i < |m.code|
  {
    var ins := m.code[i];
    if !FlagsAllow(ins, fl) then None
    else
      match Execute(m, i, f, adds)
      case None => None
      case Some(out) =>
        var after := Forget(ins, out);
        var flAfter := UpdateFlags(m, ins, f, fl);
        var succ := Successors(ins, i);
        if exists t | t in succ :: t >= |m.code| then None
        else Some(HandlerFlows(m, i, Forget(ins, f), after, fl, flAfter, m.handlers)
                  + seq(|succ|, k requires 0 <= k < |succ| => Flow(succ[k], after, flAfter)))
  }

  // ----- returning from a subroutine -----

  /** The calls of a subroutine among the first n instructions, last first. */
  function CallsOf(m: Method, entry: nat, n: nat): (r: seq<nat>)
    requires n <= |m.code|
    ensures forall j :: j in r <==> 0 <= j < n && m.code[j] == Jsr(entry)
    ensures forall k | 0 <= k < |r| :: r[k] < n && m.code[r[k]] == Jsr(entry)
  {
    if n == 0 then [] else (if m.code[n - 1] == Jsr(entry) then [n - 1] else []) + CallsOf(m, entry, n - 1)
  }

  /** The innermost mask of a subroutine among the first n; n if there is none. */
  function FindMask(masks: seq<Mask>, entry: nat, n: nat): (k: nat)
    requires n <= |masks|
    ensures k <= n
    ensures k < n ==> masks[k].entry == entry
    ensures k == n ==> forall j | 0 <= j < n :: masks[j].entry != entry
    decreases n
  {
    if n == 0 then 0
    else if masks[n - 1].entry == entry then n - 1
    else var k := FindMask(masks, entry, n - 1); if k == n - 1 then n else k
  }

  function RegisterAt(regs: seq<Type>, k: nat): Type {
    if k < |regs| then regs[k] else Bogus
  }

  /** Registers the subroutine may have changed are those of the ret, the others those of the jsr. */
  function JoinedRegisters(changed: set<nat>, ret: seq<Type>, jsr: seq<Type>): (r: seq<Type>)
    ensures |r| == if |ret| > |jsr| then |ret| else |jsr|
  {
    seq(if |ret| > |jsr| then |ret| else |jsr|,
        k requires 0 <= k => if k in changed then RegisterAt(ret, k) else RegisterAt(jsr, k))
  }

  /** What a ret from the subroutine `entry` sends behind a jsr whose registers are `jsr`; None for an illegal return. */
  function ReturnFrame(out: Frame, jsr: seq<Type>, entry: nat): Option<Frame> {
    var k := FindMask(out.masks, entry, |out.masks|);
    if k == |out.masks| then None
    else Some(Frame(out.stack, JoinedRegisters(out.masks[k].changed, out.regs, jsr), out.masks[..k]))
  }
}
