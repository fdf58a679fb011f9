/**
 The inliner's view of an analysed method: from the recorded table to the code with notes,
 and that what the analysis ends with is what the inliner calls accepted.
 */
module RecordedNotes {
  import opened Types
  import opened Bytecode
  import opened Merging
  import opened Dataflow
  import opened ReturnAddresses
  import J = JsrMachine
  import I = Inliner
  import C = InlinedCode
  import S = InlinerSoundness

  // ----- notes -----

  function KindOf(t: Type): I.Kind {
    if t.ReturnAddress? then I.ReturnTo(t.entry) else I.Word
  }

  /** The words of an item. */
  function ItemKinds(t: Type): seq<I.Kind> {
    if IsWide(t) then [I.Word, I.Word] else [KindOf(t)]
  }

  /** The inliner's stacks are stacks of words, with their top at the end. */
  function StackKinds(stack: seq<Type>): (r: seq<I.Kind>)
    ensures |r| == StackWords(stack)
  {
    if stack == [] then [] else StackKinds(stack[1..]) + ItemKinds(stack[0])
  }

  function RegisterKinds(regs: seq<Type>): map<nat, I.Kind> {
    map k: nat | k < |regs| && !regs[k].Bogus? :: KindOf(regs[k])
  }

  function EntriesOf(masks: seq<Mask>): (r: seq<nat>)
    ensures |r| == |masks|
  {
    seq(|masks|, k requires 0 <= k < |masks| => masks[k].entry)
  }

  function ChangesOf(masks: seq<Mask>): (r: seq<set<nat>>)
    ensures |r| == |masks|
  {
    seq(|masks|, k requires 0 <= k < |masks| => masks[k].changed)
  }

  function NoteOf(r: Record): (n: I.Note)
    ensures n.Reached? <==> r.frame.Some?
  {
    match r.frame
    case None => I.Unreached
    case Some(f) => I.Reached(EntriesOf(f.masks), ChangesOf(f.masks), StackKinds(f.stack), RegisterKinds(f.regs), r.ret.Some?)
  }

  // ----- instructions -----

  /** The words an instruction pushes, stack operations aside. */
  function PushWords(ins: Instr): nat {
    match ins
    case Compute(_, outs) => if outs.Some? then Words(outs.value) else 0
    case Constant(t) => Words(t)
    case Load(k, _) => if k.KRef? then 1 else Words(KindType(k))
    case PrimLoad(_, t) => Words(t)
    case AaLoad => 1
    case ArrayLength => 1
    case GetStatic(t) => Words(t)
    case GetField(_, t) => Words(t)
    case Invoke(_, _, _, r) => if r.Some? then Words(r.value) else 0
    case New(_) => 1
    case NewArray(_, _) => 1
    case CheckCast(_) => 1
    case InstanceOf => 1
    case _ => 0
  }

  function OperandWords(op: Operand): nat {
    if op.Exactly? then Words(op.t) else 1
  }

  function PopWords(ops: seq<Operand>): nat {
    if ops == [] then 0 else OperandWords(ops[0]) + PopWords(ops[1..])
  }

  /** The words a stack operation takes, and those it leaves in their place. */
  function Taken(op: StackOp): nat {
    match op
    case Pop => 1
    case Pop2 => 2
    case Dup => 1
    case DupX1 => 2
    case DupX2 => 3
    case Dup2 => 2
    case Dup2X1 => 3
    case Dup2X2 => 4
    case Swap => 2
  }

  function Left(op: StackOp): nat {
    match op
    case Pop => 0
    case Pop2 => 0
    case Dup => 2
    case DupX1 => 3
    case DupX2 => 4
    case Dup2 => 4
    case Dup2X1 => 5
    case Dup2X2 => 6
    case Swap => 2
  }

  /** The items a stack operation takes. */
  function PicksOn(op: StackOp, stack: seq<Type>): (p: Picks)
    ensures p.count <= |stack|
  {
    match StackPicks(op, WideFlags(IsWide, stack))
    case None => Picks([], 0)
    case Some(p) => p
  }

  function RegistersUsed(kind: Kind, n: nat): seq<nat> {
    if kind.KLong? || kind.KDouble? then [n, n + 1] else [n]
  }

  function LoadsOf(ins: Instr): seq<nat> {
    match ins
    case Load(k, n) => RegistersUsed(k, n)
    case Iinc(n) => [n]
    case _ => []
  }

  function StoresOf(ins: Instr): seq<nat> {
    match ins
    case Store(k, n) => RegistersUsed(k, n)
    case Iinc(n) => [n]
    case _ => []
  }

  predicate GoesOn(ins: Instr) {
    !(ins.Goto? || ins.Switch? || ins.ReturnVoid? || ins.Return? || ins.AThrow? || ins.Jsr? || ins.Ret?)
  }

  function TargetsOf(ins: Instr): seq<nat> {
    match ins
    case Branch(_, t) => [t]
    case Switch(ts) => ts
    case _ => []
  }

  function OpOf(m: Method, i: nat): J.Op
    requires i < |m.code|
  {
    var ins := m.code[i];
    if ins.Goto? then J.Goto(ins.target)
    else if ins.Jsr? then J.Jsr(ins.target)
    else if ins.Ret? then J.Ret(ins.local)
    else if ins.Stack? then J.Plain(Taken(ins.op), Left(ins.op), [], [], true, [])
    else if ins.Store? && ins.kind.KRef? then J.Astore(ins.local)
    else J.Plain(PopWords(Operands(m, ins)), PushWords(ins), LoadsOf(ins), StoresOf(ins), GoesOn(ins), TargetsOf(ins))
  }

  // ----- methods -----

  /** The lengths of the instructions, which the analysis does not look at. */
  predicate Fits(m: Method, t: Table, lengths: seq<nat>) {
    |t| == |m.code| == |lengths| && forall i | 0 <= i < |lengths| :: lengths[i] > 0
  }

  /** Entries of the exception table name what they catch by their number. */
  function CodeOf(m: Method, t: Table, lengths: seq<nat>): I.Code
    requires Fits(m, t, lengths)
  {
    I.Code(
      seq(|m.code|, i requires 0 <= i < |m.code| => I.Instr(OpOf(m, i), lengths[i], m.code[i].Switch?)),
      seq(|t|, i requires 0 <= i < |t| => NoteOf(t[i])),
      m.maxLocals,
      seq(|m.handlers|, k requires 0 <= k < |m.handlers| =>
        J.Frame(m.handlers[k].start, m.handlers[k].end, m.handlers[k].handler, k)))
  }

  // ----- what a merge leaves -----

  lemma AssignableKind(a: Type, b: Type)
    requires IsAssignableTo(a, b) && !b.Bogus?
    ensures !a.Bogus? && KindOf(a) == KindOf(b) && ItemKinds(a) == ItemKinds(b)
  {
  }

  lemma {:induction false} MasksCover(a: seq<Mask>, b: seq<Mask>, p: nat)
    requires MasksBelow(a, b) && p < |b|
    ensures exists q :: 0 <= q < |a| && a[q].entry == b[p].entry && a[q].changed <= b[p].changed
    decreases |a|
  {
    if a[0].entry == b[0].entry && p == 0 {
      assert a[0].entry == b[0].entry;
    } else {
      var q: int;
      if a[0].entry == b[0].entry {
        MasksCover(a[1..], b[1..], p - 1);
        q :| 0 <= q < |a[1..]| && a[1..][q].entry == b[1..][p - 1].entry && a[1..][q].changed <= b[1..][p - 1].changed;
      } else {
        MasksCover(a[1..], b, p);
        q :| 0 <= q < |a[1..]| && a[1..][q].entry == b[p].entry && a[1..][q].changed <= b[p].changed;
      }
      assert a[q + 1].entry == b[p].entry && a[q + 1].changed <= b[p].changed;
    }
  }

  /** The note describes at least what the frame does. */
  predicate Notes(out: I.Note, f: Frame) {
    && out.Reached? && out.context == EntriesOf(f.masks) && |out.changed| == |f.masks|
    && (forall q | 0 <= q < |f.masks| :: out.changed[q] <= f.masks[q].changed)
    && out.stack == StackKinds(f.stack)
    && forall k | 0 <= k < |f.regs| && !f.regs[k].Bogus? :: k in out.registers && out.registers[k] == KindOf(f.regs[k])
  }

  lemma MasksKept(context: seq<nat>, changed: seq<set<nat>>, masks: seq<Mask>, note: I.Note, below: seq<Mask>)
    requires |context| == |changed| == |masks| && MasksBelow(masks, below)
    requires forall q | 0 <= q < |masks| :: context[q] == masks[q].entry && changed[q] <= masks[q].changed
    requires note.Reached? && note.context == EntriesOf(below) && note.changed == ChangesOf(below)
    ensures S.Kept(context, changed, note)
  {
    forall p | 0 <= p < |below|
      ensures exists q :: 0 <= q < |context| && context[q] == note.context[p] && changed[q] <= note.changed[p]
    {
      MasksCover(masks, below, p);
      var q :| 0 <= q < |masks| && masks[q].entry == below[p].entry && masks[q].changed <= below[p].changed;
      assert context[q] == note.context[p] && changed[q] <= note.changed[p];
    }
  }

  lemma {:induction false} StackStays(a: seq<Type>, b: seq<Type>)
    requires |a| == |b| && Assignable(a, b) && Bogus !in b
    ensures StackKinds(a) == StackKinds(b)
  {
    if b != [] {
      assert b[0] in b && forall t | t in b[1..] :: t in b;
      AssignableKind(a[0], b[0]);
      hide IsAssignableTo, ItemKinds, KindOf;
      StackStays(a[1..], b[1..]);
    }
  }

  lemma RegistersStay(a: seq<Type>, b: seq<Type>, registers: map<nat, I.Kind>)
    requires Assignable(a, b)
    requires forall k | 0 <= k < |a| && !a[k].Bogus? :: k in registers && registers[k] == KindOf(a[k])
    ensures forall r | r in RegisterKinds(b) :: r in registers && registers[r] == RegisterKinds(b)[r]
  {
    forall r | r in RegisterKinds(b) ensures r in registers && registers[r] == RegisterKinds(b)[r] {
      AssignableKind(a[r], b[r]);
    }
  }

  /** An absorbed flow arrives. */
  lemma AbsorbedArrives(m: Method, t: Table, lengths: seq<nat>, g: Flow, out: I.Note)
    requires Fits(m, t, lengths) && CodeOf(m, t, lengths).Valid() && CleanStacks(t)
    requires g.to < |t| && Absorbed(g, t[g.to]) && Notes(out, g.frame)
    ensures S.Arrives(CodeOf(m, t, lengths), out, g.to)
  {
    var f := t[g.to].frame.value;
    MasksKept(out.context, out.changed, g.frame.masks, NoteOf(t[g.to]), f.masks);
    StackStays(g.frame.stack, f.stack);
    RegistersStay(g.frame.regs, f.regs, out.registers);
    hide MasksBelow, FlagsBelow, Assignable, S.Kept, OpOf;
  }

  // ----- what an ordinary instruction leaves -----

  /** The code, and an instruction of it that is recorded and settled. */
  ghost predicate Analysed(m: Method, t: Table, lengths: seq<nat>) {
    && Legal(m) && PostFixpoint(m, t) && Fits(m, t, lengths) && CleanStacks(t) && Grounded(m, t)
  }

  lemma ValidCode(m: Method, t: Table, lengths: seq<nat>)
    requires Analysed(m, t, lengths)
    ensures CodeOf(m, t, lengths).Valid() && |CodeOf(m, t, lengths).instrs| == |m.code| == |t|
  {
    hide OpOf, NoteOf, PostFixpoint, Grounded;
  }

  function After(m: Method, t: Table, i: nat): Option<Frame>
    requires |t| == |m.code| && Known(t, i)
  {
    Execute(m, i, t[i].frame.value, Adds(true, t[i]))
  }

  lemma {:induction false} StackPlus(a: seq<Type>, b: seq<Type>)
    ensures StackKinds(a + b) == StackKinds(b) + StackKinds(a)
  {
    if a == [] {
      assert a + b == b;
    } else {
      assert (a + b)[1..] == a[1..] + b;
      StackPlus(a[1..], b);
    }
  }

  /** The words below some items are those of the items below them. */
  lemma StackSplit(s: seq<Type>, n: nat)
    requires n <= |s|
    ensures StackKinds(s) == StackKinds(s[n..]) + StackKinds(s[..n])
    ensures StackWords(s) == StackWords(s[n..]) + StackWords(s[..n])
    ensures StackKinds(s)[..StackWords(s) - StackWords(s[..n])] == StackKinds(s[n..])
  {
    StackPlus(s[..n], s[n..]);
    assert s[..n] + s[n..] == s;
  }

  lemma OneItem(t: Type)
    ensures StackKinds([t]) == ItemKinds(t) && StackWords([t]) == Words(t)
  {
    assert StackKinds([]) == [];
    assert [] + ItemKinds(t) == ItemKinds(t);
  }

  lemma {:induction false} WordItems(s: seq<Type>)
    ensures (forall k | 0 <= k < |s| :: !s[k].ReturnAddress?) <==> StackKinds(s) == S.WordStack(StackWords(s))
  {
    if s != [] {
      WordItems(s[1..]);
      var rest, top := StackKinds(s[1..]), ItemKinds(s[0]);
      assert S.WordStack(StackWords(s)) == S.WordStack(|rest|) + S.WordStack(|top|);
      assert |rest + top| == |rest| + |top| && (rest + top)[..|rest|] == rest && (rest + top)[|rest|..] == top;
      assert rest + top == S.WordStack(|rest|) + S.WordStack(|top|) <==> rest == S.WordStack(|rest|) && top == S.WordStack(|top|) by {
        SplitEqual(rest, top, S.WordStack(|rest|), S.WordStack(|top|));
      }
      assert top == S.WordStack(|top|) <==> !s[0].ReturnAddress? by {
        hide StackKinds;
        assert top[0] == if IsWide(s[0]) then I.Word else KindOf(s[0]);
        assert |top| > 1 ==> top[1] == I.Word;
      }
      assert (forall k | 0 <= k < |s| :: !s[k].ReturnAddress?) <==>
             !s[0].ReturnAddress? && forall k | 0 <= k < |s[1..]| :: !s[1..][k].ReturnAddress? by {
        assert forall k | 0 <= k < |s[1..]| :: s[1..][k] == s[k + 1];
        assert forall k | 0 < k < |s| :: s[k] == s[1..][k - 1];
      }
    }
  }

  lemma SplitEqual(a: seq<I.Kind>, b: seq<I.Kind>, c: seq<I.Kind>, d: seq<I.Kind>)
    requires |a| == |c|
    ensures a + b == c + d <==> a == c && b == d
  {
    if a + b == c + d {
      assert (a + b)[..|a|] == a && (c + d)[..|a|] == c && (a + b)[|a|..] == b && (c + d)[|a|..] == d;
    }
  }

  lemma {:induction false} ReplacedKinds(s: seq<Type>, from: Type, to: Type)
    requires !from.ReturnAddress? && !to.ReturnAddress? && !IsWide(from) && !IsWide(to)
    ensures StackKinds(Replace(s, from, to)) == StackKinds(s)
  {
    if s != [] {
      assert Replace(s, from, to)[1..] == Replace(s[1..], from, to);
      ReplacedKinds(s[1..], from, to);
    }
  }

  lemma PushedKinds(m: Method, i: nat, f: Frame)
    requires Legal(m) && i < |m.code| && RegistersReadable(m.code[i], f.regs) && OperandsAccepted(m, i, m.code[i], f.stack)
    requires !m.code[i].Jsr? && !m.code[i].Stack?
    ensures var p := Pushed(m, i, m.code[i], f);
            (if p.Some? then Words(p.value) else 0) == PushWords(m.code[i]) && (p.Some? ==> !p.value.ReturnAddress?)
  {
    var ins := m.code[i];
    assert LegalOperands(m, ins);
    if Pushed(m, i, ins, f).Some? && Pushed(m, i, ins, f).value.ReturnAddress? {
      PushedIs(m, i, f, Pushed(m, i, ins, f).value.entry);
    }
    if ins.AaLoad? {
      assert Accepts(m, Operands(m, ins)[1], f.stack[1]);
    }
  }

  lemma ReceiverIsWord(m: Method, i: nat, f: Frame)
    requires i < |m.code| && m.code[i].InvokeInit? && OperandsAccepted(m, i, m.code[i], f.stack)
    ensures var n := |Operands(m, m.code[i])|;
            n > 0 && !f.stack[n - 1].ReturnAddress? && !f.stack[n - 1].Bogus? && !IsWide(f.stack[n - 1])
  {
    var ops := Operands(m, m.code[i]);
    assert Accepts(m, ops[|ops| - 1], f.stack[|ops| - 1]);
  }

  lemma {:induction false} PoppedWords(m: Method, ops: seq<Operand>, stack: seq<Type>)
    requires |ops| <= |stack| && forall k | 0 <= k < |ops| :: Accepts(m, ops[k], stack[k])
    ensures StackWords(stack[..|ops|]) == PopWords(ops)
  {
    if ops != [] {
      assert Accepts(m, ops[0], stack[0]);
      assert stack[..|ops|][1..] == stack[1..][..|ops| - 1];
      hide Accepts;
      PoppedWords(m, ops[1..], stack[1..]);
    }
  }

  lemma InitializedIsNarrow(m: Method, t: Type)
    requires Legal(m)
    ensures !InitializedAs(m, t).ReturnAddress? && !IsWide(InitializedAs(m, t))
  {
    if t.NewObject? && t.inumber < |m.code| {
      assert LegalOperands(m, m.code[t.inumber]);
    }
  }

  /** The stack after an instruction, stack operations and calls aside. */
  lemma PlainStack(m: Method, i: nat, f: Frame, adds: bool)
    requires Legal(m) && i < |m.code| && Execute(m, i, f, adds).Some? && !m.code[i].Stack? && !m.code[i].Jsr?
    ensures var ops := Operands(m, m.code[i]);
            && |ops| <= |f.stack| && StackWords(f.stack[..|ops|]) == PopWords(ops) <= StackWords(f.stack)
            && StackKinds(Execute(m, i, f, adds).value.stack) ==
               StackKinds(f.stack)[..StackWords(f.stack) - PopWords(ops)] + S.WordStack(PushWords(m.code[i]))
  {
    var ins := m.code[i];
    var ops := Operands(m, ins);
    var rest := f.stack[|ops|..];
    var left := rest;
    PoppedWords(m, ops, f.stack);
    StackSplit(f.stack, |ops|);
    if ins.InvokeInit? {
      var from := f.stack[|ops| - 1];
      left := Replace(rest, from, InitializedAs(m, from));
      ReceiverIsWord(m, i, f);
      InitializedIsNarrow(m, from);
      ReplacedKinds(rest, from, InitializedAs(m, from));
    }
    PushedKinds(m, i, f);
    var pushed := Pushed(m, i, ins, f);
    StackAfterPush(m, i, f, adds, left, pushed);
    hide StackKinds, StackWords, Replace, Pushed, Execute, OperandsAccepted, RegistersReadable, Operands, InitializedAs, PopWords, PushWords;
  }

  lemma StackAfterPush(m: Method, i: nat, f: Frame, adds: bool, left: seq<Type>, pushed: Option<Type>)
    requires i < |m.code| && Execute(m, i, f, adds).Some? && !m.code[i].Stack? && pushed == Pushed(m, i, m.code[i], f)
    requires pushed.Some? ==> !pushed.value.ReturnAddress?
    requires var ops := Operands(m, m.code[i]);
             var from := if m.code[i].InvokeInit? then f.stack[|ops| - 1] else Bogus;
             left == if m.code[i].InvokeInit? then Replace(f.stack[|ops|..], from, InitializedAs(m, from)) else f.stack[|ops|..]
    ensures StackKinds(Execute(m, i, f, adds).value.stack) ==
            StackKinds(left) + S.WordStack(if pushed.Some? then Words(pushed.value) else 0)
  {
    var stack := Execute(m, i, f, adds).value.stack;
    assert stack == (if pushed.Some? then [pushed.value] + left else left) by {
      hide Pushed, Operands, OperandsAccepted, RegistersReadable, InitializedAs, Replace;
    }
    hide Execute, Pushed, Operands, InitializedAs, Replace, StackKinds, StackWords;
    if pushed.Some? {
      StackPlus([pushed.value], left);
      OneItem(pushed.value);
      WordItems([pushed.value]);
    } else {
      assert S.WordStack(0) == [];
    }
  }

  lemma TakenWords(op: StackOp, s: seq<Type>)
    requires Shuffle(op, IsWide, s).Some?
    ensures PicksOn(op, s).count <= |s| && StackWords(s[..PicksOn(op, s).count]) == Taken(op)
  {
    SumsUp(s[..PicksOn(op, s).count]);
    hide StackWords, Left;
  }

  lemma LeftWords(op: StackOp, s: seq<Type>, items: seq<Type>)
    requires Shuffle(op, IsWide, s).Some? && |items| == |PicksOn(op, s).items|
    requires forall k | 0 <= k < |items| :: PicksOn(op, s).items[k] < |s| && items[k] == s[PicksOn(op, s).items[k]]
    ensures StackWords(items) == Left(op)
  {
    SumsUp(items);
    hide StackWords, Taken;
  }

  /** Whatever is on the stack, a stack operation takes and leaves the same numbers of words. */
  lemma ShuffledWords(op: StackOp, s: seq<Type>)
    requires Shuffle(op, IsWide, s).Some?
    ensures var p := PicksOn(op, s);
            && p.count <= |s| && StackWords(s[..p.count]) == Taken(op)
            && (forall k | 0 <= k < |p.items| :: p.items[k] < p.count)
            && StackWords(seq(|p.items|, k requires 0 <= k < |p.items| => s[p.items[k]])) == Left(op)
  {
    TakenWords(op, s);
    PicksInRange(op, s);
    var p := PicksOn(op, s);
    hide StackWords, Taken, Left, StackPicks, PicksOn;
    LeftWords(op, s, seq(|p.items|, k requires 0 <= k < |p.items| => s[p.items[k]]));
  }

  lemma PicksInRange(op: StackOp, s: seq<Type>)
    ensures forall k | 0 <= k < |PicksOn(op, s).items| :: PicksOn(op, s).items[k] < PicksOn(op, s).count
  {
    var p := PicksOn(op, s);
    assert forall k | 0 <= k < |p.items| :: p.items[k] in p.items;
    hide StackPicks;
  }

  /** Up to six items. */
  lemma SumsUp(s: seq<Type>)
    ensures |s| <= 6 ==>
              StackWords(s) == WordsAt(s, 0) + WordsAt(s, 1) + WordsAt(s, 2) + WordsAt(s, 3) + WordsAt(s, 4) + WordsAt(s, 5)
  {
    SumFrom(s, 0);
    SumFrom(s, 1);
    SumFrom(s, 2);
    SumFrom(s, 3);
    SumFrom(s, 4);
    SumFrom(s, 5);
    if |s| <= 6 {
      assert s[|s|..] == [] && s[0..] == s;
    }
  }

  function WordsAt(s: seq<Type>, k: nat): nat {
    if k < |s| then Words(s[k]) else 0
  }

  lemma SumFrom(s: seq<Type>, k: nat)
    ensures k < |s| ==> StackWords(s[k..]) == Words(s[k]) + StackWords(s[k + 1..])
  {
    if k < |s| {
      assert s[k..][1..] == s[k + 1..];
    }
  }

  lemma ShuffleIs(op: StackOp, s: seq<Type>) returns (top: seq<Type>)
    requires Shuffle(op, IsWide, s).Some?
    ensures var p := PicksOn(op, s);
            && p.count <= |s| && Shuffle(op, IsWide, s).value == top + s[p.count..] && StackWords(top) == Left(op)
            && ((forall k | 0 <= k < p.count :: !s[k].ReturnAddress?) ==> forall k | 0 <= k < |top| :: !top[k].ReturnAddress?)
  {
    ShuffledWords(op, s);
    hide StackWords, Left, Taken;
    var p := PicksOn(op, s);
    top := seq(|p.items|, k requires 0 <= k < |p.items| => s[p.items[k]]);
    hide StackPicks;
  }

  lemma PicksWords(op: StackOp, s: seq<Type>)
    requires Shuffle(op, IsWide, s).Some?
    ensures var p := PicksOn(op, s);
            && p.count <= |s| && StackWords(s[..p.count]) == Taken(op) <= StackWords(s)
            && ((forall k | 0 <= k < p.count :: !s[k].ReturnAddress?) ==>
                  StackKinds(Shuffle(op, IsWide, s).value) == StackKinds(s)[..StackWords(s) - Taken(op)] + S.WordStack(Left(op)))
  {
    ShuffledWords(op, s);
    hide *;
    var p := PicksOn(op, s);
    var top := ShuffleIs(op, s);
    StackSplit(s, p.count);
    StackPlus(top, s[p.count..]);
    WordItems(top);
  }

  /** What is still usable in the registers is what was there, or a word that was stored. */
  lemma PlainRegisters(m: Method, i: nat, f: Frame, adds: bool, k: nat)
    requires Legal(m) && i < |m.code| && Execute(m, i, f, adds).Some? && !(m.code[i].Store? && m.code[i].kind.KRef?)
    requires var regs := Execute(m, i, f, adds).value.regs; k < |regs| && !regs[k].Bogus?
    ensures var regs := Execute(m, i, f, adds).value.regs;
            if k in StoresOf(m.code[i]) then !regs[k].ReturnAddress?
            else k < |f.regs| && !f.regs[k].Bogus? && KindOf(regs[k]) == KindOf(f.regs[k])
  {
    var ins := m.code[i];
    hide UpdateStack, UpdateMasks;
    if ins.InvokeInit? {
      ReceiverIsWord(m, i, f);
      InitializedIs(m, f.stack[|Operands(m, ins)| - 1]);
      hide InitializedAs, Operands, OperandsAccepted;
    } else if ins.Store? {
      assert Accepts(m, Operands(m, ins)[0], f.stack[0]);
    }
  }

  lemma StoresTouched(m: Method, i: nat, f: Frame)
    requires i < |m.code| && |f.stack| >= |Operands(m, m.code[i])|
    ensures S.StoredTo(StoresOf(m.code[i])) <= Touched(m, i, m.code[i], f)
    ensures forall k | 0 <= k < |LoadsOf(m.code[i])| && RegistersReadable(m.code[i], f.regs) ::
              var r := LoadsOf(m.code[i])[k]; r < |f.regs| && !f.regs[r].Bogus? && !f.regs[r].ReturnAddress?
  {
  }

  // ----- what a settled instruction sends arrives -----

  lemma SettledSends(m: Method, t: Table, lengths: seq<nat>, i: nat)
    requires Analysed(m, t, lengths) && Known(t, i)
    ensures i < |m.code| == |t| && Sent(m, true, t, i).Some? && After(m, t, i).Some?
    ensures forall g | g in Sent(m, true, t, i).value :: g.to < |t| && Absorbed(g, t[g.to])
    ensures FrameOk(m.maxLocals, t[i].frame.value)
  {
    assert Settled(m, true, t, i);
    assert RecordOk(m, t, i);
    hide Absorbed, FrameOk, Execute, Grounded;
  }

  lemma SuccessorArrives(m: Method, t: Table, lengths: seq<nat>, i: nat, to: nat, note: I.Note)
    requires Analysed(m, t, lengths) && Known(t, i) && i < |m.code| && to in Successors(m.code[i], i)
    requires CodeOf(m, t, lengths).Valid() && After(m, t, i).Some? && Notes(note, Forget(m.code[i], After(m, t, i).value))
    ensures S.Arrives(CodeOf(m, t, lengths), note, to)
  {
    SettledSends(m, t, lengths, i);
    var g := SuccessorFlow(m, i, t[i].frame.value, t[i].flags, Adds(true, t[i]), to);
    hide Absorbed, PostFixpoint, Grounded, Flows, Execute, Forget, S.Arrives, Notes, CodeOf;
    AbsorbedArrives(m, t, lengths, g, note);
  }

  lemma SuccessorFlow(m: Method, i: nat, f: Frame, fl: Flags, adds: bool, to: nat) returns (g: Flow)
    requires i < |m.code| && Flows(m, i, f, fl, adds).Some? && Execute(m, i, f, adds).Some? && to in Successors(m.code[i], i)
    ensures g in Flows(m, i, f, fl, adds).value && g.to == to && g.frame == Forget(m.code[i], Execute(m, i, f, adds).value)
  {
    var ins := m.code[i];
    var after, flAfter, succ := Forget(ins, Execute(m, i, f, adds).value), UpdateFlags(m, ins, f, fl), Successors(ins, i);
    var hf := HandlerFlows(m, i, Forget(ins, f), after, fl, flAfter, m.handlers);
    var sf := seq(|succ|, k requires 0 <= k < |succ| => Flow(succ[k], after, flAfter));
    assert Flows(m, i, f, fl, adds).value == hf + sf;
    var k :| 0 <= k < |succ| && succ[k] == to;
    g := sf[k];
    assert g in sf;
  }

  lemma {:induction false} HandlerFlow(m: Method, i: nat, before: Frame, after: Frame, fl: Flags, flAfter: Flags, hs: seq<Handler>, h: Handler)
    returns (g: Flow)
    requires i < |m.code| && h in hs && Covers(h, i)
    ensures g in HandlerFlows(m, i, before, after, fl, flAfter, hs) && g.to == h.handler
    ensures g.frame == Frame([h.catchType], before.regs, before.masks)
  {
    if hs[0] == h {
      g := Flow(h.handler, Frame([h.catchType], before.regs, before.masks), fl);
    } else {
      g := HandlerFlow(m, i, before, after, fl, flAfter, hs[1..], h);
    }
  }

  lemma FrameNotes(r: Record)
    requires r.frame.Some?
    ensures Notes(NoteOf(r), r.frame.value)
  {
  }

  lemma HandlerSent(m: Method, i: nat, f: Frame, fl: Flags, adds: bool, h: Handler) returns (g: Flow)
    requires i < |m.code| && h in m.handlers && Covers(h, i) && Flows(m, i, f, fl, adds).Some?
    ensures g in Flows(m, i, f, fl, adds).value && g.to == h.handler
    ensures g.frame == Frame([h.catchType], Forget(m.code[i], f).regs, f.masks)
  {
    var ins := m.code[i];
    var after, flAfter := Forget(ins, Execute(m, i, f, adds).value), UpdateFlags(m, ins, f, fl);
    g := HandlerFlow(m, i, Forget(ins, f), after, fl, flAfter, m.handlers, h);
    assert Forget(ins, f).masks == f.masks;
    hide Execute, HandlerFlows, UpdateFlags, Forget;
  }

  lemma CaughtNotes(r: Record, c: Type, ins: Instr)
    requires r.frame.Some? && c.Obj?
    ensures NoteOf(r).Reached?
    ensures Notes(NoteOf(r).(stack := [I.Word]), Frame([c], Forget(ins, r.frame.value).regs, r.frame.value.masks))
  {
    FrameNotes(r);
    OneItem(c);
  }

  /** An exception arrives at its handler. */
  lemma HandlerArrives(m: Method, t: Table, lengths: seq<nat>, i: nat, k: nat)
    requires Analysed(m, t, lengths) && Known(t, i) && i < |m.code|
    requires k < |m.handlers| && Covers(m.handlers[k], i) && CodeOf(m, t, lengths).Valid()
    ensures S.Arrives(CodeOf(m, t, lengths), NoteOf(t[i]).(stack := [I.Word]), m.handlers[k].handler)
  {
    SettledSends(m, t, lengths, i);
    assert LegalHandler(m, m.handlers[k]);
    CaughtNotes(t[i], m.handlers[k].catchType, m.code[i]);
    hide PostFixpoint, Grounded, Flows, CodeOf, Absorbed, S.Arrives, Notes, Execute, Forget;
    var g := HandlerSent(m, i, t[i].frame.value, t[i].flags, Adds(true, t[i]), m.handlers[k]);
    AbsorbedArrives(m, t, lengths, g, NoteOf(t[i]).(stack := [I.Word]));
  }

  lemma HandlersAreAccepted(m: Method, t: Table, lengths: seq<nat>, i: nat)
    requires Analysed(m, t, lengths) && Known(t, i) && i < |m.code| && CodeOf(m, t, lengths).Valid()
    requires i < |CodeOf(m, t, lengths).instrs| && CodeOf(m, t, lengths).notes[i] == NoteOf(t[i])
    ensures |NoteOf(t[i]).changed| == |NoteOf(t[i]).context| && S.HandlersArrive(CodeOf(m, t, lengths), i)
  {
    var code := CodeOf(m, t, lengths);
    InstrAt(m, t, lengths, i);
    NotePartsAre(t[i]);
    hide CodeOf, NoteOf, OpOf, PostFixpoint, Grounded, S.Arrives, Covers, J.Covers, Analysed;
    forall k | 0 <= k < |code.table| && J.Covers(code.table[k], i)
      ensures S.Arrives(code, code.notes[i].(stack := [I.Word]), code.table[k].handler)
    {
      HandlerArrives(m, t, lengths, i, k);
    }
  }

  lemma InstrAt(m: Method, t: Table, lengths: seq<nat>, i: nat)
    requires Fits(m, t, lengths) && i < |m.code|
    ensures var code := CodeOf(m, t, lengths);
            && i < |code.instrs| == |code.notes| && code.notes[i] == NoteOf(t[i]) && code.nlocals == m.maxLocals
            && code.instrs[i].op == OpOf(m, i) && |code.table| == |m.handlers|
            && forall k | 0 <= k < |m.handlers| :: code.table[k].handler == m.handlers[k].handler && (J.Covers(code.table[k], i) <==> Covers(m.handlers[k], i))
  {
    hide OpOf, NoteOf;
  }

  /** Popped words of the note are words of the frame. */
  lemma PoppedItems(stack: seq<Type>, n: nat)
    requires n <= |stack|
    ensures StackWords(stack[..n]) <= StackWords(stack)
    ensures (forall k | StackWords(stack) - StackWords(stack[..n]) <= k < StackWords(stack) :: StackKinds(stack)[k] == I.Word) <==>
            forall k | 0 <= k < n :: !stack[k].ReturnAddress?
  {
    var top, rest := stack[..n], StackKinds(stack[n..]);
    StackSplit(stack, n);
    WordItems(top);
    hide StackKinds, StackWords;
    var kinds, words := StackKinds(top), StackWords(top);
    assert forall k | 0 <= k < n :: top[k] == stack[k];
    if forall k | |rest| <= k < |rest| + words :: StackKinds(stack)[k] == I.Word {
      forall k | 0 <= k < words ensures kinds[k] == I.Word {
        assert StackKinds(stack)[|rest| + k] == kinds[k];
      }
      assert kinds == S.WordStack(words);
    }
    if kinds == S.WordStack(words) {
      forall k | |rest| <= k < |rest| + words ensures StackKinds(stack)[k] == I.Word {
        assert StackKinds(stack)[k] == kinds[k - |rest|];
      }
    }
  }

  lemma PlainOp(m: Method, i: nat)
    requires i < |m.code| && OpOf(m, i).Plain?
    ensures var op, ins := OpOf(m, i), m.code[i];
            && !ins.Goto? && !ins.Jsr? && !ins.Ret? && !(ins.Store? && ins.kind.KRef?)
            && op.loads == LoadsOf(ins) && op.stores == StoresOf(ins)
            && (op.falls ==> i + 1 in Successors(ins, i)) && (forall t | t in op.targets :: t in Successors(ins, i))
            && (if ins.Stack? then op.pops == Taken(ins.op) && op.pushes == Left(ins.op)
                else op.pops == PopWords(Operands(m, ins)) && op.pushes == PushWords(ins))
  {
    hide Operands;
  }

  /** The items an ordinary instruction takes. */
  function ItemsTaken(m: Method, i: nat, f: Frame): nat
    requires i < |m.code|
  {
    if m.code[i].Stack? then PicksOn(m.code[i].op, f.stack).count else |Operands(m, m.code[i])|
  }

  lemma PlainPops(m: Method, i: nat, f: Frame, adds: bool)
    requires Legal(m) && i < |m.code| && Execute(m, i, f, adds).Some? && OpOf(m, i).Plain?
    ensures var op, out, n := OpOf(m, i), Execute(m, i, f, adds).value, ItemsTaken(m, i, f);
            && n <= |f.stack| && StackWords(f.stack[..n]) == op.pops <= StackWords(f.stack)
            && ((forall k | 0 <= k < n :: !f.stack[k].ReturnAddress?) ==>
                  StackKinds(out.stack) == StackKinds(f.stack)[..StackWords(f.stack) - op.pops] + S.WordStack(op.pushes))
  {
    var ins := m.code[i];
    PlainOp(m, i);
    if ins.Stack? {
      PicksWords(ins.op, f.stack);
      hide StackKinds, PicksOn, Shuffle, StackWords, Taken, Left;
    } else {
      PlainStack(m, i, f, adds);
      hide StackKinds, Execute, Operands, StackWords, PopWords, PushWords;
    }
  }

  lemma PlainMasks(m: Method, i: nat, f: Frame, adds: bool)
    requires i < |m.code| && Execute(m, i, f, adds).Some? && !m.code[i].Jsr?
    ensures var out := Execute(m, i, f, adds).value;
            && |f.stack| >= |Operands(m, m.code[i])|
            && EntriesOf(out.masks) == EntriesOf(f.masks)
            && forall q | 0 <= q < |f.masks| :: out.masks[q].changed == f.masks[q].changed + Touched(m, i, m.code[i], f)
  {
    hide UpdateStack, UpdateRegisters, Touched, Operands;
  }

  lemma PlainOutIs(code: I.Code, i: nat)
    requires code.Valid() && i < |code.instrs| && code.instrs[i].op.Plain? && code.notes[i].Reached?
    requires code.instrs[i].op.pops <= |code.notes[i].stack| && |code.notes[i].changed| == |code.notes[i].context|
    ensures var op, n, after := code.instrs[i].op, code.notes[i], S.PlainOut(code, i);
            && after.context == n.context && |after.changed| == |n.changed|
            && (forall q | 0 <= q < |n.changed| :: after.changed[q] == n.changed[q] + S.StoredTo(op.stores))
            && after.stack == n.stack[..|n.stack| - op.pops] + S.WordStack(op.pushes)
            && (forall k: nat :: k in op.stores ==> k in after.registers && after.registers[k] == I.Word)
            && (forall k: nat :: k !in op.stores && k in n.registers ==> k in after.registers && after.registers[k] == n.registers[k])
  {
  }

  lemma NotePartsAre(r: Record)
    requires r.frame.Some?
    ensures var n, f := NoteOf(r), r.frame.value;
            && n.Reached? && n.context == EntriesOf(f.masks) && n.changed == ChangesOf(f.masks) && n.stack == StackKinds(f.stack)
            && |n.changed| == |n.context| == |f.masks| && (n.hasRet <==> r.ret.Some?)
            && (forall q | 0 <= q < |f.masks| :: n.changed[q] == f.masks[q].changed && n.context[q] == f.masks[q].entry)
            && (forall k: nat :: k in n.registers <==> k < |f.regs| && !f.regs[k].Bogus?)
            && (forall k: nat | k < |f.regs| && !f.regs[k].Bogus? :: n.registers[k] == KindOf(f.regs[k]))
  {
  }

  /** The note an ordinary instruction leaves describes the frame it leaves. */
  lemma PlainDescribes(n: I.Note, f: Frame, out: Frame, after: I.Note, op: J.Op, touched: set<nat>)
    requires n.Reached? && after.Reached? && op.Plain? && |n.changed| == |n.context| == |f.masks| && op.pops <= |n.stack|
    requires n.context == EntriesOf(f.masks) && n.stack == StackKinds(f.stack)
    requires forall q | 0 <= q < |f.masks| :: n.changed[q] == f.masks[q].changed
    requires forall k: nat | k < |f.regs| && !f.regs[k].Bogus? :: k in n.registers && n.registers[k] == KindOf(f.regs[k])
    requires after.context == n.context && |after.changed| == |n.changed|
    requires forall q | 0 <= q < |n.changed| :: after.changed[q] == n.changed[q] + S.StoredTo(op.stores)
    requires after.stack == n.stack[..|n.stack| - op.pops] + S.WordStack(op.pushes)
    requires forall k: nat :: k in op.stores ==> k in after.registers && after.registers[k] == I.Word
    requires forall k: nat :: k !in op.stores && k in n.registers ==> k in after.registers && after.registers[k] == n.registers[k]
    requires EntriesOf(out.masks) == EntriesOf(f.masks) && S.StoredTo(op.stores) <= touched
    requires forall q | 0 <= q < |f.masks| :: out.masks[q].changed == f.masks[q].changed + touched
    requires StackKinds(out.stack) == n.stack[..|n.stack| - op.pops] + S.WordStack(op.pushes)
    requires forall k: nat | k < |out.regs| && !out.regs[k].Bogus? ::
               if k in op.stores then !out.regs[k].ReturnAddress?
               else k < |f.regs| && !f.regs[k].Bogus? && KindOf(out.regs[k]) == KindOf(f.regs[k])
    ensures Notes(after, out)
  {
    assert |out.masks| == |EntriesOf(out.masks)| == |f.masks|;
    hide StackKinds, EntriesOf, S.StoredTo, S.WordStack;
  }

  lemma PlainNotes(m: Method, t: Table, lengths: seq<nat>, i: nat)
    requires Analysed(m, t, lengths) && Known(t, i) && i < |m.code| && OpOf(m, i).Plain? && CodeOf(m, t, lengths).Valid()
    requires After(m, t, i).Some?
    ensures OpOf(m, i).pops <= StackWords(t[i].frame.value.stack)
    ensures i < |CodeOf(m, t, lengths).instrs| && CodeOf(m, t, lengths).instrs[i].op.Plain? && CodeOf(m, t, lengths).notes[i].Reached?
    ensures CodeOf(m, t, lengths).instrs[i].op.pops <= |CodeOf(m, t, lengths).notes[i].stack|
    ensures S.PopsWords(CodeOf(m, t, lengths), i) ==> Notes(S.PlainOut(CodeOf(m, t, lengths), i), After(m, t, i).value)
  {
    hide OpOf, CodeOf, NoteOf, Execute, PostFixpoint, Grounded, CleanStacks, StackKinds;
    var code, f, op := CodeOf(m, t, lengths), t[i].frame.value, OpOf(m, i);
    InstrAt(m, t, lengths, i);
    PlainPops(m, i, f, Adds(true, t[i]));
    NotePartsAre(t[i]);
    PoppedItems(f.stack, ItemsTaken(m, i, f));
    if S.PopsWords(code, i) {
      PlainOutIs(code, i);
      hide *;
      PlainNotesIf(m, t, i, S.PlainOut(code, i));
    }
  }

  lemma PlainNotesIf(m: Method, t: Table, i: nat, after: I.Note)
    requires Legal(m) && |t| == |m.code| && Known(t, i) && OpOf(m, i).Plain? && After(m, t, i).Some? && after.Reached?
    requires var n, f, op := NoteOf(t[i]), t[i].frame.value, OpOf(m, i);
             && ItemsTaken(m, i, f) <= |f.stack| && (forall k | 0 <= k < ItemsTaken(m, i, f) :: !f.stack[k].ReturnAddress?)
             && after.context == n.context && |after.changed| == |n.changed|
             && (forall q | 0 <= q < |n.changed| :: after.changed[q] == n.changed[q] + S.StoredTo(op.stores))
             && op.pops <= |n.stack| && after.stack == n.stack[..|n.stack| - op.pops] + S.WordStack(op.pushes)
             && (forall k: nat :: k in op.stores ==> k in after.registers && after.registers[k] == I.Word)
             && (forall k: nat :: k !in op.stores && k in n.registers ==> k in after.registers && after.registers[k] == n.registers[k])
    ensures Notes(after, After(m, t, i).value)
  {
    hide OpOf, NoteOf, Execute, StackKinds, S.StoredTo, Operands, StoresOf, LoadsOf, Touched, PicksOn, Legal, Successors, Notes, S.WordStack, ItemsTaken, StackWords;
    var f, out, op := t[i].frame.value, After(m, t, i).value, OpOf(m, i);
    PlainPops(m, i, f, Adds(true, t[i]));
    NotePartsAre(t[i]);
    PlainOp(m, i);
    PlainMasks(m, i, f, Adds(true, t[i]));
    StoresTouched(m, i, f);
    forall k: nat | k < |out.regs| && !out.regs[k].Bogus?
      ensures if k in op.stores then !out.regs[k].ReturnAddress?
              else k < |f.regs| && !f.regs[k].Bogus? && KindOf(out.regs[k]) == KindOf(f.regs[k])
    {
      PlainRegisters(m, i, f, Adds(true, t[i]), k);
    }
    PlainDescribes(NoteOf(t[i]), f, out, after, op, Touched(m, i, m.code[i], f));
  }

  // ----- the checks, instruction by instruction -----

  lemma PlainIsAccepted(m: Method, t: Table, lengths: seq<nat>, i: nat)
    requires Analysed(m, t, lengths) && Known(t, i) && i < |m.code| && OpOf(m, i).Plain? && CodeOf(m, t, lengths).Valid()
    ensures var code := CodeOf(m, t, lengths);
            && i < |code.instrs| && code.instrs[i].op.Plain? && code.notes[i].Reached?
            && |code.notes[i].changed| == |code.notes[i].context| && S.PlainAccepted(code, i)
  {
    hide CodeOf, OpOf, NoteOf, PostFixpoint, Grounded, S.Arrives, S.PopsWords, S.PlainOut, Notes, Successors, Covers, J.Covers, Operands, Legal, Execute, LoadsOf, StoresOf, PicksOn, StackKinds, Forget, CleanStacks;
    var code, f, op := CodeOf(m, t, lengths), t[i].frame.value, OpOf(m, i);
    SettledSends(m, t, lengths, i);
    InstrAt(m, t, lengths, i);
    NotePartsAre(t[i]);
    PlainNotes(m, t, lengths, i);
    PlainOp(m, i);
    PlainLegal(m, t, i);
    NoForget(m, i, After(m, t, i).value);
    if S.PopsWords(code, i) {
      if op.falls {
        SuccessorArrives(m, t, lengths, i, i + 1, S.PlainOut(code, i));
      }
      forall k | 0 <= k < |op.targets| ensures S.Arrives(code, S.PlainOut(code, i), op.targets[k]) {
        SuccessorArrives(m, t, lengths, i, op.targets[k], S.PlainOut(code, i));
      }
    }
  }

  lemma NoForget(m: Method, i: nat, f: Frame)
    requires i < |m.code|
    ensures !m.code[i].Jsr? && !m.code[i].Ret? ==> Forget(m.code[i], f) == f
  {
  }

  lemma PlainLegal(m: Method, t: Table, i: nat)
    requires Legal(m) && |t| == |m.code| && Known(t, i) && After(m, t, i).Some?
    ensures var f := t[i].frame.value;
            forall k | 0 <= k < |LoadsOf(m.code[i])| ::
              LoadsOf(m.code[i])[k] < |f.regs| && !f.regs[LoadsOf(m.code[i])[k]].Bogus? && KindOf(f.regs[LoadsOf(m.code[i])[k]]) == I.Word
    ensures forall k | 0 <= k < |StoresOf(m.code[i])| :: StoresOf(m.code[i])[k] < m.maxLocals
  {
    var f := t[i].frame.value;
    assert LegalOperands(m, m.code[i]);
    assert RegistersReadable(m.code[i], f.regs) && |f.stack| >= |Operands(m, m.code[i])| by {
      hide Operands, UpdateStack, UpdateRegisters, UpdateMasks, LegalOperands;
    }
    hide Execute, Operands;
    StoresTouched(m, i, f);
  }

  lemma GotoIsAccepted(m: Method, t: Table, lengths: seq<nat>, i: nat)
    requires Analysed(m, t, lengths) && Known(t, i) && i < |m.code| && m.code[i].Goto? && CodeOf(m, t, lengths).Valid()
    ensures S.Arrives(CodeOf(m, t, lengths), NoteOf(t[i]), m.code[i].target)
  {
    SettledSends(m, t, lengths, i);
    var f, out := t[i].frame.value, After(m, t, i).value;
    PlainStack(m, i, f, Adds(true, t[i]));
    PlainMasks(m, i, f, Adds(true, t[i]));
    NotePartsAre(t[i]);
    assert out.regs == f.regs;
    assert |out.masks| == |EntriesOf(out.masks)|;
    assert Notes(NoteOf(t[i]), out) by {
      hide Execute, PostFixpoint, Grounded, Analysed, NoteOf;
      assert S.WordStack(0) == [];
      assert StackKinds(out.stack) == StackKinds(f.stack);
    }
    NoForget(m, i, out);
    hide NoteOf, PostFixpoint, Grounded, S.Arrives, Notes, CodeOf, Execute;
    SuccessorArrives(m, t, lengths, i, m.code[i].target, NoteOf(t[i]));
  }

  lemma AstoreIsAccepted(m: Method, t: Table, lengths: seq<nat>, i: nat)
    requires Analysed(m, t, lengths) && Known(t, i) && i < |m.code| && m.code[i].Store? && m.code[i].kind.KRef? && CodeOf(m, t, lengths).Valid()
    ensures var n := NoteOf(t[i]);
            && n.Reached? && n.stack != [] && m.code[i].local < m.maxLocals && |n.changed| == |n.context|
            && S.Arrives(CodeOf(m, t, lengths), S.AstoreOut(n, m.code[i].local), i + 1)
  {
    SettledSends(m, t, lengths, i);
    var f, out, r := t[i].frame.value, After(m, t, i).value, m.code[i].local;
    assert LegalOperands(m, m.code[i]);
    PlainStack(m, i, f, Adds(true, t[i]));
    PlainMasks(m, i, f, Adds(true, t[i]));
    NotePartsAre(t[i]);
    StoredReference(m, i, f, Adds(true, t[i]));
    assert PopWords([Storable]) == 1;
    NoForget(m, i, out);
    hide CodeOf, NoteOf, PostFixpoint, Grounded, S.Arrives, Execute, Analysed, Legal;
    AstoreNotes(NoteOf(t[i]), f, out, r);
    SuccessorArrives(m, t, lengths, i, i + 1, S.AstoreOut(NoteOf(t[i]), r));
  }

  lemma StoredReference(m: Method, i: nat, f: Frame, adds: bool)
    requires Legal(m) && i < |m.code| && Execute(m, i, f, adds).Some? && m.code[i].Store? && m.code[i].kind.KRef?
    ensures var out := Execute(m, i, f, adds).value;
            && f.stack != [] && !f.stack[0].Bogus? && !IsWide(f.stack[0]) && Operands(m, m.code[i]) == [Storable]
            && Touched(m, i, m.code[i], f) == {m.code[i].local}
            && out.regs == SetRegister(f.regs, m.code[i].local, f.stack[0])
  {
    assert Accepts(m, Operands(m, m.code[i])[0], f.stack[0]);
  }

  lemma AstoreNotes(n: I.Note, f: Frame, out: Frame, r: nat)
    requires n.Reached? && |n.changed| == |n.context| == |f.masks| && f.stack != [] && !f.stack[0].Bogus? && !IsWide(f.stack[0])
    requires n.context == EntriesOf(f.masks) && n.stack == StackKinds(f.stack)
    requires forall q | 0 <= q < |f.masks| :: n.changed[q] == f.masks[q].changed
    requires forall k: nat | k < |f.regs| && !f.regs[k].Bogus? :: k in n.registers && n.registers[k] == KindOf(f.regs[k])
    requires EntriesOf(out.masks) == EntriesOf(f.masks)
    requires forall q | 0 <= q < |f.masks| :: out.masks[q].changed == f.masks[q].changed + {r}
    requires StackWords(f.stack) > 0 && StackKinds(out.stack) == StackKinds(f.stack)[..StackWords(f.stack) - 1] + S.WordStack(0)
    requires out.regs == SetRegister(f.regs, r, f.stack[0])
    ensures Notes(S.AstoreOut(n, r), out)
  {
    assert S.WordStack(0) == [];
    assert n.stack[|n.stack| - 1] == KindOf(f.stack[0]);
    assert |out.masks| == |EntriesOf(out.masks)| == |f.masks|;
    assert S.StoredTo([r]) == {r};
  }

  // ----- calls -----

  lemma {:induction false} ForgottenKinds(s: seq<Type>)
    ensures StackKinds(Forgotten(s)) == StackKinds(s)
  {
    if s != [] {
      assert Forgotten(s)[1..] == Forgotten(s[1..]);
      ForgottenKinds(s[1..]);
    }
  }

  lemma CallLeaves(m: Method, i: nat, f: Frame, adds: bool)
    requires i < |m.code| && m.code[i].Jsr? && Execute(m, i, f, adds).Some?
    ensures var x := m.code[i].target;
            && !HasEntry(f.masks, x)
            && Forget(m.code[i], Execute(m, i, f, adds).value) ==
               Frame(Forgotten([ReturnAddress(x)] + f.stack), Forgotten(f.regs), if adds then f.masks + [Mask(x, {})] else f.masks)
  {
  }

  lemma CallNotes(n: I.Note, f: Frame, x: nat)
    requires n.Reached? && |n.changed| == |n.context| == |f.masks|
    requires n.context == EntriesOf(f.masks) && n.stack == StackKinds(f.stack)
    requires forall q | 0 <= q < |f.masks| :: n.changed[q] == f.masks[q].changed
    requires forall k: nat | k < |f.regs| && !f.regs[k].Bogus? :: k in n.registers && n.registers[k] == KindOf(f.regs[k])
    ensures Notes(S.JsrOut(n, x),
                  Frame(Forgotten([ReturnAddress(x)] + f.stack), Forgotten(f.regs), if n.hasRet then f.masks + [Mask(x, {})] else f.masks))
  {
    ForgottenKinds([ReturnAddress(x)] + f.stack);
    StackPlus([ReturnAddress(x)], f.stack);
    OneItem(ReturnAddress(x));
    var masks := if n.hasRet then f.masks + [Mask(x, {})] else f.masks;
    assert S.JsrOut(n, x).context == EntriesOf(masks);
    hide StackKinds;
  }

  /** The ret recorded for a jsr has returned to the place behind it. */
  lemma ReturnPlaceKnown(m: Method, t: Table, lengths: seq<nat>, i: nat)
    requires Analysed(m, t, lengths) && Known(t, i) && i < |m.code| && m.code[i].Jsr? && t[i].ret.Some?
    ensures i + 1 < |t| && t[i + 1].frame.Some?
  {
    var k := t[i].ret.value;
    assert RetMatches(m, t, i);
    hide PostFixpoint, Grounded, Legal, Execute, ReturnSettled;
    var q := RetReturns(m, t, k);
    RetLeaves(m, t, k);
    ReturnIsAbsorbed(m, t, lengths, ReturningFrom(m, t, k), i);
  }

  lemma {:induction false} NoAddressIn(s: seq<Type>, x: nat)
    requires ReturnAddress(x) !in s
    ensures I.ReturnTo(x) !in StackKinds(s)
  {
    if s != [] {
      assert s[0] in s && forall t | t in s[1..] :: t in s;
      NoAddressIn(s[1..], x);
    }
  }

  lemma NoOlderAddress(t: Table, x: nat, kinds: seq<I.Kind>)
    requires Known(t, x) && NoOlder(t[x].frame.value, x) && NoteOf(t[x]).stack == kinds + [I.ReturnTo(x)]
    ensures I.ReturnTo(x) !in kinds
    ensures forall r | r in NoteOf(t[x]).registers :: NoteOf(t[x]).registers[r] != I.ReturnTo(x)
  {
    var f := t[x].frame.value;
    var rest, top := StackKinds(f.stack[1..]), ItemKinds(f.stack[0]);
    assert kinds + [I.ReturnTo(x)] == rest + top;
    assert (rest + top)[|rest + top| - 1] == top[|top| - 1] == I.ReturnTo(x);
    assert |top| == 1 && kinds == rest by {
      assert (kinds + [I.ReturnTo(x)])[..|kinds|] == kinds && (rest + top)[..|rest|] == rest;
    }
    assert ReturnAddress(x) !in f.stack[1..] by {
      forall k | 0 <= k < |f.stack[1..]| ensures f.stack[1..][k] != ReturnAddress(x) {
        assert f.stack[k + 1] != ReturnAddress(x);
      }
    }
    NoAddressIn(f.stack[1..], x);
    forall r | r in NoteOf(t[x]).registers ensures NoteOf(t[x]).registers[r] != I.ReturnTo(x) {
      assert f.regs[r] in f.regs;
    }
  }

  lemma JsrIsAccepted(m: Method, t: Table, lengths: seq<nat>, i: nat)
    requires Analysed(m, t, lengths) && Known(t, i) && i < |m.code| && m.code[i].Jsr? && CodeOf(m, t, lengths).Valid()
    ensures var code := CodeOf(m, t, lengths);
            && i < |code.instrs| && code.instrs[i].op.Jsr? && code.notes[i].Reached? && |code.notes[i].changed| == |code.notes[i].context|
            && S.JsrAccepted(code, i)
  {
    hide CodeOf, NoteOf, PostFixpoint, Grounded, S.Arrives, Execute, Legal, Notes, Forget, OpOf, StackKinds, S.JsrOut;
    var code, f, x := CodeOf(m, t, lengths), t[i].frame.value, m.code[i].target;
    SettledSends(m, t, lengths, i);
    InstrAt(m, t, lengths, i);
    NotePartsAre(t[i]);
    CallOp(m, i);
    CallLeaves(m, i, f, Adds(true, t[i]));
    CallNotes(NoteOf(t[i]), f, x);
    assert x !in EntriesOf(f.masks) by {
      forall k | 0 <= k < |f.masks| ensures EntriesOf(f.masks)[k] != x {}
    }
    SuccessorArrives(m, t, lengths, i, x, S.JsrOut(NoteOf(t[i]), x));
    CallStack(NoteOf(t[i]), x);
    ArrivedAt(m, t, lengths, S.JsrOut(NoteOf(t[i]), x), x);
    if t[i].ret.Some? {
      ReturnPlaceKnown(m, t, lengths, i);
      InstrAt(m, t, lengths, i + 1);
      NoOlderAddress(t, x, NoteOf(t[i]).stack);
    }
  }

  lemma CallOp(m: Method, i: nat)
    requires i < |m.code|
    ensures m.code[i].Jsr? ==> OpOf(m, i) == J.Jsr(m.code[i].target)
    ensures m.code[i].Ret? ==> OpOf(m, i) == J.Ret(m.code[i].local)
    ensures m.code[i].Goto? ==> OpOf(m, i) == J.Goto(m.code[i].target)
    ensures m.code[i].Store? && m.code[i].kind.KRef? ==> OpOf(m, i) == J.Astore(m.code[i].local)
    ensures OpOf(m, i).Plain? ||
            m.code[i].Jsr? || m.code[i].Ret? || m.code[i].Goto? || (m.code[i].Store? && m.code[i].kind.KRef?)
    ensures OpOf(m, i).Jsr? ==> m.code[i].Jsr?
    ensures OpOf(m, i).Ret? ==> m.code[i].Ret?
  {
  }

  lemma CallStack(n: I.Note, x: nat)
    requires n.Reached?
    ensures S.JsrOut(n, x).Reached? && S.JsrOut(n, x).stack == n.stack + [I.ReturnTo(x)]
    ensures |n.changed| == |n.context| ==> |S.JsrOut(n, x).changed| == |S.JsrOut(n, x).context|
  {
  }

  lemma ArrivedAt(m: Method, t: Table, lengths: seq<nat>, out: I.Note, x: nat)
    requires Analysed(m, t, lengths) && CodeOf(m, t, lengths).Valid() && out.Reached? && |out.changed| == |out.context|
    requires S.Arrives(CodeOf(m, t, lengths), out, x)
    ensures x < |m.code| && Known(t, x) && CodeOf(m, t, lengths).notes[x] == NoteOf(t[x]) && NoteOf(t[x]).stack == out.stack
    ensures NoOlder(t[x].frame.value, x)
  {
    hide PostFixpoint, OpOf, Legal, S.Kept;
  }

  // ----- returns -----

  lemma RetLeaves(m: Method, t: Table, i: nat)
    requires |t| == |m.code| && Known(t, i) && m.code[i].Ret? && Execute(m, i, t[i].frame.value, true).Some?
    ensures var f, r := t[i].frame.value, m.code[i].local;
            && r < |f.regs| && f.regs[r].ReturnAddress?
            && ReturningFrom(m, t, i) == Returning(i, f.regs[r].entry, Frame(Forgotten(f.stack), Forgotten(f.regs), Touch(f.masks, {r})), t[i].flags)
  {
    assert t[i].frame.value.stack[0..] == t[i].frame.value.stack;
  }

  /** A reached ret returns from a subroutine that has been called, to behind each of its calls. */
  lemma RetReturns(m: Method, t: Table, i: nat) returns (q: nat)
    requires PostFixpoint(m, t) && Grounded(m, t) && Known(t, i) && i < |m.code| && m.code[i].Ret?
    ensures Execute(m, i, t[i].frame.value, true).Some?
    ensures var f, r := t[i].frame.value, m.code[i].local;
            && r < |f.regs| && f.regs[r].ReturnAddress?
            && q < |t| && t[q].frame.Some? && m.code[q] == Jsr(f.regs[r].entry)
            && forall j | 0 <= j < |t| && m.code[j] == Jsr(f.regs[r].entry) :: ReturnSettled(t, ReturningFrom(m, t, i), j)
  {
    assert Settled(m, true, t, i);
    RetLeaves(m, t, i);
    var f, e := t[i].frame.value, t[i].frame.value.regs[m.code[i].local].entry;
    assert Mentions(f, e) by {
      assert f.regs[m.code[i].local] in f.regs;
    }
    hide Mentions, Execute, ReturnSettled, Sent, NoOlder, Legal;
    assert Called(m, t, e);
    q :| 0 <= q < |t| && t[q].frame.Some? && m.code[q] == Jsr(e);
  }

  /** A return behind a recorded jsr. */
  lemma ReturnIsAbsorbed(m: Method, t: Table, lengths: seq<nat>, x: Returning, j: nat)
    requires Analysed(m, t, lengths) && j < |t| && t[j].frame.Some? && ReturnSettled(t, x, j)
    ensures j + 1 < |t| && t[j + 1].frame.Some? && t[j].ret == Some(x.ret)
    ensures var f := ReturnFrame(x.out, t[j].frame.value.regs, x.entry);
            && f.Some? && FrameBelow(f.value, t[j + 1].frame.value)
  {
    hide FrameBelow, ReturnFrame, Grounded, TableOk, Settled, Legal;
  }

  lemma ReturnMasks(m: Method, t: Table, lengths: seq<nat>, i: nat, j: nat, k: nat)
    requires |t| == |m.code| && Known(t, i) && Known(t, j) && Known(t, j + 1) && m.code[i].Ret?
    requires k < |t[i].frame.value.masks| && MasksBelow(Touch(t[i].frame.value.masks, {m.code[i].local})[..k], t[j + 1].frame.value.masks)
    ensures S.Kept(NoteOf(t[i]).context[..k], NoteOf(t[i]).changed[..k], NoteOf(t[j + 1]))
  {
    var f, r := t[i].frame.value, m.code[i].local;
    NotePartsAre(t[i]);
    NotePartsAre(t[j + 1]);
    MasksKept(NoteOf(t[i]).context[..k], NoteOf(t[i]).changed[..k], Touch(f.masks, {r})[..k], NoteOf(t[j + 1]), t[j + 1].frame.value.masks);
  }

  lemma ReturnRegisters(t: Table, i: nat, j: nat, changed: set<nat>)
    requires Known(t, i) && Known(t, j) && Known(t, j + 1)
    requires Assignable(JoinedRegisters(changed, Forgotten(t[i].frame.value.regs), t[j].frame.value.regs), t[j + 1].frame.value.regs)
    ensures forall r | r in NoteOf(t[j + 1]).registers ::
              var from := if r in changed then NoteOf(t[i]).registers else NoteOf(t[j]).registers;
              r in from && from[r] == NoteOf(t[j + 1]).registers[r]
  {
    var joined, after := JoinedRegisters(changed, Forgotten(t[i].frame.value.regs), t[j].frame.value.regs), t[j + 1].frame.value.regs;
    forall r | r in NoteOf(t[j + 1]).registers
      ensures var from := if r in changed then NoteOf(t[i]).registers else NoteOf(t[j]).registers;
              r in from && from[r] == NoteOf(t[j + 1]).registers[r]
    {
      AssignableKind(joined[r], after[r]);
    }
  }

  lemma ReturnIsAccepted(m: Method, t: Table, lengths: seq<nat>, i: nat, j: nat, k: nat)
    requires Analysed(m, t, lengths) && CodeOf(m, t, lengths).Valid() && Known(t, i) && Known(t, j) && i < |m.code| && m.code[i].Ret?
    requires Execute(m, i, t[i].frame.value, true).Some?
    requires var f, r := t[i].frame.value, m.code[i].local;
             r < |f.regs| && f.regs[r].ReturnAddress? && k < |f.masks| && k == FindMask(Touch(f.masks, {r}), f.regs[r].entry, |f.masks|)
    requires ReturnSettled(t, ReturningFrom(m, t, i), j)
    requires var code := CodeOf(m, t, lengths);
             && i < |code.instrs| && j < |code.instrs| && code.instrs[i].op == J.Ret(m.code[i].local)
             && code.notes[i] == NoteOf(t[i]) && code.notes[j] == NoteOf(t[j])
    ensures k < |NoteOf(t[i]).changed| == |NoteOf(t[i]).context| && S.ReturnArrives(CodeOf(m, t, lengths), i, j, k)
  {
    var f, r := t[i].frame.value, m.code[i].local;
    RetLeaves(m, t, i);
    ReturnIsAbsorbed(m, t, lengths, ReturningFrom(m, t, i), j);
    var back, note := ReturnFrame(ReturningFrom(m, t, i).out, t[j].frame.value.regs, f.regs[r].entry).value, t[j + 1].frame.value;
    assert back == Frame(Forgotten(f.stack), JoinedRegisters(f.masks[k].changed + {r}, Forgotten(f.regs), t[j].frame.value.regs), Touch(f.masks, {r})[..k]);
    hide Execute, ReturnSettled, ReturnFrame, OpOf, Grounded, Legal, PostFixpoint;
    InstrAt(m, t, lengths, j + 1);
    NotePartsAre(t[i]);
    NotePartsAre(t[j + 1]);
    ForgottenKinds(f.stack);
    StackStays(back.stack, note.stack);
    ReturnMasks(m, t, lengths, i, j, k);
    ReturnRegisters(t, i, j, f.masks[k].changed + {r});
    hide CodeOf, NoteOf, Assignable, MasksBelow, StackKinds, JoinedRegisters, Forgotten, S.Kept;
  }

  lemma RetIsAccepted(m: Method, t: Table, lengths: seq<nat>, i: nat)
    requires Analysed(m, t, lengths) && Known(t, i) && i < |m.code| && m.code[i].Ret? && CodeOf(m, t, lengths).Valid()
    ensures var code := CodeOf(m, t, lengths);
            && i < |code.instrs| && code.instrs[i].op.Ret? && code.notes[i].Reached? && |code.notes[i].changed| == |code.notes[i].context|
            && S.RetAccepted(code, i)
  {
    hide Execute, ReturnSettled, OpOf, Grounded, Legal, PostFixpoint, CodeOf, NoteOf, FrameBelow, S.ReturnArrives, S.Arrives;
    var code, f, r := CodeOf(m, t, lengths), t[i].frame.value, m.code[i].local;
    ValidCode(m, t, lengths);
    InstrAt(m, t, lengths, i);
    NotePartsAre(t[i]);
    CallOp(m, i);
    var q := RetReturns(m, t, i);
    RetLeaves(m, t, i);
    ReturnIsAbsorbed(m, t, lengths, ReturningFrom(m, t, i), q);
    var k := FindMask(Touch(f.masks, {r}), f.regs[r].entry, |f.masks|);
    assert k < |f.masks| && f.masks[k].entry == f.regs[r].entry;
    assert S.ReturnsFrom(code, i, k);
    forall j | 0 <= j < |code.instrs| && I.ReturningJsr(code, j) && I.JsrTarget(code, j) == code.notes[i].context[k]
      ensures S.ReturnArrives(code, i, j, k)
    {
      InstrAt(m, t, lengths, j);
      NoteReached(t, j);
      CallOp(m, j);
      ReturnIsAccepted(m, t, lengths, i, j, k);
    }
  }

  lemma NoteReached(t: Table, j: nat)
    requires j < |t|
    ensures NoteOf(t[j]).Reached? <==> Known(t, j)
  {
  }

  lemma RetsAreDifferent(m: Method, t: Table, lengths: seq<nat>)
    requires Analysed(m, t, lengths) && CodeOf(m, t, lengths).Valid() && |CodeOf(m, t, lengths).instrs| == |m.code|
    ensures S.RetsDiffer(CodeOf(m, t, lengths))
  {
    hide Execute, OpOf, Grounded, Legal, PostFixpoint, CodeOf, NoteOf, ReturnSettled, FrameBelow;
    var code := CodeOf(m, t, lengths);
    forall i, j, k: nat, l: nat |
        && 0 <= i < |code.instrs| && 0 <= j < |code.instrs| && I.ReachedRet(code, i) && I.ReachedRet(code, j)
        && S.ReturnsFrom(code, i, k) && S.ReturnsFrom(code, j, l) && code.notes[i].context[k] == code.notes[j].context[l]
      ensures i == j
    {
      RetEntry(m, t, lengths, i, k);
      RetEntry(m, t, lengths, j, l);
      var q := RetReturns(m, t, i);
      var p := RetReturns(m, t, j);
      RetLeaves(m, t, i);
      RetLeaves(m, t, j);
      ReturnIsAbsorbed(m, t, lengths, ReturningFrom(m, t, i), q);
      ReturnIsAbsorbed(m, t, lengths, ReturningFrom(m, t, j), q);
    }
  }

  lemma RetEntry(m: Method, t: Table, lengths: seq<nat>, i: nat, k: nat)
    requires Analysed(m, t, lengths) && CodeOf(m, t, lengths).Valid() && i < |m.code|
    requires i < |CodeOf(m, t, lengths).instrs| && I.ReachedRet(CodeOf(m, t, lengths), i) && S.ReturnsFrom(CodeOf(m, t, lengths), i, k)
    ensures Known(t, i) && m.code[i].Ret?
    ensures var f, r := t[i].frame.value, m.code[i].local;
            r < |f.regs| && (f.regs[r].ReturnAddress? ==> f.regs[r].entry == CodeOf(m, t, lengths).notes[i].context[k])
  {
    InstrAt(m, t, lengths, i);
    NoteReached(t, i);
    NotePartsAre(t[i]);
    CallOp(m, i);
    hide CodeOf, NoteOf, OpOf, Grounded, Legal, PostFixpoint;
  }

  // ----- the whole method -----

  lemma DistinctEntries(limit: nat, masks: seq<Mask>)
    requires MasksOk(limit, masks)
    ensures S.Distinct(EntriesOf(masks))
  {
  }

  lemma NoteIsAccepted(m: Method, t: Table, lengths: seq<nat>, i: nat)
    requires Analysed(m, t, lengths) && CodeOf(m, t, lengths).Valid() && i < |CodeOf(m, t, lengths).instrs| == |m.code|
    ensures S.AcceptedAt(CodeOf(m, t, lengths), i)
  {
    hide Execute, OpOf, Grounded, Legal, PostFixpoint, CodeOf, NoteOf, S.Arrives, S.JsrAccepted, S.PlainAccepted, S.RetAccepted, S.AstoreOut, FrameOk, S.HandlersArrive;
    InstrAt(m, t, lengths, i);
    NoteReached(t, i);
    CallOp(m, i);
    if Known(t, i) {
      NotePartsAre(t[i]);
      SettledSends(m, t, lengths, i);
      FrameIs(m.maxLocals, t[i].frame.value);
      HandlersAreAccepted(m, t, lengths, i);
      if OpOf(m, i).Plain? {
        PlainIsAccepted(m, t, lengths, i);
      } else if m.code[i].Goto? {
        GotoIsAccepted(m, t, lengths, i);
      } else if m.code[i].Jsr? {
        JsrIsAccepted(m, t, lengths, i);
      } else if m.code[i].Ret? {
        RetIsAccepted(m, t, lengths, i);
      } else {
        AstoreIsAccepted(m, t, lengths, i);
      }
    }
  }

  lemma FrameIs(limit: nat, f: Frame)
    requires FrameOk(limit, f)
    ensures |f.regs| <= limit && S.Distinct(EntriesOf(f.masks))
  {
    DistinctEntries(limit, f.masks);
  }

  lemma EntryIsAccepted(m: Method, t: Table, lengths: seq<nat>)
    requires Analysed(m, t, lengths)
    ensures Known(t, 0)
    ensures var n := NoteOf(t[0]); n.Reached? && n.context == [] && n.stack == [] && forall r | r in n.registers :: n.registers[r] == I.Word
  {
    var f := t[0].frame.value;
    assert EntryAllowed(m, t);
    NotePartsAre(t[0]);
    EntryHasNoAddress(m);
    hide EntryRegisters, Grounded, NoteOf, Settled;
    forall r | r in NoteOf(t[0]).registers ensures NoteOf(t[0]).registers[r] == I.Word {
      AssignableKind(EntryRegisters(m)[r], f.regs[r]);
    }
  }

  lemma {:induction false} FieldsAreNoAddresses(types: seq<Type>)
    requires forall t | t in types :: IsFieldType(t)
    ensures forall k | 0 <= k < |RegistersOf(types)| :: !RegistersOf(types)[k].ReturnAddress?
  {
    if types != [] {
      assert forall t | t in types[1..] :: t in types;
      assert IsFieldType(types[0]);
      FieldsAreNoAddresses(types[1..]);
    }
  }

  lemma EntryHasNoAddress(m: Method)
    requires Legal(m)
    ensures forall k | 0 <= k < |EntryRegisters(m)| :: !EntryRegisters(m)[k].ReturnAddress?
  {
    FieldsAreNoAddresses(m.params);
  }

  /** What the analysis of a method ends with is accepted code for the inliner. */
  lemma AnalysedIsAccepted(m: Method, t: Table, redo: bool, trace: seq<Turn>, lengths: seq<nat>)
    requires Legal(m) && PostFixpoint(m, t) && Replay(m, trace) == Running(redo, t)
    requires CleanStacks(t) && Fits(m, t, lengths)
    ensures S.Accepted(CodeOf(m, t, lengths)) && C.TargetsInRange(CodeOf(m, t, lengths))
  {
    ReplayGrounded(m, trace);
    assert Analysed(m, t, lengths);
    hide PostFixpoint, Grounded, Replay, CodeOf, S.AcceptedAt, NoteOf, S.RetsDiffer, Analysed, OpOf;
    ValidCode(m, t, lengths);
    EntryIsAccepted(m, t, lengths);
    InstrAt(m, t, lengths, 0);
    RetsAreDifferent(m, t, lengths);
    var code := CodeOf(m, t, lengths);
    forall i | 0 <= i < |code.instrs| ensures S.AcceptedAt(code, i) {
      NoteIsAccepted(m, t, lengths, i);
    }
    TargetsAreInRange(m, t, lengths);
  }

  lemma TargetsAreInRange(m: Method, t: Table, lengths: seq<nat>)
    requires Legal(m) && Fits(m, t, lengths)
    ensures C.TargetsInRange(CodeOf(m, t, lengths))
  {
    var code := CodeOf(m, t, lengths);
    forall i | 0 <= i < |code.instrs|
      ensures match code.instrs[i].op
              case Plain(_, _, _, _, _, targets) => forall n | 0 <= n < |targets| :: targets[n] < |code.instrs|
              case Goto(to) => to < |code.instrs|
              case Jsr(to) => to < |code.instrs|
              case Ret(_) => true
              case Astore(_) => true
    {
      assert LegalOperands(m, m.code[i]);
      TargetsLegal(m, i);
      hide Legal, Operands, LegalOperands;
    }
  }

  lemma TargetsLegal(m: Method, i: nat)
    requires i < |m.code| && LegalOperands(m, m.code[i])
    ensures forall n | 0 <= n < |TargetsOf(m.code[i])| :: TargetsOf(m.code[i])[n] < |m.code|
    ensures m.code[i].Goto? || m.code[i].Jsr? ==> m.code[i].target < |m.code|
  {
    if m.code[i].Switch? {
      forall n | 0 <= n < |m.code[i].targets| ensures m.code[i].targets[n] < |m.code| {
        assert m.code[i].targets[n] in m.code[i].targets;
      }
    }
  }

  /** Return addresses are popped by astore instructions only, if no stack operation takes one. */
  lemma OnlyStackOperations(m: Method, t: Table, redo: bool, trace: seq<Turn>, lengths: seq<nat>)
    requires Legal(m) && PostFixpoint(m, t) && Replay(m, trace) == Running(redo, t)
    requires CleanStacks(t) && Fits(m, t, lengths)
    ensures CodeOf(m, t, lengths).Valid()
    ensures S.AddressesOnlyStored(CodeOf(m, t, lengths)) <==>
            forall i | 0 <= i < |t| && t[i].frame.Some? && m.code[i].Stack? :: WordsShuffled(m, t, i)
  {
    ReplayGrounded(m, trace);
    assert Analysed(m, t, lengths);
    hide PostFixpoint, Grounded, Replay, CodeOf, NoteOf, Analysed, OpOf, S.PopsWords, WordsShuffled;
    ValidCode(m, t, lengths);
    var code := CodeOf(m, t, lengths);
    forall i | 0 <= i < |t|
      ensures code.instrs[i].op.Plain? && code.notes[i].Reached? ==> t[i].frame.Some? && (S.PopsWords(code, i) <==> !m.code[i].Stack? || WordsShuffled(m, t, i))
      ensures t[i].frame.Some? && m.code[i].Stack? ==> code.instrs[i].op.Plain? && code.notes[i].Reached?
    {
      InstrAt(m, t, lengths, i);
      NoteReached(t, i);
      StackIsPlain(m, i);
      if OpOf(m, i).Plain? && Known(t, i) {
        PopsExactly(m, t, lengths, i);
      }
    }
  }

  /** The items a stack operation takes are no return addresses. */
  predicate WordsShuffled(m: Method, t: Table, i: nat)
    requires i < |t| == |m.code| && t[i].frame.Some? && m.code[i].Stack?
  {
    var s := t[i].frame.value.stack;
    forall k | 0 <= k < PicksOn(m.code[i].op, s).count :: !s[k].ReturnAddress?
  }

  lemma StackIsPlain(m: Method, i: nat)
    requires i < |m.code|
    ensures m.code[i].Stack? ==> OpOf(m, i).Plain?
  {
  }

  lemma PopsExactly(m: Method, t: Table, lengths: seq<nat>, i: nat)
    requires Legal(m) && Analysed(m, t, lengths) && CodeOf(m, t, lengths).Valid() && Known(t, i) && i < |m.code| && OpOf(m, i).Plain?
    requires var code := CodeOf(m, t, lengths);
             i < |code.instrs| && code.instrs[i].op == OpOf(m, i) && code.notes[i] == NoteOf(t[i]) && code.notes[i].Reached?
    ensures S.PopsWords(CodeOf(m, t, lengths), i) <==> !m.code[i].Stack? || WordsShuffled(m, t, i)
  {
    hide CodeOf, OpOf, NoteOf, Execute, PostFixpoint, Grounded, Operands, PicksOn, StackKinds, StackWords, Legal, CleanStacks, ItemsTaken;
    var f := t[i].frame.value;
    SettledSends(m, t, lengths, i);
    PlainPops(m, i, f, Adds(true, t[i]));
    NotePartsAre(t[i]);
    ItemsAreTaken(m, i, f);
    if !m.code[i].Stack? {
      NoAstore(m, i);
      OperandsAreWords(m, i, f, Adds(true, t[i]));
    }
    PoppedItems(f.stack, ItemsTaken(m, i, f));
  }

  lemma ItemsAreTaken(m: Method, i: nat, f: Frame)
    requires i < |m.code|
    ensures ItemsTaken(m, i, f) == if m.code[i].Stack? then PicksOn(m.code[i].op, f.stack).count else |Operands(m, m.code[i])|
  {
  }

  lemma NoAstore(m: Method, i: nat)
    requires i < |m.code| && OpOf(m, i).Plain?
    ensures !(m.code[i].Store? && m.code[i].kind.KRef?)
  {
  }

  /** No operand that is declared accepts a return address, that of an astore aside. */
  lemma OperandsAreWords(m: Method, i: nat, f: Frame, adds: bool)
    requires Legal(m) && i < |m.code| && Execute(m, i, f, adds).Some? && !(m.code[i].Store? && m.code[i].kind.KRef?)
    ensures |Operands(m, m.code[i])| <= |f.stack|
    ensures forall k | 0 <= k < |Operands(m, m.code[i])| :: !f.stack[k].ReturnAddress?
  {
    var ops := Operands(m, m.code[i]);
    assert OperandsAccepted(m, i, m.code[i], f.stack);
    forall k | 0 <= k < |ops| ensures !f.stack[k].ReturnAddress? {
      NoAddressOperand(m, i, k);
      assert Accepts(m, ops[k], f.stack[k]);
    }
  }

  lemma NoAddressOperand(m: Method, i: nat, k: nat)
    requires Legal(m) && i < |m.code| && !(m.code[i].Store? && m.code[i].kind.KRef?) && k < |Operands(m, m.code[i])|
    ensures var op := Operands(m, m.code[i])[k]; !op.Storable? && (op.Exactly? ==> !op.t.ReturnAddress?)
  {
    var ins := m.code[i];
    assert LegalOperands(m, ins);
    match ins {
      case Invoke(_, _, ps, _) => ArgumentsAreFields(ps);
      case InvokeInit(_, ps) => ArgumentsAreFields(ps);
      case Compute(ts, _) => assert k < |ts| && ts[k] in ts;
      case _ =>
    }
  }

  lemma {:induction false} ArgumentsAreFields(ps: seq<Type>)
    requires forall t | t in ps :: IsFieldType(t)
    ensures forall k | 0 <= k < |Arguments(ps)| :: !Arguments(ps)[k].Storable? && (Arguments(ps)[k].Exactly? ==> !Arguments(ps)[k].t.ReturnAddress?)
  {
    if ps != [] {
      assert forall t | t in ps[1..] :: t in ps;
      assert IsFieldType(ps[0]);
      ArgumentsAreFields(ps[1..]);
      var rest := Arguments(ps[1..]);
      assert Arguments(ps) == rest + [OperandFor(ps[0])];
    }
  }
}
