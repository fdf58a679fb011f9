/**
 What the analysis records of return addresses: where one is recorded its subroutine has
 been called, the entry of a subroutine knows no older address of its own, and a jsr is
 only given a ret that returns from its subroutine.
 */
module ReturnAddresses {
  import opened Types
  import opened Bytecode
  import opened Merging
  import opened Dataflow

  predicate Mentions(f: Frame, x: nat) {
    ReturnAddress(x) in f.stack || ReturnAddress(x) in f.regs
  }

  /** The subroutine at x is recorded, and so is a jsr that calls it. */
  predicate Called(m: Method, t: Table, x: nat) {
    |t| == |m.code| && Known(t, x) && Calls(m, t, x)
  }

  predicate Calls(m: Method, t: Table, x: nat)
    requires |t| == |m.code|
  {
    exists j :: 0 <= j < |t| && t[j].frame.Some? && m.code[j] == Jsr(x)
  }

  /** The only address of x is on top of the stack. */
  predicate NoOlder(f: Frame, x: nat) {
    ReturnAddress(x) !in f.regs && forall k | 1 <= k < |f.stack| :: f.stack[k] != ReturnAddress(x)
  }

  /** The ret recorded for the jsr at j returns from the subroutine it calls. */
  predicate RetMatches(m: Method, t: Table, j: nat)
    requires |t| == |m.code| && j < |t| && t[j].ret.Some?
  {
    var i := t[j].ret.value;
    && m.code[j].Jsr? && Known(t, i) && m.code[i].Ret?
    && var regs := t[i].frame.value.regs;
       m.code[i].local < |regs| && regs[m.code[i].local].ReturnAddress? ==> regs[m.code[i].local].entry == m.code[j].target
  }

  ghost predicate Traceable(m: Method, t: Table)
    requires |t| == |m.code|
  {
    forall i, x: nat | 0 <= i < |t| && t[i].frame.Some? && Mentions(t[i].frame.value, x) :: Called(m, t, x)
  }

  ghost predicate Grounded(m: Method, t: Table) {
    && |t| == |m.code| && Traceable(m, t)
    && (forall x | 0 <= x < |t| && t[x].frame.Some? :: NoOlder(t[x].frame.value, x))
    && (forall j | 0 <= j < |t| && t[j].ret.Some? :: RetMatches(m, t, j))
  }

  // ----- weakening a record brings no new addresses -----

  lemma WeakerAddresses(r: Record, s: Record, x: nat)
    requires Weaker(r, s) && r.frame.Some?
    ensures s.frame.Some?
    ensures forall k | 0 <= k < |s.frame.value.regs| && s.frame.value.regs[k] == ReturnAddress(x) ::
              k < |r.frame.value.regs| && r.frame.value.regs[k] == ReturnAddress(x)
    ensures forall k | 0 <= k < |s.frame.value.stack| && s.frame.value.stack[k] == ReturnAddress(x) ::
              k < |r.frame.value.stack| && r.frame.value.stack[k] == ReturnAddress(x)
  {
    hide MasksBelow;
  }

  lemma WeakerMentions(r: Record, s: Record, x: nat)
    requires Weaker(r, s) && r.frame.Some?
    ensures s.frame.Some?
    ensures Mentions(s.frame.value, x) ==> Mentions(r.frame.value, x)
    ensures NoOlder(r.frame.value, x) ==> NoOlder(s.frame.value, x)
  {
    WeakerAddresses(r, s, x);
    hide Weaker;
  }

  lemma StillCalled(m: Method, t: Table, u: Table, x: nat)
    requires Evolves(t, u) && Called(m, t, x)
    ensures Called(m, u, x)
  {
    var j :| 0 <= j < |t| && t[j].frame.Some? && m.code[j] == Jsr(x);
    assert Weaker(t[j], u[j]) && Weaker(t[x], u[x]);
  }

  lemma StillMatches(m: Method, t: Table, u: Table, j: nat)
    requires Evolves(t, u) && |t| == |m.code| && j < |t| && t[j].ret.Some? && RetMatches(m, t, j)
    ensures u[j].ret == t[j].ret && RetMatches(m, u, j)
  {
    var i := t[j].ret.value;
    assert Weaker(t[j], u[j]) && Weaker(t[i], u[i]);
    var regs := u[i].frame.value.regs;
    if m.code[i].local < |regs| && regs[m.code[i].local].ReturnAddress? {
      WeakerAddresses(t[i], u[i], regs[m.code[i].local].entry);
    }
  }

  // ----- one merge -----

  /** Addresses a flow brings are known, except that a jsr brings the one of the subroutine it goes to. */
  ghost predicate FlowGrounded(m: Method, t: Table, fl: Flow) {
    && |t| == |m.code| && fl.to < |t|
    && (forall x: nat | Mentions(fl.frame, x) :: Called(m, t, x) || (x == fl.to && Calls(m, t, x)))
    && (!Known(t, fl.to) ==> NoOlder(fl.frame, fl.to))
  }

  lemma StillGrounded(m: Method, t: Table, u: Table, fl: Flow)
    requires Evolves(t, u) && FlowGrounded(m, t, fl)
    ensures FlowGrounded(m, u, fl)
  {
    assert Weaker(t[fl.to], u[fl.to]);
    forall x: nat | Mentions(fl.frame, x) ensures Called(m, u, x) || (x == fl.to && Calls(m, u, x)) {
      if Called(m, t, x) {
        StillCalled(m, t, u, x);
      } else {
        var j :| 0 <= j < |t| && t[j].frame.Some? && m.code[j] == Jsr(x);
        assert Weaker(t[j], u[j]);
      }
    }
  }

  /** A table that only differs at one record, which got weaker or is the flow's. */
  lemma OneRecord(m: Method, t: Table, u: Table, fl: Flow)
    requires Grounded(m, t) && FlowGrounded(m, t, fl) && Evolves(t, u)
    requires forall i | 0 <= i < |t| && i != fl.to :: u[i] == t[i]
    requires t[fl.to].frame.None? ==> u[fl.to].frame == Some(fl.frame)
    requires u[fl.to].ret == t[fl.to].ret && u[fl.to].frame.Some?
    ensures Grounded(m, u)
  {
    hide Weaker, Mentions, NoOlder, RetMatches;
    forall i, x: nat | 0 <= i < |u| && u[i].frame.Some? && Mentions(u[i].frame.value, x) ensures Called(m, u, x) {
      if t[i].frame.Some? {
        assert Weaker(t[i], u[i]);
        WeakerMentions(t[i], u[i], x);
        StillCalled(m, t, u, x);
      } else {
        StillGrounded(m, t, u, fl);
      }
    }
    forall x | 0 <= x < |u| && u[x].frame.Some? ensures NoOlder(u[x].frame.value, x) {
      if t[x].frame.Some? {
        assert Weaker(t[x], u[x]);
        WeakerMentions(t[x], u[x], x);
      }
    }
    forall j | 0 <= j < |u| && u[j].ret.Some? ensures RetMatches(m, u, j) {
      StillMatches(m, t, u, j);
    }
  }

  lemma MergeGrounded(m: Method, t: Table, fl: Flow)
    requires TableOk(m, t) && FlowOk(m, fl) && Grounded(m, t) && FlowGrounded(m, t, fl) && MergeRecord(t[fl.to], fl).Some?
    ensures Grounded(m, t[fl.to := MergeRecord(t[fl.to], fl).value])
  {
    MergeOne(m, t, fl);
    MergedRecord(t[fl.to], fl);
    MergedFirst(t[fl.to], fl);
    hide MergeRecord, Evolves, TableOk, Absorbed, LessWork, Grounded, FlowOk;
    OneRecord(m, t, t[fl.to := MergeRecord(t[fl.to], fl).value], fl);
  }

  lemma MergedFirst(r: Record, fl: Flow)
    ensures r.frame.None? ==> MergeRecord(r, fl).Some? && MergeRecord(r, fl).value.frame == Some(fl.frame)
  {
  }

  lemma {:induction false} MergeAllGrounded(m: Method, t: Table, flows: seq<Flow>)
    requires TableOk(m, t) && Grounded(m, t) && forall fl | fl in flows :: FlowOk(m, fl) && fl.to < |t| && FlowGrounded(m, t, fl)
    requires MergeAll(t, flows).Some?
    ensures Grounded(m, MergeAll(t, flows).value)
    decreases |flows|
  {
    hide TableOk, Grounded, FlowGrounded, FlowOk, MergeRecord, Evolves, Absorbed, LessWork;
    if flows != [] {
      var fl := flows[0];
      var u := t[fl.to := MergeRecord(t[fl.to], fl).value];
      MergeOne(m, t, fl);
      MergeGrounded(m, t, fl);
      forall g | g in flows[1..] ensures FlowGrounded(m, u, g) {
        StillGrounded(m, t, u, g);
      }
      MergeAllGrounded(m, u, flows[1..]);
    }
  }

  // ----- what an instruction sends -----

  lemma ShuffleBrings(op: StackOp, s: seq<Type>, x: nat)
    requires Shuffle(op, IsWide, s).Some? && ReturnAddress(x) in Shuffle(op, IsWide, s).value
    ensures ReturnAddress(x) in s
  {
  }

  /** Only a jsr makes a return address, and it is on top of the stack. */
  lemma PushedIs(m: Method, i: nat, f: Frame, x: nat)
    requires Legal(m) && i < |m.code|
    requires RegistersReadable(m.code[i], f.regs) && OperandsAccepted(m, i, m.code[i], f.stack)
    ensures Pushed(m, i, m.code[i], f) == Some(ReturnAddress(x)) ==> m.code[i] == Jsr(x)
  {
    var ins := m.code[i];
    assert LegalOperands(m, ins);
    if ins.AaLoad? {
      assert Accepts(m, Operands(m, ins)[1], f.stack[1]);
    }
  }

  lemma InitializedIs(m: Method, t: Type)
    requires Legal(m)
    ensures !InitializedAs(m, t).ReturnAddress?
  {
    if t.NewObject? && t.inumber < |m.code| {
      assert LegalOperands(m, m.code[t.inumber]);
    }
  }

  lemma ReplaceBrings(m: Method, s: seq<Type>, from: Type, to: Type, x: nat)
    requires !to.ReturnAddress? && ReturnAddress(x) in Replace(s, from, to)
    ensures ReturnAddress(x) in s
  {
  }

  lemma StackAfter(m: Method, i: nat, f: Frame, adds: bool, x: nat, k: nat)
    requires Legal(m) && i < |m.code| && Execute(m, i, f, adds).Some?
    requires var stack := Execute(m, i, f, adds).value.stack; k < |stack| && stack[k] == ReturnAddress(x)
    ensures ReturnAddress(x) in f.stack || (m.code[i] == Jsr(x) && k == 0)
  {
    var ins := m.code[i];
    if ins.Stack? {
      ShuffleBrings(ins.op, f.stack, x);
    } else {
      var ops := Operands(m, ins);
      var rest := f.stack[|ops|..];
      PushedIs(m, i, f, x);
      if ins.InvokeInit? {
        var from := f.stack[|ops| - 1];
        InitializedIs(m, from);
        if ReturnAddress(x) in Replace(rest, from, InitializedAs(m, from)) {
          ReplaceBrings(m, rest, from, InitializedAs(m, from), x);
        }
      }
      hide Pushed, Operands, OperandsAccepted, RegistersReadable, InitializedAs, UpdateRegisters, UpdateMasks;
    }
  }

  lemma RegistersAfter(m: Method, i: nat, f: Frame, adds: bool, x: nat)
    requires Legal(m) && i < |m.code| && Execute(m, i, f, adds).Some? && ReturnAddress(x) in Execute(m, i, f, adds).value.regs
    ensures Mentions(f, x)
  {
    var ins := m.code[i];
    hide UpdateStack, UpdateMasks, RegistersReadable;
    if ins.InvokeInit? {
      var from := f.stack[|Operands(m, ins)| - 1];
      InitializedIs(m, from);
      ReplaceBrings(m, f.regs, from, InitializedAs(m, from), x);
    }
  }

  lemma ForgetBrings(ins: Instr, f: Frame, x: nat)
    ensures Mentions(Forget(ins, f), x) ==> Mentions(f, x)
    ensures ReturnAddress(x) in Forget(ins, f).regs ==> ReturnAddress(x) in f.regs
    ensures |Forget(ins, f).stack| == |f.stack|
    ensures forall k | 0 <= k < |f.stack| && Forget(ins, f).stack[k] == ReturnAddress(x) :: f.stack[k] == ReturnAddress(x)
  {
  }

  /** Where a flow brings an address from. */
  predicate Brings(m: Method, i: nat, f: Frame, g: Flow, x: nat)
    requires i < |m.code|
  {
    Mentions(g.frame, x) ==> Mentions(f, x) || (m.code[i] == Jsr(x) && g.to == x && NoOlder(g.frame, x))
  }

  lemma {:induction false} HandlersBring(m: Method, i: nat, before: Frame, after: Frame, fl: Flags, flAfter: Flags, hs: seq<Handler>, f: Frame, x: nat)
    requires i < |m.code| && (forall h | h in hs :: LegalHandler(m, h))
    requires (Mentions(before, x) ==> Mentions(f, x)) && (ReturnAddress(x) in after.regs ==> Mentions(f, x))
    ensures forall g | g in HandlerFlows(m, i, before, after, fl, flAfter, hs) :: Brings(m, i, f, g, x)
  {
    if hs != [] {
      HandlersBring(m, i, before, after, fl, flAfter, hs[1..], f, x);
      assert LegalHandler(m, hs[0]);
    }
  }

  lemma FlowsBring(m: Method, i: nat, f: Frame, fl: Flags, adds: bool, x: nat)
    requires Legal(m) && i < |m.code| && Flows(m, i, f, fl, adds).Some?
    ensures forall g | g in Flows(m, i, f, fl, adds).value :: Brings(m, i, f, g, x)
  {
    var ins, out := m.code[i], Execute(m, i, f, adds).value;
    var after := Forget(ins, out);
    var flAfter := UpdateFlags(m, ins, f, fl);
    var succ := Successors(ins, i);
    ForgetBrings(ins, f, x);
    ForgetBrings(ins, out, x);
    if ReturnAddress(x) in out.regs {
      RegistersAfter(m, i, f, adds, x);
    }
    forall k | 0 <= k < |out.stack| && out.stack[k] == ReturnAddress(x) ensures ReturnAddress(x) in f.stack || (ins == Jsr(x) && k == 0) {
      StackAfter(m, i, f, adds, x, k);
    }
    HandlersBring(m, i, Forget(ins, f), after, fl, flAfter, m.handlers, f, x);
    var hf := HandlerFlows(m, i, Forget(ins, f), after, fl, flAfter, m.handlers);
    var sf := seq(|succ|, k requires 0 <= k < |succ| => Flow(succ[k], after, flAfter));
    assert Flows(m, i, f, fl, adds).value == hf + sf;
    hide Execute, Forget, HandlerFlows, UpdateFlags, Flows;
    forall g | g in hf + sf ensures Brings(m, i, f, g, x) {
      if g in sf {
        assert g.frame == after && g.to in succ;
        if Mentions(after, x) && !Mentions(f, x) {
          assert ins == Jsr(x) && succ == [x];
        }
      }
    }
  }

  lemma SentGrounded(m: Method, redo: bool, t: Table, i: nat)
    requires Legal(m) && TableOk(m, t) && Grounded(m, t) && Known(t, i) && Sent(m, redo, t, i).Some?
    ensures forall g | g in Sent(m, redo, t, i).value :: g.to < |t| && FlowGrounded(m, t, g)
  {
    SentTargets(m, redo, t, i);
    var f := t[i].frame.value;
    hide Flows, Edge, FlowOk, TableOk, Legal;
    forall g | g in Sent(m, redo, t, i).value ensures FlowGrounded(m, t, g) {
      forall x: nat ensures Brings(m, i, f, g, x) {
        FlowsBring(m, i, f, t[i].flags, Adds(redo, t[i]), x);
      }
      BringsGrounded(m, t, i, g);
    }
  }

  lemma BringsGrounded(m: Method, t: Table, i: nat, g: Flow)
    requires |t| == |m.code| && Grounded(m, t) && Known(t, i) && g.to < |t|
    requires forall x: nat :: Brings(m, i, t[i].frame.value, g, x)
    ensures FlowGrounded(m, t, g)
  {
    hide Mentions, NoOlder, RetMatches;
    forall x: nat | Mentions(g.frame, x) ensures Called(m, t, x) || (x == g.to && Calls(m, t, x)) {
      assert Brings(m, i, t[i].frame.value, g, x);
    }
    if !Known(t, g.to) {
      assert Brings(m, i, t[i].frame.value, g, g.to);
      if Mentions(g.frame, g.to) {
        assert Mentions(t[i].frame.value, g.to) ==> Called(m, t, g.to);
      } else {
        NotMentioned(g.frame, g.to);
      }
    }
  }

  lemma NotMentioned(f: Frame, x: nat)
    requires !Mentions(f, x)
    ensures NoOlder(f, x)
  {
  }

  // ----- returns -----

  /** What a ret brings is known, and the ret is still one of its subroutine. */
  ghost predicate ReturningGrounded(m: Method, t: Table, x: Returning) {
    && |t| == |m.code| && Known(t, x.ret) && m.code[x.ret].Ret?
    && (forall y: nat | Mentions(x.out, y) :: Called(m, t, y))
    && var regs := t[x.ret].frame.value.regs;
       m.code[x.ret].local < |regs| && regs[m.code[x.ret].local].ReturnAddress? ==> regs[m.code[x.ret].local].entry == x.entry
  }

  lemma StillReturningGrounded(m: Method, t: Table, u: Table, x: Returning)
    requires Evolves(t, u) && ReturningGrounded(m, t, x)
    ensures ReturningGrounded(m, u, x)
  {
    assert Weaker(t[x.ret], u[x.ret]);
    forall y: nat | Mentions(x.out, y) ensures Called(m, u, y) {
      StillCalled(m, t, u, y);
    }
    var regs := u[x.ret].frame.value.regs;
    if m.code[x.ret].local < |regs| && regs[m.code[x.ret].local].ReturnAddress? {
      WeakerAddresses(t[x.ret], u[x.ret], regs[m.code[x.ret].local].entry);
    }
  }

  lemma RecordedRetGrounded(m: Method, t: Table, x: Returning, j: nat)
    requires TableOk(m, t) && Grounded(m, t) && ReturningGrounded(m, t, x)
    requires j < |t| && m.code[j] == Jsr(x.entry) && (t[j].ret.Some? ==> t[j].ret == Some(x.ret))
    ensures Grounded(m, t[j := t[j].(ret := Some(x.ret))])
  {
    var u := t[j := t[j].(ret := Some(x.ret))];
    hide Mentions, NoOlder;
    forall i, y: nat | 0 <= i < |u| && u[i].frame.Some? && Mentions(u[i].frame.value, y) ensures Called(m, u, y) {
      assert Called(m, t, y);
      var k :| 0 <= k < |t| && t[k].frame.Some? && m.code[k] == Jsr(y);
      assert u[k].frame.Some?;
    }
    forall k | 0 <= k < |u| && u[k].ret.Some? ensures RetMatches(m, u, k) {
      assert k != j ==> RetMatches(m, t, k);
    }
  }

  lemma ReturnFrameBrings(out: Frame, jsr: seq<Type>, entry: nat, y: nat)
    requires ReturnFrame(out, jsr, entry).Some? && Mentions(ReturnFrame(out, jsr, entry).value, y)
    ensures Mentions(out, y) || ReturnAddress(y) in jsr
  {
  }

  lemma ReturnGrounded(m: Method, t: Table, x: Returning, j: nat)
    requires TableOk(m, t) && ReturningOk(m, t, x) && Grounded(m, t) && ReturningGrounded(m, t, x)
    requires j < |t| && m.code[j] == Jsr(x.entry) && ReturnTo(t, x, j).Some?
    ensures Grounded(m, ReturnTo(t, x, j).value)
  {
    hide MergeRecord, MasksOk, Weaker, Grounded, Absorbed;
    RetRecorded(m, t, x, j);
    RecordedRetGrounded(m, t, x, j);
    var s := t[j := t[j].(ret := Some(x.ret))];
    assert RecordOk(m, t, j);
    if t[j].frame.Some? {
      var f := ReturnFrame(x.out, t[j].frame.value.regs, x.entry).value;
      var fl := Flow(j + 1, f, x.flags);
      ReturnFrameOk(m.maxLocals, x.out, t[j].frame.value.regs, x.entry);
      ReturnFlowGrounded(m, t, x, j, fl);
      StillGrounded(m, t, s, fl);
      MergeGrounded(m, s, fl);
    }
  }

  lemma ReturnFlowGrounded(m: Method, t: Table, x: Returning, j: nat, fl: Flow)
    requires Grounded(m, t) && ReturningGrounded(m, t, x) && j < |t| && t[j].frame.Some? && fl.to < |t|
    requires ReturnFrame(x.out, t[j].frame.value.regs, x.entry) == Some(fl.frame)
    ensures FlowGrounded(m, t, fl)
  {
    forall y: nat | Mentions(fl.frame, y) ensures Called(m, t, y) {
      ReturnFrameBrings(x.out, t[j].frame.value.regs, x.entry, y);
      if !Mentions(x.out, y) {
        assert Mentions(t[j].frame.value, y);
      }
    }
    hide Mentions, NoOlder, RetMatches, ReturnFrame;
    if !Mentions(fl.frame, fl.to) {
      NotMentioned(fl.frame, fl.to);
    }
  }

  lemma {:induction false} ReturnAllGrounded(m: Method, t: Table, x: Returning, calls: seq<nat>)
    requires TableOk(m, t) && ReturningOk(m, t, x) && Grounded(m, t) && ReturningGrounded(m, t, x)
    requires (forall k | 0 <= k < |calls| :: calls[k] < |t| && m.code[calls[k]] == Jsr(x.entry)) && ReturnAll(t, x, calls).Some?
    ensures Grounded(m, ReturnAll(t, x, calls).value)
    decreases |calls|
  {
    hide TableOk, Grounded, ReturningGrounded, ReturnTo, Evolves, LessWork, ReturnSettled, ReturningOk;
    TableLength(m, t);
    if calls != [] {
      var u := ReturnTo(t, x, calls[0]).value;
      ReturnOne(m, t, x, calls[0]);
      ReturnGrounded(m, t, x, calls[0]);
      StillReturningGrounded(m, t, u, x);
      StillReturning(m, t, u, x);
      ReturnAllGrounded(m, u, x, calls[1..]);
    }
  }

  // ----- whole runs of the analysis -----

  /** Tables with the same frames and rets. */
  lemma SameFrames(m: Method, t: Table, u: Table)
    requires Grounded(m, t) && |u| == |t| && forall k | 0 <= k < |t| :: u[k].frame == t[k].frame && u[k].ret == t[k].ret
    ensures Grounded(m, u)
  {
    hide Mentions, NoOlder;
    forall i, x: nat | 0 <= i < |u| && u[i].frame.Some? && Mentions(u[i].frame.value, x) ensures Called(m, u, x) {
      SameCalled(m, t, u, x);
    }
    forall j | 0 <= j < |u| && u[j].ret.Some? ensures RetMatches(m, u, j) {
      assert RetMatches(m, t, j);
    }
  }

  lemma SameCalled(m: Method, t: Table, u: Table, x: nat)
    requires |u| == |t| == |m.code| && forall k | 0 <= k < |t| :: u[k].frame == t[k].frame
    ensures Calls(m, t, x) ==> Calls(m, u, x)
    ensures Called(m, t, x) ==> Called(m, u, x)
  {
    if Calls(m, t, x) {
      var j :| 0 <= j < |t| && t[j].frame.Some? && m.code[j] == Jsr(x);
      assert u[j].frame.Some?;
    }
  }

  lemma SameFlow(m: Method, t: Table, u: Table, g: Flow)
    requires |u| == |t| && FlowGrounded(m, t, g) && forall k | 0 <= k < |t| :: u[k].frame == t[k].frame
    ensures FlowGrounded(m, u, g)
  {
    hide Mentions, NoOlder, Called, Calls;
    forall x: nat ensures (Calls(m, t, x) ==> Calls(m, u, x)) && (Called(m, t, x) ==> Called(m, u, x)) {
      SameCalled(m, t, u, x);
    }
  }

  lemma SameReturning(m: Method, t: Table, u: Table, x: Returning)
    requires |u| == |t| && ReturningGrounded(m, t, x) && forall k | 0 <= k < |t| :: u[k].frame == t[k].frame
    ensures ReturningGrounded(m, u, x)
  {
    hide Mentions, Called;
    forall y: nat ensures Called(m, t, y) ==> Called(m, u, y) {
      SameCalled(m, t, u, y);
    }
  }

  lemma RetReturning(m: Method, t: Table, i: nat)
    requires Legal(m) && TableOk(m, t) && Grounded(m, t) && Known(t, i) && m.code[i].Ret? && Execute(m, i, t[i].frame.value, true).Some?
    ensures ReturningGrounded(m, t, ReturningFrom(m, t, i))
  {
    var f, out := t[i].frame.value, Execute(m, i, t[i].frame.value, true).value;
    var x := ReturningFrom(m, t, i);
    forall y: nat | Mentions(x.out, y) ensures Called(m, t, y) {
      ForgetBrings(m.code[i], out, y);
      if ReturnAddress(y) in out.regs {
        RegistersAfter(m, i, f, true, y);
      } else {
        var k :| 0 <= k < |out.stack| && out.stack[k] == ReturnAddress(y);
        StackAfter(m, i, f, true, y, k);
      }
      assert Mentions(t[i].frame.value, y);
    }
  }

  lemma VisitGrounded(m: Method, redo: bool, t: Table, i: nat)
    requires Legal(m) && TableOk(m, t) && Grounded(m, t) && Known(t, i) && Visit(m, redo, t, i).Some?
    ensures Grounded(m, Visit(m, redo, t, i).value)
  {
    var s, flows := Unmark(m, t, i), Sent(m, redo, t, i).value;
    VisitIs(m, redo, t, i);
    SentTargets(m, redo, t, i);
    SentGrounded(m, redo, t, i);
    UnmarkFrames(m, t, i);
    UnmarkOk(m, t, i);
    ReturnOfIs(m, t, i);
    RetExecutesIf(m, redo, t, i);
    ReturnOfRet(m, t, i);
    hide *;
    TableLength(m, t);
    SameFrames(m, t, s);
    forall g | g in flows ensures FlowGrounded(m, s, g) {
      SameFlow(m, t, s, g);
    }
    MergeAllGrounded(m, s, flows);
    MergeMany(m, s, flows);
    var u := MergeAll(s, flows).value;
    var x := ReturnOf(m, t, i);
    if x.Some? {
      RetReturning(m, t, i);
      ReturningFromOk(m, t, i);
      UnmarkKnown(m, t, i, x.value);
      StillReturning(m, s, u, x.value);
      SameReturning(m, t, s, x.value);
      StillReturningGrounded(m, s, u, x.value);
      ReturnAllGrounded(m, u, x.value, CallsOf(m, x.value.entry, |m.code|));
    }
  }

  lemma ReturnOfRet(m: Method, t: Table, i: nat)
    requires |t| == |m.code| && Known(t, i)
    ensures ReturnOf(m, t, i).Some? ==>
              m.code[i].Ret? && Execute(m, i, t[i].frame.value, true).Some? && ReturnOf(m, t, i).value == ReturningFrom(m, t, i)
  {
    hide Execute, Forget;
  }

  lemma {:induction false} RegistersOfFields(types: seq<Type>, x: nat)
    requires forall t | t in types :: IsFieldType(t)
    ensures ReturnAddress(x) !in RegistersOf(types)
  {
    if types != [] {
      assert forall t | t in types[1..] :: t in types;
      RegistersOfFields(types[1..], x);
      assert IsFieldType(types[0]);
      var rest := RegistersOf(types[1..]);
      assert forall t: Type :: ReturnAddress(x) in [t] + rest ==> t == ReturnAddress(x);
      assert ReturnAddress(x) !in [Double, Double2] + rest && ReturnAddress(x) !in [Long, Long2] + rest;
    }
  }

  lemma InitialGrounded(m: Method)
    requires Legal(m)
    ensures Grounded(m, InitialTable(m))
  {
    forall x: nat ensures !Mentions(EntryFrame(m), x) && NoOlder(EntryFrame(m), x) {
      RegistersOfFields(m.params, x);
    }
  }

  /** Whatever turns the analysis has taken, recorded return addresses are those of recorded calls. */
  lemma {:induction false} ReplayGrounded(m: Method, trace: seq<Turn>)
    requires Legal(m) && Replay(m, trace).Running?
    ensures Grounded(m, Replay(m, trace).table)
    decreases |trace|
  {
    hide Visit, TableOk, Grounded, MarkCalls;
    if trace == [] {
      InitialGrounded(m);
    } else {
      var turn, before := trace[|trace| - 1], Replay(m, trace[..|trace| - 1]);
      ReplayGrounded(m, trace[..|trace| - 1]);
      if turn.Again? {
        MarkedCalls(m, before.table);
        SameFrames(m, before.table, MarkCalls(m, before.table));
      } else if Known(before.table, turn.i) && before.table[turn.i].changed {
        VisitGrounded(m, before.redo, before.table, turn.i);
      }
    }
  }

  lemma MarkedCalls(m: Method, t: Table)
    requires Grounded(m, t)
    ensures |t| == |m.code|
    ensures forall k | 0 <= k < |t| :: MarkCalls(m, t)[k].frame == t[k].frame && MarkCalls(m, t)[k].ret == t[k].ret
  {
  }
}
