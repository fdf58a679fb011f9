/**
 The dataflow analysis itself: the instruction array, the merges that update it in place,
 and the loop of run_dataflow with its second run, proved to stop at a post-fixpoint, for
 code with and without subroutines.
 */
module Dataflow {
  import opened Types
  import opened Bytecode
  import opened Merging
  import Lattice

  type Table = seq<Record>

  // ----- the tables the loop goes through -----

  function EntryFrame(m: Method): Frame {
    Frame([], EntryRegisters(m), [])
  }

  function EntryFlags(m: Method): Flags {
    Flags(false, true, m.receiver.UnderConstruction?, false)
  }

  /** initialize_dataflow. */
  function InitialTable(m: Method): Table {
    seq(|m.code|, i =>
      if i == 0 then Record(true, Some(EntryFrame(m)), EntryFlags(m), None)
      else Record(false, None, Flags(true, false, false, false), None))
  }

  /** merge_into_successors: the flows are merged one after the other. */
  function MergeAll(t: Table, flows: seq<Flow>): Option<Table>
    requires forall fl | fl in flows :: fl.to < |t|
    decreases |flows|
  {
    if flows == [] then Some(t)
    else
      match MergeRecord(t[flows[0].to], flows[0])
      case None => None
      case Some(r) => MergeAll(t[flows[0].to := r], flows[1..])
  }

  predicate Known(t: Table, i: nat) {
    i < |t| && t[i].frame.Some?
  }

  /** What a ret returns with. */
  datatype Returning = Returning(ret: nat, entry: nat, out: Frame, flags: Flags)

  /**
   A return to the place behind the jsr at j.  The jsr gets the ret; before the jsr itself
   has been reached nothing is merged.
   */
  function ReturnTo(t: Table, x: Returning, j: nat): (u: Option<Table>)
    requires j < |t|
    ensures u.Some? ==> |u.value| == |t|
  {
    if j + 1 >= |t| || (t[j].ret.Some? && t[j].ret != Some(x.ret)) then None
    else
      var s := t[j := t[j].(ret := Some(x.ret))];
      if t[j].frame.None? then Some(s)
      else
        match ReturnFrame(x.out, t[j].frame.value.regs, x.entry)
        case None => None
        case Some(f) =>
          match MergeRecord(s[j + 1], Flow(j + 1, f, x.flags))
          case None => None
          case Some(r) => Some(s[j + 1 := r])
  }

  function ReturnAll(t: Table, x: Returning, calls: seq<nat>): Option<Table>
    requires forall k | 0 <= k < |calls| :: calls[k] < |t|
    decreases |calls|
  {
    if calls == [] then Some(t)
    else
      match ReturnTo(t, x, calls[0])
      case None => None
      case Some(u) =>
        ReturnAll(u, x, calls[1..])
  }

  /** A jsr adds the mask of its subroutine, except in the second run when it has no ret. */
  predicate Adds(redo: bool, r: Record) {
    !redo || r.ret.Some?
  }

  /** What instruction i merges into others. */
  function Sent(m: Method, redo: bool, t: Table, i: nat): Option<seq<Flow>>
    requires |t| == |m.code| && Known(t, i)
  {
    Flows(m, i, t[i].frame.value, t[i].flags, Adds(redo, t[i]))
  }

  /** What the ret at i returns with. */
  function ReturningFrom(m: Method, t: Table, i: nat): Returning
    requires |t| == |m.code| && Known(t, i) && m.code[i].Ret? && Execute(m, i, t[i].frame.value, true).Some?
  {
    var f := t[i].frame.value;
    Returning(i, f.regs[m.code[i].local].entry, Forget(m.code[i], Execute(m, i, f, true).value), t[i].flags)
  }

  /** A visited jsr marks its ret, which must return again with the registers of the jsr. */
  function Unmark(m: Method, t: Table, i: nat): (u: Table)
    requires |t| == |m.code| && i < |t|
    ensures |u| == |t|
  {
    var s := t[i := t[i].(changed := false)];
    if m.code[i].Jsr? && t[i].ret.Some? && t[i].ret.value < |t| then s[t[i].ret.value := s[t[i].ret.value].(changed := true)] else s
  }

  /** The flows of instruction i, and behind them the returns if it is a ret. */
  function SendAll(m: Method, t: Table, flows: seq<Flow>, returning: Option<Returning>): Option<Table>
    requires |t| == |m.code| && forall fl | fl in flows :: fl.to < |t|
  {
    match MergeAll(t, flows)
    case None => None
    case Some(u) =>
      MergeAllLength(t, flows);
      if returning.None? then Some(u) else ReturnAll(u, returning.value, CallsOf(m, returning.value.entry, |m.code|))
  }

  function ReturnOf(m: Method, t: Table, i: nat): Option<Returning>
    requires |t| == |m.code| && Known(t, i)
  {
    if m.code[i].Ret? && Execute(m, i, t[i].frame.value, true).Some? then Some(ReturningFrom(m, t, i)) else None
  }

  /** One visit to instruction i; None where the verifier reports an error. */
  function Visit(m: Method, redo: bool, t: Table, i: nat): Option<Table>
    requires Legal(m) && TableOk(m, t) && Known(t, i)
  {
    match Sent(m, redo, t, i)
    case None => None
    case Some(flows) =>
      SentTargets(m, redo, t, i);
      SendAll(m, Unmark(m, t, i), flows, ReturnOf(m, t, i))
  }

  lemma {:induction false} MergeAllLength(t: Table, flows: seq<Flow>)
    requires forall fl | fl in flows :: fl.to < |t|
    ensures MergeAll(t, flows).Some? ==> |MergeAll(t, flows).value| == |t|
    decreases |flows|
  {
    if flows != [] && MergeRecord(t[flows[0].to], flows[0]).Some? {
      MergeAllLength(t[flows[0].to := MergeRecord(t[flows[0].to], flows[0]).value], flows[1..]);
    }
  }

  /** The jsr instructions that are reached and have no ret are visited again. */
  function MarkCalls(m: Method, t: Table): (u: Table)
    requires |t| == |m.code|
    ensures |u| == |t|
  {
    seq(|t|, i requires 0 <= i < |t| =>
      if m.code[i].Jsr? && t[i].flags.reached && t[i].ret.None? then t[i].(changed := true) else t[i])
  }

  datatype Turn = At(i: nat) | Again

  datatype Outcome = Running(redo: bool, table: Table) | Rejected

  /** The tables after the turns of `trace`: visits to marked instructions, and the start of the second run. */
  function Replay(m: Method, trace: seq<Turn>): (o: Outcome)
    requires Legal(m)
    ensures o.Running? ==> TableOk(m, o.table)
  {
    if trace == [] then InitialTableOk(m); Running(false, InitialTable(m))
    else
      var turn, before := trace[|trace| - 1], Replay(m, trace[..|trace| - 1]);
      if before.Rejected? then Rejected
      else if turn.Again? then MarkCallsOk(m, before.table); Running(true, MarkCalls(m, before.table))
      else if !Known(before.table, turn.i) || !before.table[turn.i].changed then before
      else
        match Visit(m, before.redo, before.table, turn.i)
        case None => Rejected
        case Some(t) => VisitOk(m, before.redo, before.table, turn.i); Running(before.redo, t)
  }

  // ----- control flow -----

  /** The control-flow graph: branch successors, covering handlers, and returns behind any jsr. */
  predicate Edge(m: Method, i: nat, j: nat) {
    && i < |m.code|
    && (j in Successors(m.code[i], i) || CaughtAt(m.handlers, i, j)
        || (m.code[i].Ret? && 0 < j < |m.code| && m.code[j - 1].Jsr?))
  }

  /** Some entry of the exception table covers i and sends it to j. */
  predicate CaughtAt(hs: seq<Handler>, i: nat, j: nat) {
    hs != [] && ((Covers(hs[0], i) && hs[0].handler == j) || CaughtAt(hs[1..], i, j))
  }

  lemma {:induction false} CaughtAtHandler(hs: seq<Handler>, i: nat, j: nat)
    ensures CaughtAt(hs, i, j) <==> exists h | h in hs :: Covers(h, i) && h.handler == j
  {
    if hs != [] {
      CaughtAtHandler(hs[1..], i, j);
      if h :| h in hs && Covers(h, i) && h.handler == j {
        if h != hs[0] { assert h in hs[1..]; }
      }
      if CaughtAt(hs[1..], i, j) {
        var h :| h in hs[1..] && Covers(h, i) && h.handler == j;
        assert h in hs;
      }
    }
  }

  predicate PathTo(m: Method, p: seq<nat>, j: nat) {
    && p != [] && p[0] == 0 && p[|p| - 1] == j
    && forall k | 0 <= k < |p| - 1 :: Edge(m, p[k], p[k + 1])
  }

  ghost predicate Reachable(m: Method, j: nat) {
    exists p :: PathTo(m, p, j)
  }

  lemma ReachableStep(m: Method, i: nat, j: nat)
    requires Reachable(m, i) && Edge(m, i, j)
    ensures Reachable(m, j)
  {
    var p :| PathTo(m, p, i);
    assert PathTo(m, p + [j], j);
  }

  lemma {:induction false} HandlerFlowTargets(m: Method, i: nat, before: Frame, after: Frame, fl: Flags, flAfter: Flags, hs: seq<Handler>)
    requires i < |m.code|
    ensures var flows := HandlerFlows(m, i, before, after, fl, flAfter, hs);
            && (forall f | f in flows :: CaughtAt(hs, i, f.to))
            && (forall f | f in flows ::
                 (f.frame.regs == before.regs && f.frame.masks == before.masks) || (f.frame.regs == after.regs && f.frame.masks == after.masks))
            && (forall j | CaughtAt(hs, i, j) :: exists f | f in flows :: f.to == j)
            && (fl.reached && flAfter.reached ==> forall f | f in flows :: f.flags.reached)
  {
    if hs != [] {
      HandlerFlowTargets(m, i, before, after, fl, flAfter, hs[1..]);
      var rest := HandlerFlows(m, i, before, after, fl, flAfter, hs[1..]);
      var flows := HandlerFlows(m, i, before, after, fl, flAfter, hs);
      assert forall f | f in rest :: f in flows;
      forall j | CaughtAt(hs, i, j) ensures exists f | f in flows :: f.to == j {
        if CaughtAt(hs[1..], i, j) {
          var f :| f in rest && f.to == j;
          assert f in flows;
        } else {
          assert flows[0] in flows && flows[0].to == j;
        }
      }
    }
  }

  // ----- what every table keeps -----

  /** Records are known and flagged as reached together, and a ret is only recorded for a jsr. */
  predicate RecordOk(m: Method, t: Table, i: nat)
    requires |t| == |m.code| && i < |t|
  {
    && (t[i].frame.Some? <==> t[i].flags.reached)
    && (t[i].frame.Some? ==> FrameOk(m.maxLocals, t[i].frame.value))
    && (t[i].changed ==> t[i].frame.Some?)
    && (t[i].ret.Some? ==> m.code[i].Jsr? && Known(t, t[i].ret.value) && m.code[t[i].ret.value].Ret?)
  }

  predicate TableOk(m: Method, t: Table) {
    |t| == |m.code| && forall i | 0 <= i < |t| :: RecordOk(m, t, i)
  }

  predicate FlowOk(m: Method, fl: Flow) {
    fl.to < |m.code| && fl.flags.reached && FrameOk(m.maxLocals, fl.frame)
  }

  /** Only what the graph can reach is reached. */
  ghost predicate Marked(m: Method, t: Table) {
    |t| == |m.code| && forall i | 0 <= i < |t| && t[i].frame.Some? :: Reachable(m, i)
  }

  /** Records get weaker, and where something was merged they are marked. */
  predicate Evolves(t: Table, u: Table) {
    && |t| == |u|
    && forall i | 0 <= i < |t| ::
         && Weaker(t[i], u[i])
         && ((u[i].frame.Some? && u[i].changed)
             || (u[i].frame == t[i].frame && u[i].flags == t[i].flags && u[i].changed == t[i].changed))
  }

  lemma WeakerTransitive(limit: nat, r: Record, s: Record, t: Record)
    requires Weaker(r, s) && Weaker(s, t) && (r.frame.Some? ==> FrameOk(limit, r.frame.value))
    ensures Weaker(r, t)
  {
    if r.frame.Some? {
      var a, b, c := r.frame.value, s.frame.value, t.frame.value;
      MasksBelowTransitive(limit, a.masks, b.masks, c.masks);
      forall k | 0 <= k < |c.stack| ensures Leq(a.stack[k], c.stack[k]) {
        Lattice.LeqTransitive(a.stack[k], b.stack[k], c.stack[k]);
      }
      forall k | 0 <= k < |c.regs| ensures Leq(a.regs[k], c.regs[k]) {
        Lattice.LeqTransitive(a.regs[k], b.regs[k], c.regs[k]);
      }
    }
  }

  lemma WeakerItself(r: Record)
    ensures Weaker(r, r)
  {
    if r.frame.Some? {
      MasksBelowItself(r.frame.value.masks);
    }
  }

  lemma EvolvesItself(t: Table)
    ensures Evolves(t, t)
  {
    forall i | 0 <= i < |t| ensures Weaker(t[i], t[i]) {
      WeakerItself(t[i]);
    }
  }

  lemma EvolvesTransitive(m: Method, t: Table, u: Table, v: Table)
    requires TableOk(m, t) && Evolves(t, u) && Evolves(u, v)
    ensures Evolves(t, v)
  {
    forall i | 0 <= i < |t| ensures Weaker(t[i], v[i]) {
      assert RecordOk(m, t, i);
      WeakerTransitive(m.maxLocals, t[i], u[i], v[i]);
    }
    hide Weaker, TableOk;
  }

  // ----- one merge -----

  lemma MergeOne(m: Method, t: Table, fl: Flow)
    requires TableOk(m, t) && FlowOk(m, fl) && MergeRecord(t[fl.to], fl).Some?
    ensures var u := t[fl.to := MergeRecord(t[fl.to], fl).value];
            TableOk(m, u) && Evolves(t, u) && Absorbed(fl, u[fl.to]) && (u == t || LessWork(m, u, t))
  {
    var r, s := t[fl.to], MergeRecord(t[fl.to], fl).value;
    var u := t[fl.to := s];
    assert RecordOk(m, t, fl.to);
    MergeRecordBounds(m.maxLocals, r, fl);
    MergeRecordClimbs(m.maxLocals, r, fl);
    MergedRecord(r, fl);
    hide MergeRecord, FrameOk, Absorbed, Climb, Pending, Nulls, Unknown;
    EvolvesItself(t);
    forall i | 0 <= i < |u| ensures RecordOk(m, u, i) {
      assert RecordOk(m, t, i);
    }
    TotalUpdate(Unknown, t, fl.to, s);
    TotalUpdate(Nulls, t, fl.to, s);
    TotalUpdate(ClimbWithin(m.maxLocals), t, fl.to, s);
    hide Weaker;
    if s == r {
      assert u == t;
    }
  }

  lemma MergedRecord(r: Record, fl: Flow)
    requires MergeRecord(r, fl).Some? && fl.flags.reached
    ensures var s := MergeRecord(r, fl).value; s.ret == r.ret && s.frame.Some? && s.flags.reached
  {
    hide MergeStacks, MergeRegisterSets, MergeMasks;
  }

  lemma {:induction false} MergeMany(m: Method, t: Table, flows: seq<Flow>)
    requires TableOk(m, t) && (forall fl | fl in flows :: FlowOk(m, fl) && fl.to < |t|)
    requires MergeAll(t, flows).Some?
    ensures var u := MergeAll(t, flows).value;
            && TableOk(m, u) && Evolves(t, u) && (u == t || LessWork(m, u, t))
            && (forall fl | fl in flows :: Absorbed(fl, u[fl.to]))
            && (forall i | 0 <= i < |t| :: u[i].ret == t[i].ret)
    decreases |flows|
  {
    hide TableOk, MergeRecord, Evolves, Absorbed, FlowOk, LessWork, FrameOk;
    FlowsInRange(m, flows);
    TableLength(m, t);
    if flows == [] {
      EvolvesItself(t);
    } else {
      var fl := flows[0];
      var s := t[fl.to := MergeRecord(t[fl.to], fl).value];
      MergeOne(m, t, fl);
      MergedRet(t[fl.to], fl);
      MergeMany(m, s, flows[1..]);
      var u := MergeAll(s, flows[1..]).value;
      EvolvesTransitive(m, t, s, u);
      EvolvesKeepsAbsorbed(m, s, u, fl);
      if u != s && s != t {
        LessWorkTransitive(m, u, s, t);
      }
    }
  }

  lemma MergedRet(r: Record, fl: Flow)
    requires MergeRecord(r, fl).Some?
    ensures MergeRecord(r, fl).value.ret == r.ret
  {
  }

  lemma FlowsInRange(m: Method, flows: seq<Flow>)
    requires forall fl | fl in flows :: FlowOk(m, fl)
    ensures forall fl | fl in flows :: fl.to < |m.code|
  {
  }

  lemma TableLength(m: Method, t: Table)
    requires TableOk(m, t)
    ensures |t| == |m.code|
  {
  }

  lemma EvolvesKeepsAbsorbed(m: Method, t: Table, u: Table, fl: Flow)
    requires Evolves(t, u) && FlowOk(m, fl) && fl.to < |t| && Absorbed(fl, t[fl.to])
    ensures Absorbed(fl, u[fl.to])
  {
    hide Weaker;
    WeakerKeepsAbsorbed(m.maxLocals, fl, t[fl.to], u[fl.to]);
  }

  // ----- what an instruction sends -----

  lemma TouchOk(limit: nat, masks: seq<Mask>, registers: set<nat>)
    requires MasksOk(limit, masks) && forall k | k in registers :: k < limit
    ensures MasksOk(limit, Touch(masks, registers))
  {
  }

  lemma AddedMaskOk(limit: nat, masks: seq<Mask>, entry: nat)
    requires MasksOk(limit, masks) && !HasEntry(masks, entry)
    ensures MasksOk(limit, masks + [Mask(entry, {})])
  {
  }

  lemma ExecuteOk(m: Method, i: nat, f: Frame, adds: bool)
    requires Legal(m) && i < |m.code| && FrameOk(m.maxLocals, f) && Execute(m, i, f, adds).Some?
    ensures FrameOk(m.maxLocals, Execute(m, i, f, adds).value)
    ensures |f.stack| >= |Operands(m, m.code[i])|
  {
    var ins := m.code[i];
    assert LegalOperands(m, ins);
    hide Operands, UpdateStack, CrossChecks, Accepts;
    if ins.Jsr? {
      AddedMaskOk(m.maxLocals, f.masks, ins.target);
    } else {
      TouchOk(m.maxLocals, f.masks, Touched(m, i, ins, f));
    }
  }

  lemma ForgetOk(limit: nat, ins: Instr, f: Frame)
    requires FrameOk(limit, f)
    ensures FrameOk(limit, Forget(ins, f))
  {
  }

  /** What an instruction sends goes exactly along its edges, returns aside, and stays in the code. */
  lemma FlowTargets(m: Method, i: nat, f: Frame, fl: Flags, adds: bool)
    requires Legal(m) && i < |m.code| && Flows(m, i, f, fl, adds).Some?
    ensures var flows := Flows(m, i, f, fl, adds).value;
            && (forall g | g in flows :: g.to < |m.code| && Edge(m, i, g.to))
            && (!m.code[i].Ret? ==> forall j | Edge(m, i, j) :: exists g | g in flows :: g.to == j)
            && (fl.reached ==> forall g | g in flows :: g.flags.reached)
  {
    var ins := m.code[i];
    var after := Forget(ins, Execute(m, i, f, adds).value);
    var flAfter := UpdateFlags(m, ins, f, fl);
    var succ := Successors(ins, i);
    HandlerFlowTargets(m, i, Forget(ins, f), after, fl, flAfter, m.handlers);
    var hf := HandlerFlows(m, i, Forget(ins, f), after, fl, flAfter, m.handlers);
    var sf := seq(|succ|, k requires 0 <= k < |succ| => Flow(succ[k], after, flAfter));
    var flows := Flows(m, i, f, fl, adds).value;
    assert flows == hf + sf;
    hide Execute, Forget;
    forall g | g in flows ensures g.to < |m.code| && Edge(m, i, g.to) {
      if g in hf {
        CaughtAtHandler(m.handlers, i, g.to);
      } else {
        assert g.to in succ;
      }
    }
    forall j | Edge(m, i, j) && !ins.Ret? ensures exists g | g in flows :: g.to == j {
      if j in succ {
        var k :| 0 <= k < |succ| && succ[k] == j;
        assert sf[k] in flows && sf[k].to == j;
      } else {
        var g :| g in hf && g.to == j;
        assert g in flows;
      }
    }
  }

  lemma FlowsOk(m: Method, i: nat, f: Frame, fl: Flags, adds: bool)
    requires Legal(m) && i < |m.code| && FrameOk(m.maxLocals, f) && fl.reached && Flows(m, i, f, fl, adds).Some?
    ensures forall g | g in Flows(m, i, f, fl, adds).value :: FlowOk(m, g)
  {
    var ins := m.code[i];
    var out := Execute(m, i, f, adds).value;
    FlowTargets(m, i, f, fl, adds);
    ExecuteOk(m, i, f, adds);
    ForgetOk(m.maxLocals, ins, f);
    ForgetOk(m.maxLocals, ins, out);
    HandlerFlowTargets(m, i, Forget(ins, f), Forget(ins, out), fl, UpdateFlags(m, ins, f, fl), m.handlers);
    hide Execute, Forget, HandlerFlows, UpdateFlags;
  }

  lemma SentTargets(m: Method, redo: bool, t: Table, i: nat)
    requires Legal(m) && TableOk(m, t) && Known(t, i) && Sent(m, redo, t, i).Some?
    ensures forall g | g in Sent(m, redo, t, i).value :: FlowOk(m, g) && g.to < |t| && Edge(m, i, g.to)
  {
    assert RecordOk(m, t, i);
    FlowTargets(m, i, t[i].frame.value, t[i].flags, Adds(redo, t[i]));
    FlowsOk(m, i, t[i].frame.value, t[i].flags, Adds(redo, t[i]));
  }

  // ----- returns -----

  predicate ReturningOk(m: Method, t: Table, x: Returning) {
    && Known(t, x.ret) && |t| == |m.code| && m.code[x.ret].Ret? && x.flags.reached
    && FrameOk(m.maxLocals, x.out)
  }

  lemma ReturnFrameOk(limit: nat, out: Frame, jsr: seq<Type>, entry: nat)
    requires FrameOk(limit, out) && |jsr| <= limit && ReturnFrame(out, jsr, entry).Some?
    ensures FrameOk(limit, ReturnFrame(out, jsr, entry).value)
  {
    MasksOkRest(limit, out.masks, FindMask(out.masks, entry, |out.masks|));
  }

  /** What the ret x.ret returns behind the jsr at j is allowed for, unless the jsr is to be visited again. */
  predicate ReturnSettled(t: Table, x: Returning, j: nat) {
    && j + 1 < |t| && t[j].ret == Some(x.ret)
    && (t[j].frame.Some? && !t[j].changed ==>
          var f := ReturnFrame(x.out, t[j].frame.value.regs, x.entry);
          f.Some? && Absorbed(Flow(j + 1, f.value, x.flags), t[j + 1]))
  }

  lemma EvolvesKeepsReturn(m: Method, t: Table, u: Table, x: Returning, j: nat)
    requires TableOk(m, t) && Evolves(t, u) && ReturningOk(m, t, x) && ReturnSettled(t, x, j)
    ensures ReturnSettled(u, x, j)
  {
    assert RecordOk(m, t, j);
    assert Weaker(t[j], u[j]);
    hide FrameBelow;
    if u[j].frame.Some? && !u[j].changed {
      var f := ReturnFrame(x.out, t[j].frame.value.regs, x.entry).value;
      ReturnFrameOk(m.maxLocals, x.out, t[j].frame.value.regs, x.entry);
      EvolvesKeepsAbsorbed(m, t, u, Flow(j + 1, f, x.flags));
    }
  }

  lemma RetRecorded(m: Method, t: Table, x: Returning, j: nat)
    requires TableOk(m, t) && ReturningOk(m, t, x) && j < |t| && m.code[j].Jsr? && (t[j].ret.Some? ==> t[j].ret == Some(x.ret))
    ensures var s := t[j := t[j].(ret := Some(x.ret))];
            TableOk(m, s) && Evolves(t, s) && (s == t || LessWork(m, s, t))
  {
    var r := t[j].(ret := Some(x.ret));
    var s := t[j := r];
    assert RecordOk(m, t, j);
    EvolvesItself(t);
    WeakerItself(t[j]);
    forall i | 0 <= i < |s| ensures RecordOk(m, s, i) {
      assert RecordOk(m, t, i);
    }
    TotalUpdate(Unknown, t, j, r);
    TotalUpdate(Nulls, t, j, r);
    TotalUpdate(ClimbWithin(m.maxLocals), t, j, r);
    if t[j].ret.Some? {
      assert s == t;
    }
  }

  lemma ReturnOne(m: Method, t: Table, x: Returning, j: nat)
    requires TableOk(m, t) && ReturningOk(m, t, x) && j < |t| && m.code[j].Jsr? && ReturnTo(t, x, j).Some?
    ensures var u := ReturnTo(t, x, j).value;
            TableOk(m, u) && Evolves(t, u) && ReturnSettled(u, x, j) && (u == t || LessWork(m, u, t))
  {
    hide MergeRecord, Absorbed, FrameOk, LessWork, MasksOk, Evolves, Weaker;
    RetRecorded(m, t, x, j);
    var s := t[j := t[j].(ret := Some(x.ret))];
    assert RecordOk(m, t, j);
    if t[j].frame.Some? {
      var f := ReturnFrame(x.out, t[j].frame.value.regs, x.entry).value;
      var fl := Flow(j + 1, f, x.flags);
      FrameRegs(m.maxLocals, t[j].frame.value);
      ReturnFrameOk(m.maxLocals, x.out, t[j].frame.value.regs, x.entry);
      MergeOne(m, s, fl);
      var u := s[j + 1 := MergeRecord(s[j + 1], fl).value];
      MergedRet(s[j + 1], fl);
      EvolvesTransitive(m, t, s, u);
      if u != s && s != t {
        LessWorkTransitive(m, u, s, t);
      }
    }
  }

  lemma FrameRegs(limit: nat, f: Frame)
    requires FrameOk(limit, f)
    ensures |f.regs| <= limit
  {
  }

  lemma {:induction false} ReturnMany(m: Method, t: Table, x: Returning, calls: seq<nat>)
    requires TableOk(m, t) && ReturningOk(m, t, x) && forall k | 0 <= k < |calls| :: calls[k] < |t| && m.code[calls[k]].Jsr?
    requires ReturnAll(t, x, calls).Some?
    ensures var u := ReturnAll(t, x, calls).value;
            && TableOk(m, u) && Evolves(t, u) && (u == t || LessWork(m, u, t))
            && forall k | 0 <= k < |calls| :: ReturnSettled(u, x, calls[k])
    decreases |calls|
  {
    hide TableOk, ReturnTo, Evolves, LessWork, ReturnSettled;
    TableLength(m, t);
    if calls == [] {
      EvolvesItself(t);
    } else {
      var s := ReturnTo(t, x, calls[0]).value;
      ReturnOne(m, t, x, calls[0]);
      TableLength(m, s);
      StillReturning(m, t, s, x);
      ReturnMany(m, s, x, calls[1..]);
      var u := ReturnAll(s, x, calls[1..]).value;
      EvolvesTransitive(m, t, s, u);
      EvolvesKeepsReturn(m, s, u, x, calls[0]);
      if u != s && s != t {
        LessWorkTransitive(m, u, s, t);
      }
    }
  }

  lemma StillReturning(m: Method, t: Table, u: Table, x: Returning)
    requires ReturningOk(m, t, x) && Evolves(t, u)
    ensures ReturningOk(m, u, x)
  {
    assert Weaker(t[x.ret], u[x.ret]);
  }

  /** The subroutine a ret returns from never changes, so its list of successors can be kept. */
  lemma RetKeepsItsEntry(m: Method, t: Table, u: Table, i: nat)
    requires Evolves(t, u) && |t| == |m.code| && Known(t, i) && Known(u, i) && m.code[i].Ret?
    requires RegistersReadable(m.code[i], t[i].frame.value.regs) && RegistersReadable(m.code[i], u[i].frame.value.regs)
    ensures u[i].frame.value.regs[m.code[i].local].entry == t[i].frame.value.regs[m.code[i].local].entry
  {
    assert Weaker(t[i], u[i]);
  }

  // ----- settled instructions -----

  /** Everything instruction i sends on is already allowed for. */
  predicate Settled(m: Method, redo: bool, t: Table, i: nat)
    requires |t| == |m.code| && Known(t, i)
  {
    var flows := Sent(m, redo, t, i);
    && flows.Some? && (forall g | g in flows.value :: g.to < |t| && Absorbed(g, t[g.to]))
    && (m.code[i].Ret? ==>
          && Execute(m, i, t[i].frame.value, true).Some?
          && forall j | 0 <= j < |t| && m.code[j] == Jsr(ReturningFrom(m, t, i).entry) :: ReturnSettled(t, ReturningFrom(m, t, i), j))
  }

  predicate SettledUnlessMarked(m: Method, redo: bool, t: Table) {
    && |t| == |m.code|
    && forall i | 0 <= i < |t| && t[i].frame.Some? && !t[i].changed :: Settled(m, redo, t, i)
  }

  predicate EntryAllowed(m: Method, t: Table) {
    |t| > 0 && Absorbed(Flow(0, EntryFrame(m), EntryFlags(m)), t[0])
  }

  /** No recorded stack holds an unusable item. */
  predicate CleanStacks(t: Table) {
    forall i | 0 <= i < |t| && t[i].frame.Some? :: Bogus !in t[i].frame.value.stack
  }

  /** A table every instruction of which is settled: the result of the analysis. */
  predicate PostFixpoint(m: Method, t: Table) {
    && TableOk(m, t)
    && (JsrFree(m) ==> CleanStacks(t))
    && EntryAllowed(m, t)
    && (forall i | 0 <= i < |t| :: !t[i].changed)
    && forall i | 0 <= i < |t| && t[i].frame.Some? :: Settled(m, true, t, i)
  }

  /** Only a jsr depends on whether it adds a mask. */
  lemma AddsIrrelevant(m: Method, i: nat, f: Frame, fl: Flags, a: bool, b: bool)
    requires i < |m.code| && !m.code[i].Jsr?
    ensures Flows(m, i, f, fl, a) == Flows(m, i, f, fl, b) && Execute(m, i, f, a) == Execute(m, i, f, b)
  {
  }

  /** With its mask added a jsr sends no more than without. */
  lemma AddsLess(m: Method, t: Table, i: nat, f: Frame, fl: Flags)
    requires Legal(m) && |t| == |m.code| && i < |m.code| && m.code[i].Jsr? && Flows(m, i, f, fl, false).Some?
    requires forall g | g in Flows(m, i, f, fl, false).value :: g.to < |t| && Absorbed(g, t[g.to])
    ensures Flows(m, i, f, fl, true).Some?
    ensures forall g | g in Flows(m, i, f, fl, true).value :: g.to < |t| && Absorbed(g, t[g.to])
  {
    var ins := m.code[i];
    var without, with_ := Flows(m, i, f, fl, false).value, Flows(m, i, f, fl, true).value;
    var a, b := Forget(ins, Execute(m, i, f, false).value), Forget(ins, Execute(m, i, f, true).value);
    var flAfter := UpdateFlags(m, ins, f, fl);
    JsrHandlerFlows(m, i, Forget(ins, f), a, b, fl, flAfter, m.handlers);
    var hf := HandlerFlows(m, i, Forget(ins, f), a, fl, flAfter, m.handlers);
    assert b.stack == a.stack && b.regs == a.regs && b.masks == a.masks + [Mask(ins.target, {})];
    assert Successors(ins, i) == [ins.target];
    assert without == hf + [Flow(ins.target, a, flAfter)];
    assert with_ == hf + [Flow(ins.target, b, flAfter)];
    assert without[|hf|] in without;
    hide Flows, Execute, Forget, HandlerFlows;
    forall g | g in with_ ensures g.to < |t| && Absorbed(g, t[g.to]) {
      if g in hf {
        assert g in without;
      } else {
        MasksBelowMore(a.masks, t[ins.target].frame.value.masks, [Mask(ins.target, {})]);
      }
    }
  }

  lemma {:induction false} JsrHandlerFlows(m: Method, i: nat, f: Frame, a: Frame, b: Frame, fl: Flags, flAfter: Flags, hs: seq<Handler>)
    requires i < |m.code| && !m.code[i].InvokeInit?
    ensures HandlerFlows(m, i, f, a, fl, flAfter, hs) == HandlerFlows(m, i, f, b, fl, flAfter, hs)
  {
    if hs != [] {
      JsrHandlerFlows(m, i, f, a, b, fl, flAfter, hs[1..]);
    }
  }

  lemma ReturningFromOk(m: Method, t: Table, i: nat)
    requires Legal(m) && TableOk(m, t) && Known(t, i) && m.code[i].Ret? && Execute(m, i, t[i].frame.value, true).Some?
    ensures ReturningOk(m, t, ReturningFrom(m, t, i)) && ReturningFrom(m, t, i).ret == i
  {
    assert RecordOk(m, t, i);
    ExecuteOk(m, i, t[i].frame.value, true);
    ForgetOk(m.maxLocals, m.code[i], Execute(m, i, t[i].frame.value, true).value);
    hide Execute, FrameOk, Forget;
  }

  /** What is settled stays settled while its own record is not touched. */
  lemma EvolvesKeepsSettled(m: Method, redo: bool, t: Table, u: Table, i: nat)
    requires Legal(m) && TableOk(m, t) && Evolves(t, u) && Known(t, i) && |u| == |m.code|
    requires u[i].frame == t[i].frame && u[i].flags == t[i].flags && Settled(m, redo, t, i)
    ensures Settled(m, redo, u, i)
  {
    hide Flows, Execute, Absorbed, Weaker, ReturnSettled, FlowOk, Forget, FrameOk;
    SentTargets(m, redo, t, i);
    forall g | g in Sent(m, redo, t, i).value ensures Absorbed(g, u[g.to]) {
      EvolvesKeepsAbsorbed(m, t, u, g);
    }
    WeakerRet(t[i], u[i]);
    if Adds(redo, u[i]) != Adds(redo, t[i]) {
      if m.code[i].Jsr? {
        AddsLess(m, u, i, t[i].frame.value, t[i].flags);
      } else {
        AddsIrrelevant(m, i, t[i].frame.value, t[i].flags, Adds(redo, u[i]), Adds(redo, t[i]));
      }
    }
    if m.code[i].Ret? {
      ReturningFromOk(m, t, i);
      var x := ReturningFrom(m, t, i);
      forall j | 0 <= j < |t| && m.code[j] == Jsr(x.entry) ensures ReturnSettled(u, x, j) {
        EvolvesKeepsReturn(m, t, u, x, j);
      }
    }
  }

  lemma WeakerRet(r: Record, s: Record)
    requires Weaker(r, s)
    ensures r.ret.Some? ==> s.ret == r.ret
  {
  }

  // ----- one visit -----

  lemma UnmarkOk(m: Method, t: Table, i: nat)
    requires TableOk(m, t) && Known(t, i)
    ensures TableOk(m, Unmark(m, t, i))
  {
    var u := Unmark(m, t, i);
    assert RecordOk(m, t, i);
    forall k | 0 <= k < |u| ensures RecordOk(m, u, k) {
      assert RecordOk(m, t, k);
    }
  }

  lemma UnmarkWork(m: Method, t: Table, i: nat)
    requires TableOk(m, t) && Known(t, i) && t[i].changed
    ensures LessWork(m, Unmark(m, t, i), t)
  {
    assert RecordOk(m, t, i);
    var r := t[i].(changed := false);
    var s := t[i := r];
    TotalUpdate(Unknown, t, i, r);
    TotalUpdate(Nulls, t, i, r);
    TotalUpdate(ClimbWithin(m.maxLocals), t, i, r);
    TotalUpdate(Pending, t, i, r);
    if m.code[i].Jsr? && t[i].ret.Some? {
      var k := t[i].ret.value;
      assert RecordOk(m, t, k);
      var q := s[k].(changed := true);
      TotalUpdate(Unknown, s, k, q);
      TotalUpdate(Nulls, s, k, q);
      TotalUpdate(ClimbWithin(m.maxLocals), s, k, q);
      TotalUpdate(Pending, s, k, q);
    }
  }

  /** Instructions that stay unmarked are settled in the unmarked table as well. */
  lemma UnmarkKeepsSettled(m: Method, redo: bool, t: Table, i: nat, k: nat)
    requires Legal(m) && TableOk(m, t) && Known(t, i) && Known(t, k) && k != i && Settled(m, redo, t, k)
    requires !Unmark(m, t, i)[k].changed
    ensures Settled(m, redo, Unmark(m, t, i), k)
  {
    UnmarkFrames(m, t, i);
    MarksItsRet(m, t, i);
    hide Flows, Execute, Forget, Absorbed, Unmark, TableOk, Legal, ReturnSettled;
    var u := Unmark(m, t, i);
    forall g | g in Sent(m, redo, t, k).value ensures Absorbed(g, u[g.to]) {
      AbsorbedSame(g, t[g.to], u[g.to]);
    }
    if m.code[k].Ret? {
      var x := ReturningFrom(m, t, k);
      forall j | 0 <= j < |t| && m.code[j] == Jsr(x.entry) ensures ReturnSettled(u, x, j) {
        ReturnSame(t, u, x, j, i);
      }
    }
  }

  lemma AbsorbedSame(g: Flow, r: Record, s: Record)
    requires Absorbed(g, r) && r.frame == s.frame && r.flags == s.flags
    ensures Absorbed(g, s)
  {
  }

  lemma ReturnSame(t: Table, u: Table, x: Returning, j: nat, i: nat)
    requires ReturnSettled(t, x, j) && |u| == |t| && i < |t| && (t[i].ret == Some(x.ret) ==> j != i)
    requires forall k | 0 <= k < |t| :: u[k].frame == t[k].frame && u[k].flags == t[k].flags && u[k].ret == t[k].ret
    requires j != i && !u[j].changed ==> !t[j].changed
    ensures ReturnSettled(u, x, j)
  {
    hide FrameBelow, FlagsBelow, ReturnFrame;
  }

  lemma MarksItsRet(m: Method, t: Table, i: nat)
    requires TableOk(m, t) && Known(t, i)
    ensures forall k | 0 <= k < |t| && t[i].ret == Some(k) :: Unmark(m, t, i)[k].changed && m.code[i].Jsr?
  {
    assert RecordOk(m, t, i);
  }

  lemma VisitOk(m: Method, redo: bool, t: Table, i: nat)
    requires Legal(m) && TableOk(m, t) && Known(t, i) && Visit(m, redo, t, i).Some?
    ensures var s, u := Unmark(m, t, i), Visit(m, redo, t, i).value;
            && TableOk(m, s) && TableOk(m, u) && Evolves(s, u) && (u == s || LessWork(m, u, s))
            && (forall g | g in Sent(m, redo, t, i).value :: g.to < |u| && Absorbed(g, u[g.to]))
            && (m.code[i].Ret? ==>
                 && Execute(m, i, t[i].frame.value, true).Some?
                 && forall j | 0 <= j < |t| && m.code[j] == Jsr(ReturningFrom(m, t, i).entry) :: ReturnSettled(u, ReturningFrom(m, t, i), j))
  {
    SentTargets(m, redo, t, i);
    UnmarkOk(m, t, i);
    RetExecutesIf(m, redo, t, i);
    hide TableOk, Flows, Execute, Forget, MergeAll, ReturnAll, Evolves, LessWork, Absorbed, ReturnSettled, FlowOk, Unmark, Edge;
    var s, flows := Unmark(m, t, i), Sent(m, redo, t, i).value;
    MergeMany(m, s, flows);
    var u := MergeAll(s, flows).value;
    TableLength(m, u);
    if m.code[i].Ret? {
      ReturningFromOk(m, t, i);
      var x := ReturningFrom(m, t, i);
      UnmarkKnown(m, t, i, x);
      StillReturning(m, s, u, x);
      var calls := CallsOf(m, x.entry, |m.code|);
      ReturnMany(m, u, x, calls);
      var v := ReturnAll(u, x, calls).value;
      EvolvesTransitive(m, s, u, v);
      forall g | g in flows ensures Absorbed(g, v[g.to]) {
        EvolvesKeepsAbsorbed(m, u, v, g);
      }
      if v != u && u != s {
        LessWorkTransitive(m, v, u, s);
      }
    }
  }

  lemma RetExecutes(m: Method, redo: bool, t: Table, i: nat)
    requires |t| == |m.code| && Known(t, i) && m.code[i].Ret? && Sent(m, redo, t, i).Some?
    ensures Execute(m, i, t[i].frame.value, true).Some?
  {
    AddsIrrelevant(m, i, t[i].frame.value, t[i].flags, true, Adds(redo, t[i]));
  }

  lemma UnmarkKnown(m: Method, t: Table, i: nat, x: Returning)
    requires TableOk(m, t) && ReturningOk(m, t, x) && Known(t, i)
    ensures ReturningOk(m, Unmark(m, t, i), x)
  {
    assert RecordOk(m, t, i);
  }

  /** What every visit keeps. */
  ghost predicate Invariant(m: Method, redo: bool, t: Table) {
    && TableOk(m, t) && Marked(m, t) && SettledUnlessMarked(m, redo, t) && EntryAllowed(m, t)
    && (JsrFree(m) ==> CleanStacks(t))
  }

  /** A visit leaves only marked instructions unsettled. */
  lemma VisitSettles(m: Method, redo: bool, t: Table, i: nat)
    requires Legal(m) && TableOk(m, t) && SettledUnlessMarked(m, redo, t) && Known(t, i) && t[i].changed && Visit(m, redo, t, i).Some?
    ensures SettledUnlessMarked(m, redo, Visit(m, redo, t, i).value)
  {
    VisitOk(m, redo, t, i);
    var s, u := Unmark(m, t, i), Visit(m, redo, t, i).value;
    UnmarkFrames(m, t, i);
    RetExecutesIf(m, redo, t, i);
    hide TableOk, Flows, Execute, Forget, Visit, Absorbed, ReturnSettled, Unmark, Weaker, LessWork, Sent, Settled, Legal;
    TableLength(m, u);
    forall k | 0 <= k < |u| && u[k].frame.Some? && !u[k].changed ensures Settled(m, redo, u, k) {
      assert u[k].frame == s[k].frame && u[k].flags == s[k].flags && u[k].changed == s[k].changed;
      if k == i {
        VisitedIsSettled(m, redo, t, u, i);
      } else {
        assert t[k].frame.Some? && !t[k].changed && Settled(m, redo, t, k);
        UnmarkKeepsSettled(m, redo, t, i, k);
        EvolvesKeepsSettled(m, redo, s, u, k);
      }
    }
  }

  lemma UnmarkFrames(m: Method, t: Table, i: nat)
    requires TableOk(m, t) && Known(t, i)
    ensures var s := Unmark(m, t, i);
            |s| == |t| && forall k | 0 <= k < |t| ::
              s[k].frame == t[k].frame && s[k].flags == t[k].flags && s[k].ret == t[k].ret && (k != i && !s[k].changed ==> !t[k].changed)
  {
    assert RecordOk(m, t, i);
  }

  lemma RetExecutesIf(m: Method, redo: bool, t: Table, i: nat)
    requires |t| == |m.code| && Known(t, i) && Sent(m, redo, t, i).Some?
    ensures m.code[i].Ret? ==> Execute(m, i, t[i].frame.value, true).Some?
  {
    if m.code[i].Ret? {
      RetExecutes(m, redo, t, i);
    }
  }

  lemma VisitedIsSettled(m: Method, redo: bool, t: Table, u: Table, i: nat)
    requires Legal(m) && TableOk(m, t) && Known(t, i) && |u| == |t| && Sent(m, redo, t, i).Some?
    requires u[i].frame == t[i].frame && u[i].flags == t[i].flags && (t[i].ret.Some? ==> u[i].ret == t[i].ret)
    requires forall g | g in Sent(m, redo, t, i).value :: g.to < |u| && Absorbed(g, u[g.to])
    requires m.code[i].Ret? ==>
               && Execute(m, i, t[i].frame.value, true).Some?
               && forall j | 0 <= j < |t| && m.code[j] == Jsr(ReturningFrom(m, t, i).entry) :: ReturnSettled(u, ReturningFrom(m, t, i), j)
    ensures Settled(m, redo, u, i)
  {
    hide Flows, Execute, Absorbed, ReturnSettled, Forget, FrameOk;
    if Adds(redo, u[i]) != Adds(redo, t[i]) {
      if m.code[i].Jsr? {
        AddsLess(m, u, i, t[i].frame.value, t[i].flags);
      } else {
        AddsIrrelevant(m, i, t[i].frame.value, t[i].flags, Adds(redo, u[i]), Adds(redo, t[i]));
      }
    }
  }

  // ----- the graph -----

  lemma {:induction false} MergeAllMarks(m: Method, t: Table, i: nat, flows: seq<Flow>)
    requires Marked(m, t) && i < |t| && Reachable(m, i)
    requires (forall g | g in flows :: g.to < |t| && Edge(m, i, g.to)) && MergeAll(t, flows).Some?
    ensures Marked(m, MergeAll(t, flows).value)
    decreases |flows|
  {
    hide Edge, MergeStacks, MergeRegisterSets, MergeMasks;
    if flows != [] {
      var g := flows[0];
      var r := MergeRecord(t[g.to], g).value;
      ReachableStep(m, i, g.to);
      MergeAllMarks(m, t[g.to := r], i, flows[1..]);
    }
  }

  lemma {:induction false} ReturnAllMarks(m: Method, t: Table, x: Returning, calls: seq<nat>)
    requires Marked(m, t) && x.ret < |t| && Reachable(m, x.ret) && m.code[x.ret].Ret?
    requires (forall k | 0 <= k < |calls| :: calls[k] < |t| && m.code[calls[k]].Jsr?) && ReturnAll(t, x, calls).Some?
    ensures Marked(m, ReturnAll(t, x, calls).value)
    decreases |calls|
  {
    hide MergeRecord, ReturnFrame;
    if calls != [] {
      var j := calls[0];
      var s := ReturnTo(t, x, j).value;
      assert Edge(m, x.ret, j + 1);
      ReachableStep(m, x.ret, j + 1);
      ReturnAllMarks(m, s, x, calls[1..]);
    }
  }

  lemma VisitMarks(m: Method, redo: bool, t: Table, i: nat)
    requires Legal(m) && TableOk(m, t) && Marked(m, t) && Known(t, i) && Visit(m, redo, t, i).Some?
    ensures Marked(m, Visit(m, redo, t, i).value)
  {
    var s, flows := Unmark(m, t, i), Sent(m, redo, t, i).value;
    SentTargets(m, redo, t, i);
    UnmarkFrames(m, t, i);
    hide *;
    MergeAllMarks(m, s, i, flows);
    MergeAllLength(s, flows);
    ReturnOfIs(m, t, i);
    VisitIs(m, redo, t, i);
    var x := ReturnOf(m, t, i);
    if x.Some? {
      ReturnAllMarks(m, MergeAll(s, flows).value, x.value, CallsOf(m, x.value.entry, |m.code|));
    }
  }

  lemma ReturnOfIs(m: Method, t: Table, i: nat)
    requires |t| == |m.code| && Known(t, i)
    ensures i < |t|
    ensures ReturnOf(m, t, i).Some? ==> ReturnOf(m, t, i).value.ret == i && m.code[i].Ret?
  {
    hide Execute, Forget;
  }

  /** The parts of a visit. */
  lemma VisitIs(m: Method, redo: bool, t: Table, i: nat)
    requires Legal(m) && TableOk(m, t) && Known(t, i) && Visit(m, redo, t, i).Some?
    ensures |t| == |m.code| && Sent(m, redo, t, i).Some? && forall g | g in Sent(m, redo, t, i).value :: g.to < |t|
    ensures var u, x := MergeAll(Unmark(m, t, i), Sent(m, redo, t, i).value), ReturnOf(m, t, i);
            && u.Some? && |u.value| == |t|
            && (x.None? ==> Visit(m, redo, t, i) == u)
            && (x.Some? ==> Visit(m, redo, t, i) == ReturnAll(u.value, x.value, CallsOf(m, x.value.entry, |m.code|)))
  {
    SentTargets(m, redo, t, i);
    hide TableOk, Flows, Execute, Forget, Edge, Unmark, Sent, MergeAll, ReturnAll, FlowOk, ReturnOf;
    MergeAllLength(Unmark(m, t, i), Sent(m, redo, t, i).value);
  }

  // ----- code without subroutines -----

  lemma {:induction false} MergeAllClean(t: Table, flows: seq<Flow>)
    requires forall fl | fl in flows :: fl.to < |t| && Bogus !in fl.frame.stack
    requires CleanStacks(t) && MergeAll(t, flows).Some?
    ensures CleanStacks(MergeAll(t, flows).value)
    decreases |flows|
  {
    if flows != [] {
      MergeAllClean(t[flows[0].to := MergeRecord(t[flows[0].to], flows[0]).value], flows[1..]);
    }
  }

  lemma {:induction false} HandlerFlowsClean(m: Method, i: nat, before: Frame, after: Frame, fl: Flags, flAfter: Flags, hs: seq<Handler>)
    requires i < |m.code| && forall h | h in hs :: LegalHandler(m, h)
    ensures forall g | g in HandlerFlows(m, i, before, after, fl, flAfter, hs) :: Bogus !in g.frame.stack
  {
    if hs != [] {
      HandlerFlowsClean(m, i, before, after, fl, flAfter, hs[1..]);
      assert LegalHandler(m, hs[0]);
    }
  }

  lemma ShuffleClean(op: StackOp, s: seq<Type>)
    requires Bogus !in s && Shuffle(op, IsWide, s).Some?
    ensures Bogus !in Shuffle(op, IsWide, s).value
  {
    forall t | t in Shuffle(op, IsWide, s).value ensures t in s {}
  }

  lemma ExecuteClean(m: Method, i: nat, f: Frame, adds: bool)
    requires Legal(m) && i < |m.code| && Bogus !in f.stack && Execute(m, i, f, adds).Some?
    ensures Bogus !in Execute(m, i, f, adds).value.stack
  {
    var ins := m.code[i];
    assert LegalOperands(m, ins);
    if ins.Stack? {
      ShuffleClean(ins.op, f.stack);
    } else {
      var ops := Operands(m, ins);
      var rest := f.stack[|ops|..];
      assert Bogus !in rest;
      if ins.InvokeInit? {
        var from := f.stack[|ops| - 1];
        var k := if from.NewObject? && from.inumber < |m.code| then from.inumber else i;
        assert LegalOperands(m, m.code[k]);
        assert Bogus !in Replace(rest, from, InitializedAs(m, from));
      }
      PushedClean(m, i, f);
    }
  }

  lemma PushedClean(m: Method, i: nat, f: Frame)
    requires Legal(m) && i < |m.code|
    requires RegistersReadable(m.code[i], f.regs) && OperandsAccepted(m, i, m.code[i], f.stack)
    ensures Pushed(m, i, m.code[i], f) != Some(Bogus)
  {
    var ins := m.code[i];
    assert LegalOperands(m, ins);
    if ins.AaLoad? {
      assert Accepts(m, Operands(m, ins)[1], f.stack[1]);
    }
  }

  /** From a clean stack an instruction sends only clean stacks on. */
  lemma FlowsClean(m: Method, i: nat, f: Frame, fl: Flags, adds: bool)
    requires JsrFree(m) && i < |m.code| && Bogus !in f.stack && Flows(m, i, f, fl, adds).Some?
    ensures forall g | g in Flows(m, i, f, fl, adds).value :: Bogus !in g.frame.stack
  {
    var after := Execute(m, i, f, adds).value;
    ExecuteClean(m, i, f, adds);
    HandlerFlowsClean(m, i, f, after, fl, UpdateFlags(m, m.code[i], f, fl), m.handlers);
    hide Execute, HandlerFlows;
  }

  lemma VisitClean(m: Method, redo: bool, t: Table, i: nat)
    requires JsrFree(m) && TableOk(m, t) && CleanStacks(t) && Known(t, i) && Visit(m, redo, t, i).Some?
    ensures CleanStacks(Visit(m, redo, t, i).value)
  {
    SentTargets(m, redo, t, i);
    FlowsClean(m, i, t[i].frame.value, t[i].flags, Adds(redo, t[i]));
    UnmarkFrames(m, t, i);
    assert !m.code[i].Ret?;
    hide Flows, Execute, Edge, Unmark, FlowOk, TableOk, MergeAll, ReturnAll;
    MergeAllClean(Unmark(m, t, i), Sent(m, redo, t, i).value);
  }

  /** Without subroutines an instruction settled in the second run is settled in the first. */
  lemma PlainlySettled(m: Method, t: Table, i: nat)
    requires JsrFree(m) && PostFixpoint(m, t) && Known(t, i)
    ensures i < |m.code| && Bogus !in t[i].frame.value.stack
    ensures Flows(m, i, t[i].frame.value, t[i].flags, true).Some?
    ensures Execute(m, i, t[i].frame.value, true).Some?
    ensures forall g | g in Flows(m, i, t[i].frame.value, t[i].flags, true).value :: g.to < |t| && Absorbed(g, t[g.to])
  {
    assert Settled(m, true, t, i);
    AddsIrrelevant(m, i, t[i].frame.value, t[i].flags, true, Adds(true, t[i]));
    hide Absorbed, TableOk, Execute;
  }

  // ----- the start of each run -----

  lemma InitialTableOk(m: Method)
    requires Legal(m)
    ensures TableOk(m, InitialTable(m))
  {
  }

  lemma InitialInvariant(m: Method)
    requires Legal(m)
    ensures Invariant(m, false, InitialTable(m))
  {
    assert PathTo(m, [0], 0);
    forall t: Type ensures IsAssignableTo(t, t) {}
    InitialTableOk(m);
    MasksBelowItself(EntryFrame(m).masks);
    hide TableOk;
  }

  lemma MarkCallsOk(m: Method, t: Table)
    requires TableOk(m, t)
    ensures TableOk(m, MarkCalls(m, t)) && Evolves(t, MarkCalls(m, t))
  {
    var u := MarkCalls(m, t);
    forall i | 0 <= i < |t| ensures Weaker(t[i], u[i]) {
      WeakerItself(t[i]);
    }
    forall i | 0 <= i < |t| ensures RecordOk(m, u, i) {
      assert RecordOk(m, t, i);
    }
    forall i | 0 <= i < |t| ensures u[i].changed && !t[i].changed ==> u[i].frame.Some? {
      assert RecordOk(m, t, i);
    }
  }

  /** The second run starts with everything settled that it does not visit again. */
  lemma SecondRun(m: Method, t: Table)
    requires Legal(m) && Invariant(m, false, t) && forall i | 0 <= i < |t| :: !t[i].changed
    ensures Invariant(m, true, MarkCalls(m, t))
  {
    var u := MarkCalls(m, t);
    MarkCallsOk(m, t);
    hide Flows, Execute, Weaker, Absorbed, Forget, FrameOk, Reachable;
    assert EntryAllowed(m, u) by {
      hide TableOk, Settled;
    }
    forall i | 0 <= i < |u| && u[i].frame.Some? && !u[i].changed ensures Settled(m, true, u, i) {
      assert RecordOk(m, t, i);
      assert Settled(m, false, t, i);
      if !m.code[i].Jsr? {
        AddsIrrelevant(m, i, t[i].frame.value, t[i].flags, true, Adds(true, t[i]));
      }
      assert Settled(m, true, t, i) by {
        hide ReturnSettled;
      }
      hide Settled, TableOk, RecordOk;
      EvolvesKeepsSettled(m, true, t, u, i);
    }
  }

  /** When every reached jsr has its ret the second run has nothing to do. */
  lemma NoSecondRun(m: Method, t: Table)
    requires Legal(m) && Invariant(m, false, t) && forall i | 0 <= i < |t| :: !t[i].changed
    requires forall i | 0 <= i < |t| && m.code[i].Jsr? && t[i].flags.reached :: t[i].ret.Some?
    ensures PostFixpoint(m, t)
  {
    hide Flows, Execute, Absorbed, Forget, FrameOk, Reachable, ReturnSettled;
    forall i | 0 <= i < |t| && t[i].frame.Some? ensures Settled(m, true, t, i) {
      assert RecordOk(m, t, i);
      assert Settled(m, false, t, i);
      if !m.code[i].Jsr? {
        AddsIrrelevant(m, i, t[i].frame.value, t[i].flags, true, Adds(true, t[i]));
      }
    }
  }

  lemma VisitKeeps(m: Method, redo: bool, t: Table, i: nat)
    requires Legal(m) && Invariant(m, redo, t) && Known(t, i) && t[i].changed && Visit(m, redo, t, i).Some?
    ensures Invariant(m, redo, Visit(m, redo, t, i).value) && LessWork(m, Visit(m, redo, t, i).value, t)
  {
    VisitOk(m, redo, t, i);
    VisitSettles(m, redo, t, i);
    VisitMarks(m, redo, t, i);
    UnmarkWork(m, t, i);
    var s, u := Unmark(m, t, i), Visit(m, redo, t, i).value;
    if JsrFree(m) {
      VisitClean(m, redo, t, i);
    }
    EntryStays(m, t, i, u);
    hide *;
    if u != s {
      LessWorkTransitive(m, u, s, t);
    }
    InvariantIs(m, redo, u);
  }

  lemma InvariantIs(m: Method, redo: bool, t: Table)
    requires TableOk(m, t) && Marked(m, t) && SettledUnlessMarked(m, redo, t) && EntryAllowed(m, t) && (JsrFree(m) ==> CleanStacks(t))
    ensures Invariant(m, redo, t)
  {
  }

  lemma EntryStays(m: Method, t: Table, i: nat, u: Table)
    requires Legal(m) && TableOk(m, t) && EntryAllowed(m, t) && Known(t, i) && Evolves(Unmark(m, t, i), u)
    ensures EntryAllowed(m, u)
  {
    UnmarkFrames(m, t, i);
    hide TableOk, Unmark, Weaker;
    WeakerKeepsAbsorbed(m.maxLocals, Flow(0, EntryFrame(m), EntryFlags(m)), Unmark(m, t, i)[0], u[0]);
  }

  // ----- termination -----

  function Total(measure: Record -> nat, t: Table): nat {
    if t == [] then 0 else measure(t[0]) + Total(measure, t[1..])
  }

  function ClimbWithin(limit: nat): Record -> nat {
    r => Climb(limit, r)
  }

  lemma {:induction false} TotalUpdate(measure: Record -> nat, t: Table, i: nat, r: Record)
    requires i < |t|
    ensures Total(measure, t[i := r]) == Total(measure, t) - measure(t[i]) + measure(r)
    ensures measure(t[i]) <= Total(measure, t)
  {
    if i == 0 {
      assert t[i := r][1..] == t[1..];
    } else {
      TotalUpdate(measure, t[1..], i - 1, r);
      assert t[i := r][1..] == t[1..][i - 1 := r];
    }
  }

  /** What remains to be done before the loop must stop, most significant first. */
  predicate LessWork(m: Method, u: Table, t: Table) {
    var a, b, c := Total(Unknown, u), Total(Nulls, u), Total(ClimbWithin(m.maxLocals), u);
    var x, y, z := Total(Unknown, t), Total(Nulls, t), Total(ClimbWithin(m.maxLocals), t);
    a < x || (a == x && (b < y || (b == y && (c < z || (c == z && Total(Pending, u) < Total(Pending, t))))))
  }

  lemma LessWorkTransitive(m: Method, t: Table, u: Table, v: Table)
    requires LessWork(m, t, u) && LessWork(m, u, v)
    ensures LessWork(m, t, v)
  {
    hide Total;
  }

  // ----- the verifier's instruction array -----

  class Analysis {
    const m: Method
    const data: array<Record>

    constructor (m: Method)
      requires Legal(m)
      ensures this.m == m && fresh(data) && data[..] == InitialTable(m)
    {
      this.m := m;
      var t := InitialTable(m);
      data := new Record[|m.code|](i requires 0 <= i < |t| => t[i]);
      new;
      assert data[..] == InitialTable(m);
    }

    /** The loops of merge_stack, from the old stack to the merged one. */
    static method MergedStack(stack: seq<Type>, incoming: seq<Type>) returns (ok: bool, merged: seq<Type>, changed: bool)
      ensures ok == MergeStacks(stack, incoming).Some?
      ensures ok ==> merged == MergeStacks(stack, incoming).value
      ensures ok ==> (changed <==> merged != stack)
    {
      if StackWords(incoming) != StackWords(stack) {
        return false, stack, false;
      }
      var k := 0;
      while k < |stack| && k < |incoming| && IsAssignableTo(incoming[k], stack[k])
        invariant k <= |stack| && k <= |incoming|
        invariant forall n | 0 <= n < k :: IsAssignableTo(incoming[n], stack[n])
      {
        k := k + 1;
      }
      if k == |stack| == |incoming| {
        return true, stack, false;
      }
      ok, merged := JoinedStack(stack, incoming);
      changed := true;
      if ok {
        MismatchChanges(stack, incoming);
      }
    }

    static method JoinedStack(stack: seq<Type>, incoming: seq<Type>) returns (ok: bool, merged: seq<Type>)
      ensures ok <==> |stack| == |incoming| && Bogus !in JoinAll(stack, incoming)
      ensures ok ==> merged == JoinAll(stack, incoming)
    {
      merged := [];
      var k := 0;
      while k < |stack| && k < |incoming|
        invariant k == |merged| <= |stack| && k <= |incoming|
        invariant forall n | 0 <= n < k :: merged[n] == Join(stack[n], incoming[n]) && !merged[n].Bogus?
      {
        var item := Join(stack[k], incoming[k]);
        if item.Bogus? {
          if |stack| == |incoming| { assert JoinAll(stack, incoming)[k] == Bogus; }
          return false, stack;
        }
        merged, k := merged + [item], k + 1;
      }
      ok := |stack| == |incoming|;
    }

    method MergeStack(to: nat, incoming: seq<Type>) returns (ok: bool)
      requires to < data.Length && data[to].frame.Some?
      modifies data
      ensures var r := old(data[to]);
              var s := MergeStacks(r.frame.value.stack, incoming);
              && ok == s.Some?
              && (ok ==> data[..] == old(data[..])[to := r.(
                     frame := Some(r.frame.value.(stack := s.value)),
                     changed := r.changed || s.value != r.frame.value.stack)])
    {
      var r := data[to];
      var stack, changed;
      ok, stack, changed := MergedStack(r.frame.value.stack, incoming);
      if ok {
        data[to] := r.(frame := Some(r.frame.value.(stack := stack)), changed := r.changed || changed);
      }
    }

    static method FindMismatch(regs: seq<Type>, incoming: seq<Type>) returns (i: nat)
      requires |regs| <= |incoming|
      ensures i == FirstMismatch(regs, incoming)
    {
      i := 0;
      while i < |regs| && IsAssignableTo(incoming[i], regs[i])
        invariant i <= FirstMismatch(regs, incoming)
      {
        FirstMismatchAt(regs, incoming, i);
        i := i + 1;
      }
      FirstMismatchAt(regs, incoming, i);
    }

    /** The registers from i on merged with the incoming ones. */
    static method MergeFrom(regs: seq<Type>, incoming: seq<Type>, i: nat) returns (merged: seq<Type>)
      requires i <= |regs| <= |incoming|
      ensures merged == regs[..i] + JoinAll(regs[i..], incoming[i..|regs|])
    {
      merged := regs[..i];
      var j := i;
      while j < |regs|
        invariant i <= j == |merged| <= |regs|
        invariant merged[..i] == regs[..i]
        invariant forall n | i <= n < j :: merged[n] == Join(regs[n], incoming[n])
      {
        Lattice.JoinLaws(regs[j], incoming[j], Bogus);
        merged, j := merged + [Merge(incoming[j], regs[j], false)], j + 1;
      }
    }

    /** The loops of merge_registers, from the old registers to the new set. */
    static method MergedRegisters(before: seq<Type>, incoming: seq<Type>) returns (regs: seq<Type>, changed: bool)
      ensures regs == MergeRegisterSets(before, incoming)
      ensures changed <==> regs != before
    {
      regs, changed := before, false;
      if |regs| > |incoming| {
        regs, changed := regs[..|incoming|], true;
      }
      var i := FindMismatch(regs, incoming);
      if i < |regs| {
        var merged := MergeFrom(regs, incoming, i);
        RegisterMismatchChanges(regs, incoming, i, TrimBogus(merged));
        regs := TrimmedRegisters(merged);
        changed := true;
      }
    }

    static method TrimmedRegisters(s: seq<Type>) returns (r: seq<Type>)
      ensures r == TrimBogus(s)
    {
      var count := |s|;
      assert s[..|s|] == s;
      while count > 0 && s[count - 1].Bogus?
        invariant 0 <= count <= |s|
        invariant TrimBogus(s[..count]) == TrimBogus(s)
      {
        assert s[..count][..count - 1] == s[..count - 1];
        count := count - 1;
      }
      r := s[..count];
    }

    method MergeRegisters(to: nat, incoming: seq<Type>, masks: seq<Mask>)
      requires to < data.Length && data[to].frame.Some?
      modifies data
      ensures var r := old(data[to]);
              var f := Frame(r.frame.value.stack, MergeRegisterSets(r.frame.value.regs, incoming), MergeMasks(r.frame.value.masks, masks));
              data[..] == old(data[..])[to := r.(frame := Some(f), changed := r.changed || f != r.frame.value)]
    {
      var r := data[to];
      var regs, changed := MergedRegisters(r.frame.value.regs, incoming);
      var merged, maskChanged := MergedMasks(r.frame.value.masks, masks);
      data[to] := r.(frame := Some(Frame(r.frame.value.stack, regs, merged)), changed := r.changed || changed || maskChanged);
    }

    /** Where a mask of the subroutine is among the masks from `from` on; the length if there is none. */
    static method FindMatch(masks: seq<Mask>, entry: nat, from: nat) returns (j: nat)
      requires from <= |masks|
      ensures j == from + MaskOf(masks[from..], entry)
    {
      j := from;
      while j < |masks| && masks[j].entry != entry
        invariant from <= j <= |masks| && from + MaskOf(masks[from..], entry) == j + MaskOf(masks[j..], entry)
      {
        assert masks[j..][1..] == masks[j + 1..] && masks[j..][0] == masks[j];
        j := j + 1;
      }
      assert j < |masks| ==> masks[j..][0] == masks[j];
    }

    /** The part of merge_registers about masks: first the matches are counted, then a copy is made if it is needed. */
    static method MergedMasks(masks: seq<Mask>, incoming: seq<Mask>) returns (merged: seq<Mask>, changed: bool)
      ensures merged == MergeMasks(masks, incoming)
      ensures changed <==> merged != masks
    {
      var matches, copyNeeded := CountMatches(masks, incoming);
      if matches < |masks| || copyNeeded {
        merged := CopiedMasks(masks, incoming);
        changed := true;
      } else {
        merged, changed := masks, false;
      }
    }

    static method CountMatches(masks: seq<Mask>, incoming: seq<Mask>) returns (matches: nat, copyNeeded: bool)
      ensures matches == |MergeMasks(masks, incoming)|
      ensures matches == |masks| ==> (copyNeeded <==> MergeMasks(masks, incoming) != masks)
    {
      hide MergeMasks, MaskOf;
      ghost var done: seq<Mask> := [];
      matches, copyNeeded := 0, false;
      var i, next := 0, 0;
      assert masks[0..] == masks && incoming[0..] == incoming;
      while i < |masks|
        invariant 0 <= i <= |masks| && next <= |incoming| && matches == |done| <= i
        invariant done + MergeMasks(masks[i..], incoming[next..]) == MergeMasks(masks, incoming)
        invariant matches == i ==> (copyNeeded <==> done != masks[..i])
      {
        var j := FindMatch(incoming, masks[i].entry, next);
        MergeMasksStep(masks, incoming, done, i, next);
        if j < |incoming| {
          ghost var one := Mask(masks[i].entry, masks[i].changed + incoming[j].changed);
          SameSoFar(masks, done, one, i, incoming[j].changed);
          matches := matches + 1;
          copyNeeded := copyNeeded || !(incoming[j].changed <= masks[i].changed);
          done := done + [one];
          next := j + 1;
        }
        i := i + 1;
      }
      NoMasksLeft(masks, incoming, done, next);
      assert masks[..i] == masks;
    }

    static method CopiedMasks(masks: seq<Mask>, incoming: seq<Mask>) returns (copy: seq<Mask>)
      ensures copy == MergeMasks(masks, incoming)
    {
      hide MergeMasks, MaskOf;
      copy := [];
      var i, next := 0, 0;
      assert masks[0..] == masks && incoming[0..] == incoming;
      while i < |masks|
        invariant 0 <= i <= |masks| && next <= |incoming|
        invariant copy + MergeMasks(masks[i..], incoming[next..]) == MergeMasks(masks, incoming)
      {
        var j := FindMatch(incoming, masks[i].entry, next);
        MergeMasksStep(masks, incoming, copy, i, next);
        if j < |incoming| {
          copy := copy + [Mask(masks[i].entry, masks[i].changed + incoming[j].changed)];
          next := j + 1;
        }
        i := i + 1;
      }
      NoMasksLeft(masks, incoming, copy, next);
    }

    method MergeFlags(to: nat, flags: Flags)
      requires to < data.Length
      modifies data
      ensures var r := old(data[to]);
              var merged := MergeFlagSets(r.flags, flags);
              data[..] == old(data[..])[to := r.(flags := merged, changed := r.changed || merged != r.flags)]
    {
      var r := data[to];
      var merged := MergeFlagSets(r.flags, flags);
      if merged != r.flags {
        data[to] := r.(flags := merged, changed := true);
      } else {
        assert data[..] == old(data[..])[to := r];
      }
    }

    /** merge_into_one_successor, except for a return. */
    method MergeIntoOneSuccessor(flow: Flow) returns (ok: bool)
      requires flow.to < data.Length
      modifies data
      ensures var s := MergeRecord(old(data[flow.to]), flow);
              ok == s.Some? && (ok ==> data[..] == old(data[..])[flow.to := s.value])
    {
      hide MergeStacks, MergeRegisterSets, MergeMasks;
      var to := flow.to;
      if data[to].frame.None? {
        data[to] := data[to].(frame := Some(flow.frame), changed := true);
        MergeFlags(to, flow.flags);
        return true;
      }
      ok := MergeStack(to, flow.frame.stack);
      if ok {
        MergeRegisters(to, flow.frame.regs, flow.frame.masks);
        MergeFlags(to, flow.flags);
      }
    }

    /** merge_into_one_successor for a return: the registers of the ret are joined with those of the jsr. */
    method MergeReturn(x: Returning, j: nat) returns (ok: bool)
      requires j < data.Length
      modifies data
      ensures var s := ReturnTo(old(data[..]), x, j);
              ok == s.Some? && (ok ==> data[..] == s.value)
    {
      hide MergeRecord, ReturnFrame;
      ghost var before := data[..];
      if j + 1 >= data.Length {
        return false;
      }
      if data[j].ret != Some(x.ret) {
        if data[j].ret.Some? {
          return false;
        }
        data[j] := data[j].(ret := Some(x.ret));
      }
      assert data[..] == before[j := before[j].(ret := Some(x.ret))];
      if data[j].frame.None? {
        return true;
      }
      var f := ReturnFrame(x.out, data[j].frame.value.regs, x.entry);
      if f.None? {
        return false;
      }
      ok := MergeIntoOneSuccessor(Flow(j + 1, f.value, x.flags));
    }

    /** The successors of a ret: the places behind the calls of its subroutine. */
    method ReturnPoints(entry: nat) returns (calls: seq<nat>)
      ensures calls == CallsOf(m, entry, |m.code|)
    {
      hide CallsOf;
      calls := [];
      var i := |m.code|;
      assert [] + CallsOf(m, entry, i) == CallsOf(m, entry, i);
      while i > 0
        invariant 0 <= i <= |m.code| && calls + CallsOf(m, entry, i) == CallsOf(m, entry, |m.code|)
      {
        i := i - 1;
        CallsStep(m, entry, calls, i);
        if m.code[i] == Jsr(entry) {
          calls := calls + [i];
        }
      }
      CallsEnd(m, entry, calls);
    }

    method MergeReturns(x: Returning) returns (ok: bool)
      requires data.Length == |m.code|
      modifies data
      ensures var u := ReturnAll(old(data[..]), x, CallsOf(m, x.entry, |m.code|));
              ok == u.Some? && (ok ==> data[..] == u.value)
    {
      hide ReturnTo, CallsOf;
      var calls := ReturnPoints(x.entry);
      var k := 0;
      assert calls[0..] == calls;
      while k < |calls|
        invariant k <= |calls| && forall n | k <= n < |calls| :: calls[n] < data.Length
        invariant ReturnAll(data[..], x, calls[k..]) == ReturnAll(old(data[..]), x, calls)
      {
        assert calls[k..][0] == calls[k] && calls[k..][1..] == calls[k + 1..];
        ok := MergeReturn(x, calls[k]);
        if !ok {
          return;
        }
        k := k + 1;
      }
      return true;
    }

    method MergeIntoSuccessors(flows: seq<Flow>) returns (ok: bool)
      requires forall fl | fl in flows :: fl.to < data.Length
      modifies data
      ensures var u := MergeAll(old(data[..]), flows);
              ok == u.Some? && (ok ==> data[..] == u.value)
    {
      hide MergeRecord;
      var k := 0;
      assert flows[0..] == flows;
      while k < |flows|
        invariant k <= |flows|
        invariant MergeAll(data[..], flows[k..]) == MergeAll(old(data[..]), flows)
      {
        assert flows[k..][0] == flows[k] && flows[k..][1..] == flows[k + 1..];
        ok := MergeIntoOneSuccessor(flows[k]);
        if !ok {
          return;
        }
        k := k + 1;
      }
      return true;
    }

    /** The body of the loop of run_dataflow for a marked instruction. */
    method VisitInstruction(redo: bool, i: nat) returns (ok: bool)
      requires Legal(m) && TableOk(m, data[..]) && Known(data[..], i)
      modifies data
      ensures var u := Visit(m, redo, old(data[..]), i);
              ok == u.Some? && (ok ==> data[..] == u.value)
    {
      hide TableOk, Flows, Execute, Forget, MergeAll, ReturnAll, FlowOk, Edge;
      ghost var before := data[..];
      TableLength(m, before);
      RetInRange(m, before, i);
      var flows := Flows(m, i, data[i].frame.value, data[i].flags, Adds(redo, data[i]));
      if flows.None? {
        return false;
      }
      SentTargets(m, redo, before, i);
      ghost var x := ReturnOf(m, before, i);
      var returning: Option<Returning> := None;
      if m.code[i].Ret? {
        RetExecutes(m, redo, before, i);
        returning := Some(ReturningFrom(m, data[..], i));
      }
      data[i] := data[i].(changed := false);
      if m.code[i].Jsr? && data[i].ret.Some? {
        data[data[i].ret.value] := data[data[i].ret.value].(changed := true);
      }
      assert data[..] == Unmark(m, before, i);
      MergeAllLength(data[..], flows.value);
      ok := MergeIntoSuccessors(flows.value);
      if ok && m.code[i].Ret? {
        ok := MergeReturns(returning.value);
      }
    }

    /** One sweep over the instruction array. */
    method Sweep(redo: bool, ghost before: seq<Turn>) returns (ok: bool, workToDo: bool, ghost trace: seq<Turn>)
      requires Consistent(m, redo, data[..], before)
      modifies data
      ensures ok ==> Consistent(m, redo, data[..], trace)
      ensures ok && workToDo ==> LessWork(m, data[..], old(data[..]))
      ensures ok && !workToDo ==> data[..] == old(data[..]) && forall i | 0 <= i < data.Length :: !data[i].changed
      ensures !ok ==> RejectedBy(m, trace)
    {
      hide LessWork, Replay, Invariant, Visit, TableOk;
      ok, workToDo, trace := true, false, before;
      var i := 0;
      while i < data.Length
        invariant 0 <= i <= data.Length
        invariant ok && Consistent(m, redo, data[..], trace)
        invariant if workToDo then LessWork(m, data[..], old(data[..])) else data[..] == old(data[..])
        invariant !workToDo ==> forall k | 0 <= k < i :: !data[k].changed
      {
        if data[i].changed {
          ghost var prefix, table := trace, data[..];
          InvariantTable(m, redo, table, i);
          ok := VisitInstruction(redo, i);
          trace := prefix + [At(i)];
          ReplayVisit(m, redo, table, prefix, i);
          if !ok {
            return;
          }
          VisitKeeps(m, redo, table, i);
          if workToDo {
            LessWorkTransitive(m, data[..], table, old(data[..]));
          }
          workToDo := true;
        }
        i := i + 1;
      }
    }

    /** run_dataflow: the loop always ends, with nothing marked or with an error. */
    method RunDataflow(redo: bool, ghost before: seq<Turn>) returns (ok: bool, ghost trace: seq<Turn>)
      requires Consistent(m, redo, data[..], before)
      modifies data
      ensures ok ==> Consistent(m, redo, data[..], trace) && forall i | 0 <= i < data.Length :: !data[i].changed
      ensures !ok ==> RejectedBy(m, trace)
    {
      trace := before;
      var workToDo := true;
      while workToDo
        invariant Consistent(m, redo, data[..], trace)
        invariant !workToDo ==> forall i | 0 <= i < data.Length :: !data[i].changed
        decreases Total(Unknown, data[..]), Total(Nulls, data[..]), Total(ClimbWithin(m.maxLocals), data[..]), Total(Pending, data[..]), workToDo
      {
        ok, workToDo, trace := Sweep(redo, trace);
        if !ok {
          return;
        }
      }
      ok := true;
    }

    /** The loop that marks the reached jsr instructions without a ret. */
    method MarkUnreturned() returns (redo: bool)
      requires data.Length == |m.code|
      modifies data
      ensures data[..] == MarkCalls(m, old(data[..]))
      ensures !redo ==> data[..] == old(data[..])
      ensures redo <==> exists i :: 0 <= i < data.Length && m.code[i].Jsr? && old(data[i].flags).reached && old(data[i].ret).None?
    {
      redo := false;
      var i := 0;
      while i < data.Length
        invariant 0 <= i <= data.Length
        invariant forall k | 0 <= k < data.Length :: data[k] == if k < i then MarkCalls(m, old(data[..]))[k] else old(data[k])
        invariant !redo ==> data[..] == old(data[..])
        invariant redo <==> exists k :: 0 <= k < i && m.code[k].Jsr? && old(data[k].flags).reached && old(data[k].ret).None?
      {
        if m.code[i].Jsr? && data[i].flags.reached && data[i].ret.None? {
          data[i] := data[i].(changed := true);
          redo := true;
        }
        i := i + 1;
      }
    }

    /**
     The analysis of a method: run_dataflow, and once more when a jsr was left without a
     ret.  It always ends.  On success the table is a post-fixpoint, in which only what the
     graph can reach is reached; on failure some visit reported an error.
     */
    method Analyse() returns (ok: bool, ghost trace: seq<Turn>)
      requires Legal(m) && data[..] == InitialTable(m)
      modifies data
      ensures ok ==> PostFixpoint(m, data[..]) && Marked(m, data[..]) && exists redo :: Replay(m, trace) == Running(redo, data[..])
      ensures !ok ==> RejectedBy(m, trace)
    {
      hide Invariant, Settled, Weaker, TableOk;
      InitialInvariant(m);
      ok, trace := RunDataflow(false, []);
      if !ok {
        return;
      }
      ghost var first := data[..];
      InvariantLength(m, false, first);
      var redo := MarkUnreturned();
      if redo {
        SecondRun(m, first);
        ReplayAgain(m, first, trace);
        ok, trace := RunDataflow(true, trace + [Again]);
        if ok {
          SecondRunDone(m, data[..]);
        }
      } else {
        FirstRunDone(m, data[..]);
      }
    }
  }

  lemma InvariantLength(m: Method, redo: bool, t: Table)
    requires Invariant(m, redo, t)
    ensures |t| == |m.code| && TableOk(m, t) && Marked(m, t)
  {
  }

  lemma SecondRunDone(m: Method, t: Table)
    requires Invariant(m, true, t) && forall i | 0 <= i < |t| :: !t[i].changed
    ensures PostFixpoint(m, t) && Marked(m, t)
  {
    hide Settled, TableOk, Reachable;
  }

  lemma FirstRunDone(m: Method, t: Table)
    requires Legal(m) && Invariant(m, false, t) && |t| == |m.code| && forall i | 0 <= i < |t| :: !t[i].changed
    requires !exists i :: 0 <= i < |t| && m.code[i].Jsr? && t[i].flags.reached && t[i].ret.None?
    ensures PostFixpoint(m, t) && Marked(m, t)
  {
    NoSecondRun(m, t);
    hide Settled, TableOk, Reachable, PostFixpoint;
  }

  lemma ReplayVisit(m: Method, redo: bool, t: Table, trace: seq<Turn>, i: nat)
    requires Legal(m) && TableOk(m, t) && Replay(m, trace) == Running(redo, t) && Known(t, i) && t[i].changed
    ensures var u := Visit(m, redo, t, i);
            if u.Some? then Replay(m, trace + [At(i)]) == Running(redo, u.value) else RejectedBy(m, trace + [At(i)])
  {
    hide Visit, TableOk;
    assert (trace + [At(i)])[..|trace|] == trace;
  }

  lemma ReplayAgain(m: Method, t: Table, trace: seq<Turn>)
    requires Legal(m) && TableOk(m, t) && Replay(m, trace) == Running(false, t)
    ensures Replay(m, trace + [Again]) == Running(true, MarkCalls(m, t))
  {
    hide Visit, TableOk, MarkCalls;
    assert (trace + [Again])[..|trace|] == trace;
  }

  lemma InvariantTable(m: Method, redo: bool, t: Table, i: nat)
    requires Invariant(m, redo, t) && i < |t| && t[i].changed
    ensures TableOk(m, t) && Known(t, i)
  {
    assert RecordOk(m, t, i);
  }

  lemma RetInRange(m: Method, t: Table, i: nat)
    requires TableOk(m, t) && i < |t|
    ensures t[i].ret.Some? ==> t[i].ret.value < |t|
  {
    assert RecordOk(m, t, i);
  }

  lemma CallsStep(m: Method, entry: nat, calls: seq<nat>, i: nat)
    requires i < |m.code|
    ensures calls + CallsOf(m, entry, i + 1) == (if m.code[i] == Jsr(entry) then calls + [i] else calls) + CallsOf(m, entry, i)
  {
    CallsAre(m, entry, i);
    hide CallsOf;
    var rest := CallsOf(m, entry, i);
    assert calls + ([i] + rest) == calls + [i] + rest;
    assert [] + rest == rest;
  }

  lemma CallsAre(m: Method, entry: nat, i: nat)
    requires i < |m.code|
    ensures CallsOf(m, entry, i + 1) == (if m.code[i] == Jsr(entry) then [i] else []) + CallsOf(m, entry, i)
  {
  }

  lemma CallsEnd(m: Method, entry: nat, calls: seq<nat>)
    ensures calls + CallsOf(m, entry, 0) == calls
  {
  }

  lemma MergeMasksStep(masks: seq<Mask>, incoming: seq<Mask>, done: seq<Mask>, i: nat, next: nat)
    requires i < |masks| && next <= |incoming|
    ensures var j := next + MaskOf(incoming[next..], masks[i].entry);
            j <= |incoming| &&
            done + MergeMasks(masks[i..], incoming[next..]) ==
            if j == |incoming| then done + MergeMasks(masks[i + 1..], incoming[next..])
            else done + [Mask(masks[i].entry, masks[i].changed + incoming[j].changed)] + MergeMasks(masks[i + 1..], incoming[j + 1..])
  {
    assert masks[i..][1..] == masks[i + 1..] && masks[i..][0] == masks[i];
    var k := MaskOf(incoming[next..], masks[i].entry);
    if next + k < |incoming| {
      assert incoming[next..][k + 1..] == incoming[next + k + 1..] && incoming[next..][k] == incoming[next + k];
      var one, rest := Mask(masks[i].entry, masks[i].changed + incoming[next + k].changed), MergeMasks(masks[i + 1..], incoming[next + k + 1..]);
      assert MergeMasks(masks[i..], incoming[next..]) == [one] + rest;
      assert done + ([one] + rest) == done + [one] + rest;
    }
  }

  lemma SameSoFar(masks: seq<Mask>, done: seq<Mask>, one: Mask, i: nat, more: set<nat>)
    requires i < |masks| && one == Mask(masks[i].entry, masks[i].changed + more)
    ensures |done| == i ==> (done + [one] == masks[..i + 1] <==> done == masks[..i] && more <= masks[i].changed)
  {
    assert masks[..i + 1] == masks[..i] + [masks[i]];
    if |done| == i && done + [one] == masks[..i + 1] {
      assert done == (done + [one])[..i] && masks[..i] == masks[..i + 1][..i];
      assert (done + [one])[i] == one && masks[..i + 1][i] == masks[i];
      assert masks[i].changed + more == masks[i].changed;
    } else if more <= masks[i].changed {
      assert masks[i].changed + more == masks[i].changed;
    }
  }

  lemma NoMasksLeft(masks: seq<Mask>, incoming: seq<Mask>, done: seq<Mask>, next: nat)
    requires next <= |incoming|
    ensures done + MergeMasks(masks[|masks|..], incoming[next..]) == done
  {
    assert masks[|masks|..] == [];
  }

  /** The last turn of the trace, and only that one, reports an error. */
  predicate RejectedBy(m: Method, trace: seq<Turn>)
    requires Legal(m)
  {
    trace != [] && Replay(m, trace[..|trace| - 1]).Running? && Replay(m, trace).Rejected?
  }

  /** What holds whenever the loop looks for the next instruction. */
  ghost predicate Consistent(m: Method, redo: bool, t: Table, trace: seq<Turn>) {
    Legal(m) && Invariant(m, redo, t) && Replay(m, trace) == Running(redo, t)
  }

  lemma {:induction false} FirstMismatchAt(before: seq<Type>, incoming: seq<Type>, i: nat)
    requires |before| <= |incoming| && i <= FirstMismatch(before, incoming)
    ensures i < |before| ==> (IsAssignableTo(incoming[i], before[i]) <==> i < FirstMismatch(before, incoming))
  {
  }

  /** Where something was not assignable the merged stack is a different one. */
  lemma MismatchChanges(before: seq<Type>, incoming: seq<Type>)
    requires |before| == |incoming| && !Assignable(incoming, before)
    ensures JoinAll(before, incoming) != before
  {
    var k :| 0 <= k < |before| && !IsAssignableTo(incoming[k], before[k]);
    Lattice.JoinClimbs(before[k], incoming[k]);
    assert JoinAll(before, incoming)[k] != before[k];
  }

  lemma RegisterMismatchChanges(before: seq<Type>, incoming: seq<Type>, i: nat, merged: seq<Type>)
    requires |before| <= |incoming| && i < |before| && !IsAssignableTo(incoming[i], before[i])
    requires merged == TrimBogus(before[..i] + JoinAll(before[i..], incoming[i..|before|]))
    ensures merged != before
  {
    Lattice.JoinClimbs(before[i], incoming[i]);
    var all := before[..i] + JoinAll(before[i..], incoming[i..|before|]);
    assert all[i] == Join(before[i..][0], incoming[i..|before|][0]);
  }
}
