/** The analysis of a given method, turn by turn. */
module AnalysisTraces {
  import opened Types
  import opened Bytecode
  import opened Merging
  import opened Dataflow

  lemma FirstTurn(m: Method)
    requires Legal(m)
    ensures Consistent(m, false, InitialTable(m), [])
  {
    InitialInvariant(m);
  }

  /** The turn at i makes u of t. */
  ghost predicate Makes(m: Method, t: Table, i: nat, u: Table) {
    Legal(m) && TableOk(m, t) && Known(t, i) && t[i].changed && Visit(m, false, t, i) == Some(u)
  }

  lemma ReplayNext(m: Method, t: Table, trace: seq<Turn>, i: nat, u: Table)
    requires Legal(m) && Replay(m, trace) == Running(false, t) && Makes(m, t, i, u)
    ensures Replay(m, trace + [At(i)]) == Running(false, u)
  {
    VisitOk(m, false, t, i);
    hide TableOk, Visit, Known, Legal;
    assert (trace + [At(i)])[..|trace|] == trace;
  }

  lemma NextTurn(m: Method, t: Table, trace: seq<Turn>, i: nat, u: Table)
    requires Consistent(m, false, t, trace) && Makes(m, t, i, u)
    ensures Consistent(m, false, u, trace + [At(i)]) && TableOk(m, u)
  {
    VisitKeeps(m, false, t, i);
    VisitOk(m, false, t, i);
    hide Invariant, TableOk, Visit, Known, LessWork, Legal, Replay;
    ReplayNext(m, t, trace, i, u);
  }

  lemma LastTurn(m: Method, t: Table, trace: seq<Turn>)
    requires Consistent(m, false, t, trace) && |t| == |m.code| && forall i | 0 <= i < |t| :: !t[i].changed
    requires forall i | 0 <= i < |t| && m.code[i].Jsr? && t[i].flags.reached :: t[i].ret.Some?
    ensures PostFixpoint(m, t) && Marked(m, t) && Replay(m, trace) == Running(false, t)
  {
    NoSecondRun(m, t);
    InvariantMarks(m, t);
    hide Invariant, PostFixpoint, Replay;
  }

  lemma InvariantMarks(m: Method, t: Table)
    requires Invariant(m, false, t)
    ensures Marked(m, t)
  {
  }

  // ----- one turn in a method with one handler that covers the instruction -----

  /** The state before the instruction goes to the handler, and the one after it to the successors. */
  lemma CoveredFlows(m: Method, i: nat, f: Frame, fl: Flags, out: Frame, h: Handler)
    requires i < |m.code| && m.handlers == [h] && Covers(h, i) && !m.code[i].InvokeInit? && !m.code[i].Jsr?
        && !m.code[i].Ret?
    requires FlagsAllow(m.code[i], fl) && Execute(m, i, f, true) == Some(out)
    requires forall t | t in Successors(m.code[i], i) :: t < |m.code|
    ensures Flows(m, i, f, fl, true).Some?
    ensures Flows(m, i, f, fl, true).value ==
            [Flow(h.handler, Frame([h.catchType], f.regs, f.masks), fl)] + FlowsTo(Successors(m.code[i], i), out, fl)
  {
    hide Execute, Successors;
    assert m.handlers[1..] == [];
    assert HandlerFlows(m, i, f, out, fl, fl, []) == [];
  }

  lemma VisitMergesAll(m: Method, t: Table, i: nat, flows: seq<Flow>)
    requires Legal(m) && TableOk(m, t) && Known(t, i) && !m.code[i].Ret?
    requires (forall g | g in flows :: g.to < |t|) && Flows(m, i, t[i].frame.value, t[i].flags, true) == Some(flows)
    ensures Visit(m, false, t, i) == MergeAll(Unmark(m, t, i), flows)
  {
    hide Flows, Execute, TableOk, Unmark, Legal, MergeAll;
  }

  // ----- one turn in a method without handlers -----

  predicate Executed(m: Method, i: nat, f: Frame, fl: Flags, out: Frame) {
    i < |m.code| && m.handlers == [] && !m.code[i].InvokeInit? && FlagsAllow(m.code[i], fl) && Execute(m, i, f, true)
      == Some(out)
  }

  /** What an instruction without handlers sends. */
  function FlowsTo(succ: seq<nat>, f: Frame, fl: Flags): (r: seq<Flow>)
    ensures forall g | g in r :: g.to in succ
  {
    seq(|succ|, k requires 0 <= k < |succ| => Flow(succ[k], f, fl))
  }

  lemma FlowsAre(m: Method, i: nat, f: Frame, fl: Flags, out: Frame)
    requires Executed(m, i, f, fl, out) && forall t | t in Successors(m.code[i], i) :: t < |m.code|
    ensures var succ := Successors(m.code[i], i);
            && Flows(m, i, f, fl, true).Some?
            && Flows(m, i, f, fl, true).value == FlowsTo(succ, Forget(m.code[i], out), fl)
  {
    hide Execute, Successors;
  }

  /** A visit is what is sent, merged one after the other. */
  lemma VisitMerges(m: Method, t: Table, i: nat, out: Frame)
    requires Legal(m) && TableOk(m, t) && Known(t, i) && Executed(m, i, t[i].frame.value, t[i].flags, out)
    requires !m.code[i].Ret? && forall k | k in Successors(m.code[i], i) :: k < |m.code|
    ensures Visit(m, false, t, i) == MergeAll(Unmark(m, t, i),
        FlowsTo(Successors(m.code[i], i), Forget(m.code[i], out), t[i].flags))
  {
    FlowsAre(m, i, t[i].frame.value, t[i].flags, out);
    hide Flows, Execute, TableOk, Unmark, Successors, Legal, MergeAll;
  }

  lemma Unmarked(m: Method, t: Table, i: nat)
    requires |t| == |m.code| && i < |t| && (m.code[i].Jsr? ==> t[i].ret.None?)
    ensures Unmark(m, t, i) == t[i := t[i].(changed := false)]
  {
  }

  lemma MergesNothing(t: Table)
    ensures MergeAll(t, []) == Some(t)
  {
  }

  lemma MergesOne(t: Table, flow: Flow, r: Record)
    requires flow.to < |t| && MergeRecord(t[flow.to], flow) == Some(r)
    ensures MergeAll(t, [flow]) == Some(t[flow.to := r])
  {
    hide MergeRecord;
    assert [flow][1..] == [];
  }

  lemma MergesTwo(t: Table, a: Flow, b: Flow, r: Record, s: Record)
    requires a.to < |t| && b.to < |t| && a.to != b.to && MergeRecord(t[a.to], a) == Some(r) && MergeRecord(t[b.to], b)
        == Some(s)
    ensures MergeAll(t, [a, b]) == Some(t[a.to := r][b.to := s])
  {
    hide MergeRecord;
    MergesOne(t[a.to := r], b, s);
    assert [a, b][1..] == [b];
  }

  lemma NothingSent(m: Method, t: Table, i: nat, out: Frame)
    requires Legal(m) && TableOk(m, t) && Known(t, i) && Executed(m, i, t[i].frame.value, t[i].flags, out)
    requires Successors(m.code[i], i) == [] && !m.code[i].Ret?
    ensures Visit(m, false, t, i) == Some(Unmark(m, t, i))
  {
    hide Flows, Execute, Executed, Unmark, Successors, Legal, Visit, Forget;
    VisitMerges(m, t, i, out);
    assert FlowsTo([], Forget(m.code[i], out), t[i].flags) == [];
    MergesNothing(Unmark(m, t, i));
  }

  lemma SentOne(m: Method, t: Table, i: nat, out: Frame, j: nat, r: Record)
    requires Legal(m) && TableOk(m, t) && Known(t, i) && Executed(m, i, t[i].frame.value, t[i].flags, out)
    requires Successors(m.code[i], i) == [j] && !m.code[i].Ret? && j < |m.code|
    requires MergeRecord(Unmark(m, t, i)[j], Flow(j, Forget(m.code[i], out), t[i].flags)) == Some(r)
    ensures Visit(m, false, t, i) == Some(Unmark(m, t, i)[j := r])
  {
    hide Flows, Execute, Executed, Unmark, Successors, Legal, Visit, Forget, MergeRecord;
    VisitMerges(m, t, i, out);
    var flow := Flow(j, Forget(m.code[i], out), t[i].flags);
    MergesOne(Unmark(m, t, i), flow, r);
    assert FlowsTo([j], Forget(m.code[i], out), t[i].flags) == [flow];
  }

  lemma SentTwo(m: Method, t: Table, i: nat, out: Frame, j: nat, k: nat, r: Record, s: Record)
    requires Legal(m) && TableOk(m, t) && Known(t, i) && Executed(m, i, t[i].frame.value, t[i].flags, out)
    requires Successors(m.code[i], i) == [j, k] && !m.code[i].Ret? && j < |m.code| && k < |m.code| && j != k
    requires MergeRecord(Unmark(m, t, i)[j], Flow(j, Forget(m.code[i], out), t[i].flags)) == Some(r)
    requires MergeRecord(Unmark(m, t, i)[k], Flow(k, Forget(m.code[i], out), t[i].flags)) == Some(s)
    ensures Visit(m, false, t, i) == Some(Unmark(m, t, i)[j := r][k := s])
  {
    hide Flows, Execute, Executed, Unmark, Successors, Legal, Visit, Forget, MergeRecord;
    VisitMerges(m, t, i, out);
    var one, two := Flow(j, Forget(m.code[i], out), t[i].flags), Flow(k, Forget(m.code[i], out), t[i].flags);
    MergesTwo(Unmark(m, t, i), one, two, r, s);
    assert FlowsTo([j, k], Forget(m.code[i], out), t[i].flags) == [one, two];
  }

  /** With nothing to merge only the returns are left. */
  lemma SendsBack(m: Method, t: Table, x: Returning)
    requires |t| == |m.code|
    ensures SendAll(m, t, [], Some(x)) == ReturnAll(t, x, CallsOf(m, x.entry, |m.code|))
  {
    MergesNothing(t);
    hide MergeAll, ReturnAll, CallsOf;
  }

  lemma ReturnsWith(m: Method, t: Table, i: nat, out: Frame)
    requires |t| == |m.code| && Known(t, i) && m.code[i].Ret? && Executed(m, i, t[i].frame.value, t[i].flags, out)
    requires m.code[i].local < |t[i].frame.value.regs| && t[i].frame.value.regs[m.code[i].local].ReturnAddress?
    ensures ReturnOf(m, t, i) == Some(Returning(i, t[i].frame.value.regs[m.code[i].local].entry, Forget(m.code[i], out),
        t[i].flags))
  {
    hide Execute, Forget, FlagsAllow;
  }

  lemma NothingFlows(m: Method, t: Table, i: nat, out: Frame)
    requires |t| == |m.code| && Known(t, i) && m.code[i].Ret? && Executed(m, i, t[i].frame.value, t[i].flags, out)
    ensures Sent(m, false, t, i) == Some([])
  {
    FlowsAre(m, i, t[i].frame.value, t[i].flags, out);
    hide Flows, Execute, Forget, FlagsAllow;
    var flows := Sent(m, false, t, i);
    assert flows.value == [];
  }

  lemma Returned(m: Method, t: Table, i: nat, out: Frame, u: Table)
    requires Legal(m) && TableOk(m, t) && Known(t, i) && m.code[i].Ret?
        && Executed(m, i, t[i].frame.value, t[i].flags, out)
    requires m.code[i].local < |t[i].frame.value.regs| && t[i].frame.value.regs[m.code[i].local].ReturnAddress?
    requires var entry := t[i].frame.value.regs[m.code[i].local].entry;
             ReturnAll(Unmark(m, t, i), Returning(i, entry, Forget(m.code[i], out), t[i].flags),
               CallsOf(m, entry, |m.code|)) == Some(u)
    ensures Visit(m, false, t, i) == Some(u)
  {
    NothingFlows(m, t, i, out);
    ReturnsWith(m, t, i, out);
    hide *;
    SendsBack(m, Unmark(m, t, i), ReturnOf(m, t, i).value);
    VisitIs(m, t, i);
  }

  lemma VisitIs(m: Method, t: Table, i: nat)
    requires Legal(m) && TableOk(m, t) && Known(t, i) && Sent(m, false, t, i) == Some([])
    ensures Visit(m, false, t, i) == SendAll(m, Unmark(m, t, i), [], ReturnOf(m, t, i))
  {
    hide Sent, Unmark, SendAll, ReturnOf, Legal, TableOk;
  }

  // ----- some instructions -----

  lemma TouchesNothing(masks: seq<Mask>)
    ensures Touch(masks, {}) == masks
  {
    forall k | 0 <= k < |masks| ensures Touch(masks, {})[k] == masks[k] {
      assert masks[k].changed + {} == masks[k].changed;
    }
  }

  lemma OneWord(t: Type)
    ensures StackWords([]) == 0 && (!IsWide(t) ==> StackWords([t]) == 1)
  {
    assert [t][1..] == [];
  }

  /** An int is pushed on the empty stack. */
  lemma PushesInt(m: Method, i: nat, f: Frame)
    requires i < |m.code| && (m.code[i] == Constant(Integer) || m.code[i] == GetStatic(Integer)) && f.stack == []
        && m.maxStack >= 1
    ensures Execute(m, i, f, true) == Some(Frame([Integer], f.regs, f.masks))
  {
    TouchesNothing(f.masks);
    OneWord(Integer);
    assert f.stack[0..] == [];
    assert UpdateStack(m, i, m.code[i], f).value == [Integer];
  }

  /** An int is popped and tested. */
  lemma PopsInt(m: Method, i: nat, f: Frame)
    requires i < |m.code| && m.code[i].Branch? && m.code[i].cond == OneInt && f.stack == [Integer]
    ensures Execute(m, i, f, true) == Some(Frame([], f.regs, f.masks))
  {
    TouchesNothing(f.masks);
    OneWord(Integer);
    assert UpdateStack(m, i, m.code[i], f).value == [];
  }

  /** Nothing is popped or pushed. */
  lemma LeavesAll(m: Method, i: nat, f: Frame)
    requires i < |m.code| && f.stack == []
    requires (m.code[i].ReturnVoid? && m.returnType.Void?) || (m.code[i].Invoke? && m.code[i].how.InvokeStatic?
        && m.code[i].params == [] && m.code[i].result.None?)
    ensures Execute(m, i, f, true) == Some(f)
  {
    TouchesNothing(f.masks);
    OneWord(Integer);
    assert Operands(m, m.code[i]) == [];
    assert UpdateStack(m, i, m.code[i], f).value == [];
  }

  lemma CallsSubroutine(m: Method, i: nat, f: Frame)
    requires i < |m.code| && m.code[i].Jsr? && f.stack == [] && m.maxStack >= 1 && !HasEntry(f.masks, m.code[i].target)
    ensures Execute(m, i, f, true) == Some(Frame([ReturnAddress(m.code[i].target)], f.regs,
        f.masks + [Mask(m.code[i].target, {})]))
  {
    OneWord(ReturnAddress(m.code[i].target));
    assert UpdateStack(m, i, m.code[i], f).value == [ReturnAddress(m.code[i].target)];
  }

  lemma StoresAddress(m: Method, i: nat, f: Frame, entry: nat)
    requires i < |m.code| && m.code[i].Store? && m.code[i].kind.KRef? && f.stack == [ReturnAddress(entry)]
    ensures Execute(m, i, f, true) ==
            Some(Frame([], SetRegister(f.regs, m.code[i].local, ReturnAddress(entry)),
              Touch(f.masks, {m.code[i].local})))
  {
    OneWord(Integer);
    assert UpdateStack(m, i, m.code[i], f).value == [];
  }

  lemma ReadsAddress(m: Method, i: nat, f: Frame)
    requires i < |m.code| && m.code[i].Ret? && f.stack == [] && m.code[i].local < |f.regs|
        && f.regs[m.code[i].local].ReturnAddress?
    ensures Execute(m, i, f, true) == Some(Frame([], f.regs, Touch(f.masks, {m.code[i].local})))
  {
    OneWord(Integer);
    assert UpdateStack(m, i, m.code[i], f).value == [];
  }

  /** Without uninitialised objects nothing is forgotten. */
  lemma NothingForgotten(ins: Instr, f: Frame)
    requires forall t | t in f.stack || t in f.regs :: !t.NewObject?
    ensures Forget(ins, f) == f
  {
    assert forall k | 0 <= k < |f.stack| :: f.stack[k] in f.stack;
    assert forall k | 0 <= k < |f.regs| :: f.regs[k] in f.regs;
    assert Forgotten(f.stack) == f.stack && Forgotten(f.regs) == f.regs;
  }

  /** The first state to arrive is recorded as it is. */
  lemma Arrives(r: Record, flow: Flow)
    requires r.frame.None?
    ensures MergeRecord(r, flow) == Some(Record(true, Some(flow.frame), MergeFlagSets(r.flags, flow.flags), r.ret))
  {
  }

  /** What is recorded already changes nothing. */
  lemma ArrivesAgain(r: Record, flow: Flow)
    requires r.frame == Some(flow.frame) && r.flags == flow.flags && flow.frame.regs == [] && flow.frame.masks == []
    ensures MergeRecord(r, flow) == Some(r)
  {
    forall t: Type ensures IsAssignableTo(t, t) {}
    hide IsAssignableTo, StackWords;
  }

  /** A record that knows nothing stays as it is. */
  lemma ArrivesBelow(r: Record, flow: Flow)
    requires r.frame == Some(Frame([], [], [])) && flow.frame.stack == [] && flow.flags == r.flags
    ensures MergeRecord(r, flow) == Some(r)
  {
  }

  /** The masks that are left are the common ones; the rest of the record is as it was. */
  lemma ArrivesWithFewer(r: Record, flow: Flow, stack: seq<Type>, regs: seq<Type>, masks: seq<Mask>, left: seq<Mask>)
    requires r.frame == Some(Frame(stack, regs, masks)) && flow.frame.stack == stack && flow.frame.regs == regs
        && flow.flags == r.flags
    requires MergeMasks(masks, flow.frame.masks) == left != masks
    ensures MergeRecord(r, flow) == Some(r.(changed := true, frame := Some(Frame(stack, regs, left))))
  {
    forall t: Type ensures IsAssignableTo(t, t) {}
    hide MergeMasks, IsAssignableTo, StackWords;
  }

  // ----- tables in stages -----

  function Reached(): Flags {
    Flags(false, true, false, false)
  }

  function Recorded(stack: seq<Type>, regs: seq<Type>, masks: seq<Mask>, ret: Option<nat>): Record {
    Record(false, Some(Frame(stack, regs, masks)), Reached(), ret)
  }

  function Unseen(): Record {
    Record(false, None, Flags(true, false, false, false), None)
  }

  /** Every record goes through numbered versions: the versions reached, and the instructions marked. */
  function Stage(version: (nat, nat) -> Record, vs: seq<nat>, marked: set<nat>): (t: Table)
    ensures |t| == |vs|
  {
    seq(|vs|, i requires 0 <= i < |vs| => version(i, vs[i]).(changed := i in marked))
  }

  lemma StageAt(version: (nat, nat) -> Record, vs: seq<nat>, marked: set<nat>, i: nat)
    requires i < |vs|
    ensures Stage(version, vs, marked)[i] == version(i, vs[i]).(changed := i in marked)
  {
  }

  lemma StagePut(version: (nat, nat) -> Record, vs: seq<nat>, marked: set<nat>, i: nat, v: nat)
    requires i < |vs|
    ensures Stage(version, vs, marked)[i := version(i, v).(changed := true)] == Stage(version, vs[i := v], marked + {i})
  {
  }

  /** The ret that a visited jsr wakes. */
  function Woken(m: Method, i: nat, r: Record): set<nat>
    requires i < |m.code|
  {
    if m.code[i].Jsr? && r.ret.Some? then {r.ret.value} else {}
  }

  predicate AtStage(m: Method, version: (nat, nat) -> Record, vs: seq<nat>, marked: set<nat>, i: nat) {
    && Legal(m) && TableOk(m, Stage(version, vs, marked)) && |vs| == |m.code| && i < |vs| && i in marked
    && version(i, vs[i]).frame.Some? && i !in Woken(m, i, version(i, vs[i]))
  }

  lemma StageUnmarked(m: Method, version: (nat, nat) -> Record, vs: seq<nat>, marked: set<nat>, i: nat)
    requires AtStage(m, version, vs, marked, i)
    ensures Unmark(m, Stage(version, vs, marked), i)
        == Stage(version, vs, marked - {i} + Woken(m, i, version(i, vs[i])))
  {
    var t := Stage(version, vs, marked);
    assert RecordOk(m, t, i);
    hide Legal, TableOk;
  }

  lemma StageKeeps(m: Method, version: (nat, nat) -> Record, vs: seq<nat>, marked: set<nat>, i: nat, out: Frame)
    requires AtStage(m, version, vs, marked, i) && Successors(m.code[i], i) == [] && !m.code[i].Ret?
    requires Executed(m, i, version(i, vs[i]).frame.value, version(i, vs[i]).flags, out)
    ensures Makes(m, Stage(version, vs, marked), i, Stage(version, vs, marked - {i} + Woken(m, i, version(i, vs[i]))))
  {
    StageUnmarked(m, version, vs, marked, i);
    hide Executed, Legal, TableOk, Visit, Unmark, Woken, Successors;
    NothingSent(m, Stage(version, vs, marked), i, out);
  }

  lemma StageSends(m: Method, version: (nat, nat) -> Record, vs: seq<nat>, marked: set<nat>, i: nat, out: Frame, j: nat,
    v: nat)
    requires AtStage(m, version, vs, marked, i) && Successors(m.code[i], i) == [j] && j < |vs| && !m.code[i].Ret?
    requires Executed(m, i, version(i, vs[i]).frame.value, version(i, vs[i]).flags, out)
    requires var left := marked - {i} + Woken(m, i, version(i, vs[i]));
             MergeRecord(version(j, vs[j]).(changed := j in left),
               Flow(j, Forget(m.code[i], out), version(i, vs[i]).flags))
             == Some(version(j, v).(changed := true))
    ensures var left := marked - {i} + Woken(m, i, version(i, vs[i]));
            Makes(m, Stage(version, vs, marked), i, Stage(version, vs[j := v], left + {j}))
  {
    var left := marked - {i} + Woken(m, i, version(i, vs[i]));
    StageUnmarked(m, version, vs, marked, i);
    StagePut(version, vs, left, j, v);
    hide Executed, Legal, TableOk, Visit, Unmark, Woken, Successors, MergeRecord, Forget;
    SentOne(m, Stage(version, vs, marked), i, out, j, version(j, v).(changed := true));
  }

  lemma StageSendsTwo(m: Method, version: (nat, nat) -> Record, vs: seq<nat>, marked: set<nat>, i: nat, out: Frame,
    j: nat, v: nat, k: nat, w: nat)
    requires AtStage(m, version, vs, marked, i) && Successors(m.code[i], i) == [j, k] && j < |vs| && k < |vs| && j != k
        && m.code[i].Branch?
    requires Executed(m, i, version(i, vs[i]).frame.value, version(i, vs[i]).flags, out)
    requires MergeRecord(version(j, vs[j]).(changed := j in marked - {i}),
        Flow(j, Forget(m.code[i], out), version(i, vs[i]).flags))
             == Some(version(j, v).(changed := true))
    requires MergeRecord(version(k, vs[k]).(changed := k in marked - {i}),
        Flow(k, Forget(m.code[i], out), version(i, vs[i]).flags))
             == Some(version(k, w).(changed := true))
    ensures Makes(m, Stage(version, vs, marked), i, Stage(version, vs[j := v][k := w], marked - {i} + {j} + {k}))
  {
    StageUnmarked(m, version, vs, marked, i);
    var left := marked - {i} + {};
    assert left == marked - {i};
    StagePut(version, vs, left, j, v);
    StagePut(version, vs[j := v], left + {j}, k, w);
    hide Executed, Legal, TableOk, Visit, Unmark, Successors, MergeRecord, Forget;
    SentTwo(m, Stage(version, vs, marked), i, out, j, k, version(j, v).(changed := true),
      version(k, w).(changed := true));
  }

  lemma StageReturns(version: (nat, nat) -> Record, vs: seq<nat>, marked: set<nat>, x: Returning, j: nat, v: nat,
    back: Frame, w: nat)
    requires j + 1 < |vs| && version(j, vs[j]).frame.Some?
    requires version(j, vs[j]).ret in {None, Some(x.ret)} && version(j, v) == version(j, vs[j]).(ret := Some(x.ret))
    requires ReturnFrame(x.out, version(j, vs[j]).frame.value.regs, x.entry) == Some(back)
    requires MergeRecord(version(j + 1, vs[j + 1]).(changed := j + 1 in marked), Flow(j + 1, back, x.flags))
             == Some(version(j + 1, w).(changed := true))
    ensures ReturnTo(Stage(version, vs, marked), x, j) == Some(Stage(version, vs[j := v][j + 1 := w], marked + {j + 1}))
  {
    var t := Stage(version, vs, marked);
    hide MergeRecord, ReturnFrame;
    assert t[j := t[j].(ret := Some(x.ret))] == Stage(version, vs[j := v], marked);
    StagePut(version, vs[j := v], marked, j + 1, w);
  }

  lemma ReturnsOnce(t: Table, x: Returning, j: nat)
    requires j < |t|
    ensures ReturnAll(t, x, [j]) == ReturnTo(t, x, j)
  {
    hide ReturnTo;
    assert [j][1..] == [];
  }

  lemma ReturnsTwice(t: Table, x: Returning, j: nat, k: nat, u: Table)
    requires j < |t| && k < |t| && ReturnTo(t, x, j) == Some(u)
    ensures ReturnAll(t, x, [j, k]) == ReturnTo(u, x, k)
  {
    hide ReturnTo;
    ReturnsOnce(u, x, k);
    assert [j, k][1..] == [k];
  }

  // ----- what instructions leave, element by element -----

  lemma Stored(regs: seq<Type>, n: nat, to: seq<Type>, t: Type)
    requires |to| == if n < |regs| then |regs| else n + 1
    requires forall k | 0 <= k < |to| :: to[k] == if k == n then t else if k < |regs| then regs[k] else Bogus
    ensures SetRegister(regs, n, t) == to
  {
  }

  lemma Touches(masks: seq<Mask>, r: nat, to: seq<Mask>)
    requires |to| == |masks|
    requires forall k | 0 <= k < |to| ::
               to[k].entry == masks[k].entry && r in to[k].changed
                 && masks[k].changed <= to[k].changed <= masks[k].changed + {r}
    ensures Touch(masks, {r}) == to
  {
    forall k | 0 <= k < |to| ensures Touch(masks, {r})[k] == to[k] {
      assert masks[k].changed + {r} == to[k].changed;
    }
  }

  /** A return from the innermost subroutine. */
  lemma ReturnJoins(out: Frame, jsr: seq<Type>, entry: nat, back: Frame)
    requires out.masks != [] && out.masks[|out.masks| - 1].entry == entry && back.stack == out.stack
    requires back.masks == out.masks[..|out.masks| - 1]
    requires JoinedRegisters(out.masks[|out.masks| - 1].changed, out.regs, jsr) == back.regs
    ensures ReturnFrame(out, jsr, entry) == Some(back)
  {
    hide JoinedRegisters;
  }

  lemma DropsOuter(a: Mask, b: Mask)
    requires a.entry != b.entry
    ensures MergeMasks([a, b], [b]) == [b]
  {
    assert MaskOf([b], a.entry) == 1;
    assert [a, b][1..] == [b] && [b][1..] == [] && b.changed + b.changed == b.changed;
  }

  lemma {:induction false} DropsAll(masks: seq<Mask>)
    ensures MergeMasks(masks, []) == []
  {
    if masks != [] {
      assert MaskOf([], masks[0].entry) == 0;
      DropsAll(masks[1..]);
    }
  }

  // ----- the calls of a subroutine -----

  lemma NoCalls(m: Method, entry: nat)
    ensures CallsOf(m, entry, 0) == []
  {
  }

  lemma CallAt(m: Method, entry: nat, j: nat)
    requires j < |m.code| && m.code[j] == Jsr(entry)
    ensures CallsOf(m, entry, j + 1) == [j] + CallsOf(m, entry, j)
  {
  }

  lemma {:induction false} NoCallBetween(m: Method, entry: nat, from: nat, to: nat)
    requires from <= to <= |m.code| && forall j | from <= j < to :: m.code[j] != Jsr(entry)
    ensures CallsOf(m, entry, to) == CallsOf(m, entry, from)
  {
    if from < to {
      NoCallBetween(m, entry, from, to - 1);
    }
  }
}
