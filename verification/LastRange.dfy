/** A method with a range of its exception table that ends with the code: what the rewriting makes of it is left to chance. */
module LastRange {
  import opened JsrMachine
  import opened Inliner
  import opened InlinedCode
  import opened InlinedHandlers
  import opened InlinerSoundness
  import opened InlinerLimits
  import B = Bytecode
  import D = Dataflow
  import Merging
  import T = AnalysisTraces
  import RecordedNotes
  import Types
  import V = VerifyMethod

  const THROWABLE: Types.Type := Types.Obj(0, Types.Cls(Types.Subclass("java/lang/Throwable", Types.JavaLangObject)))

  /** 0 invokestatic; 1 return; 2 return; 3 return.  A handler at 3 covers all of the code; nothing leads to 2. */
  function Guarded(): (m: B.Method)
    ensures |m.code| == 4
  {
    B.Method([B.Invoke(B.InvokeStatic, Types.OBJECT, [], Types.None), B.ReturnVoid, B.ReturnVoid, B.ReturnVoid],
             [B.Handler(0, 4, 3, THROWABLE)], B.NoReceiver, [], Types.Void, Types.OBJECT, Types.None, THROWABLE, 1, 0)
  }

  lemma Parts()
    ensures var m := Guarded();
            && |m.code| == 4 && m.handlers == [B.Handler(0, 4, 3, THROWABLE)] && m.maxStack == 1 && m.maxLocals == 0 && m.returnType.Void?
            && m.code[0] == B.Invoke(B.InvokeStatic, Types.OBJECT, [], Types.None)
            && m.code[1] == B.ReturnVoid && m.code[2] == B.ReturnVoid && m.code[3] == B.ReturnVoid
  {
  }

  lemma IsJsrFree()
    ensures B.JsrFree(Guarded())
  {
  }

  // ----- its analysis -----

  function Known(stack: seq<Types.Type>, changed: bool): Merging.Record {
    Merging.Record(changed, Types.Some(B.Frame(stack, [], [])), T.Reached(), Types.None)
  }

  /** The table before the n-th turn; the turns are those at 0, 1 and 3. */
  function Before(n: nat): (t: D.Table)
    ensures |t| == 4
  {
    match n
    case 0 => [Known([], true), T.Unseen(), T.Unseen(), T.Unseen()]
    case 1 => [Known([], false), Known([], true), T.Unseen(), Known([THROWABLE], true)]
    case 2 => [Known([], false), Known([], false), T.Unseen(), Known([THROWABLE], true)]
    case _ => [Known([], false), Known([], false), T.Unseen(), Known([THROWABLE], false)]
  }

  lemma Starts()
    ensures Before(0) == D.InitialTable(Guarded())
  {
    assert B.RegistersOf([]) == [] && B.EntryRegisters(Guarded()) == [];
  }

  lemma FirstFlows()
    ensures var f := B.Frame([], [], []);
            B.Flows(Guarded(), 0, f, T.Reached(), true) ==
            Types.Some([B.Flow(3, B.Frame([THROWABLE], [], []), T.Reached()), B.Flow(1, f, T.Reached())])
  {
    var m, f := Guarded(), B.Frame([], [], []);
    Parts();
    hide Guarded, B.Execute;
    T.LeavesAll(m, 0, f);
    T.CoveredFlows(m, 0, f, T.Reached(), f, m.handlers[0]);
    var caught, next := B.Flow(3, B.Frame([THROWABLE], [], []), T.Reached()), B.Flow(1, f, T.Reached());
    assert [caught] + T.FlowsTo([1], f, T.Reached()) == [caught, next];
    hide B.Flows;
    var flows := B.Flows(m, 0, f, T.Reached(), true);
    assert flows.value == [caught, next];
  }

  lemma FirstTurn()
    requires D.TableOk(Guarded(), Before(0))
    ensures T.Makes(Guarded(), Before(0), 0, Before(1))
  {
    var m, t, f := Guarded(), Before(0), B.Frame([], [], []);
    FirstFlows();
    IsJsrFree();
    assert m.code[0].Invoke?;
    hide Guarded, B.Legal, D.TableOk, D.Visit, Merging.MergeRecord, D.Unmark, B.Flows, D.MergeAll;
    var caught, next := B.Flow(3, B.Frame([THROWABLE], [], []), T.Reached()), B.Flow(1, f, T.Reached());
    T.VisitMergesAll(m, t, 0, [caught, next]);
    T.Unmarked(m, t, 0);
    T.Arrives(t[3], caught);
    T.Arrives(t[1], next);
    T.MergesTwo(D.Unmark(m, t, 0), caught, next, Known([THROWABLE], true), Known([], true));
    assert t[0 := Known([], false)][3 := Known([THROWABLE], true)][1 := Known([], true)] == Before(1);
  }

  lemma ReturnTurn(t: D.Table, i: nat, u: D.Table, stack: seq<Types.Type>)
    requires |t| == 4 && i in {1, 3} && D.TableOk(Guarded(), t) && t[i] == Known(stack, true) && B.StackWords(stack) <= 1
    requires u == t[i := Known(stack, false)] && u[3].frame == Types.Some(B.Frame([THROWABLE], [], [])) && u[3].flags == T.Reached()
    ensures T.Makes(Guarded(), t, i, u)
  {
    var m, f := Guarded(), B.Frame(stack, [], []);
    Parts();
    IsJsrFree();
    hide Guarded, B.Legal, D.TableOk, D.Visit, B.Execute, Merging.MergeRecord, D.Unmark, B.Flows, D.MergeAll;
    ReturnsAnyway(m, i, stack);
    T.CoveredFlows(m, i, f, T.Reached(), f, m.handlers[0]);
    var caught := B.Flow(3, B.Frame([THROWABLE], [], []), T.Reached());
    assert [caught] + T.FlowsTo([], f, T.Reached()) == [caught];
    T.VisitMergesAll(m, t, i, [caught]);
    T.Unmarked(m, t, i);
    T.ArrivesAgain(u[3], caught);
    T.MergesOne(u, caught, u[3]);
    assert u[3 := u[3]] == u;
  }

  /** A return does not care what is left on the stack. */
  lemma ReturnsAnyway(m: B.Method, i: nat, stack: seq<Types.Type>)
    requires i < |m.code| && m.code[i].ReturnVoid? && m.returnType.Void? && B.StackWords(stack) <= m.maxStack
    ensures B.Execute(m, i, B.Frame(stack, [], []), true) == Types.Some(B.Frame(stack, [], []))
  {
    assert B.Operands(m, m.code[i]) == [] && stack[0..] == stack;
  }

  function Turns(): seq<D.Turn> {
    [D.At(0), D.At(1), D.At(3)]
  }

  /** The analysis ends and accepts the method; nothing reaches 2. */
  lemma IsAnalysed()
    ensures B.JsrFree(Guarded()) && D.PostFixpoint(Guarded(), Before(3)) && D.Marked(Guarded(), Before(3))
    ensures D.Replay(Guarded(), Turns()) == D.Running(false, Before(3))
  {
    var m := Guarded();
    IsJsrFree();
    Parts();
    hide Guarded, B.Legal, D.TableOk, T.Makes, D.Consistent, D.PostFixpoint, D.Marked, D.Replay;
    assert B.StackWords([]) == 0 && B.StackWords([THROWABLE]) == 1;
    Starts();
    T.FirstTurn(m);
    D.InitialTableOk(m);
    FirstTurn();
    T.NextTurn(m, Before(0), [], 0, Before(1));
    ReturnTurn(Before(1), 1, Before(2), []);
    T.NextTurn(m, Before(1), [] + [D.At(0)], 1, Before(2));
    ReturnTurn(Before(2), 3, Before(3), [THROWABLE]);
    T.NextTurn(m, Before(2), [] + [D.At(0)] + [D.At(1)], 3, Before(3));
    assert [] + [D.At(0)] + [D.At(1)] + [D.At(3)] == Turns();
    T.LastTurn(m, Before(3), Turns());
  }

  // ----- the inliner's view of it -----

  function Ranged(): (code: Code)
    ensures code.Valid() && |code.instrs| == 4
  {
    var exit := Instr(Ordinary(0, 0, false, []), 1, false);
    Code([Instr(Ordinary(0, 0, true, []), 3, false), exit, exit, exit],
         [Reached([], [], [], map[], false), Reached([], [], [], map[], false), Unreached, Reached([], [], [Word], map[], false)],
         0, [JsrMachine.Frame(0, 4, 3, 0)])
  }

  function Lengths(): seq<nat> {
    [3, 1, 1, 1]
  }

  lemma NotesAreRecorded()
    ensures RecordedNotes.Fits(Guarded(), Before(3), Lengths()) && RecordedNotes.CodeOf(Guarded(), Before(3), Lengths()) == Ranged()
  {
    var m, t := Guarded(), Before(3);
    Parts();
    hide Guarded;
    var code, made := Ranged(), RecordedNotes.CodeOf(m, t, Lengths());
    forall i | 0 <= i < 4 ensures made.instrs[i] == code.instrs[i] && made.notes[i] == code.notes[i] {
      SimpleOps(m, i);
      NotesOf(i);
      hide RecordedNotes.OpOf, RecordedNotes.NoteOf;
    }
    assert made.instrs == code.instrs && made.notes == code.notes && made.table == code.table;
  }

  lemma NotesOf(i: nat)
    requires i < 4
    ensures RecordedNotes.NoteOf(Before(3)[i]) == Ranged().notes[i]
  {
    StackIs(0);
    RecordedNotes.OneItem(THROWABLE);
    RegistersAre(0);
    assert RecordedNotes.EntriesOf([]) == [] && RecordedNotes.ChangesOf([]) == [];
    hide RecordedNotes.StackKinds, RecordedNotes.RegisterKinds, RecordedNotes.EntriesOf, RecordedNotes.ChangesOf;
  }

  /** It meets every assumption of the inliner but one: its range ends with the code. */
  lemma RangedInlinable()
    ensures Inlinable(Ranged()) && !RangesEndInside(Ranged())
  {
    var m, t := Guarded(), Before(3);
    IsAnalysed();
    NotesAreRecorded();
    LengthsFit();
    assert Ranged().table[0].end == 4;
    hide Guarded, Before, Ranged, Lengths, Inlinable, D.PostFixpoint, D.Marked, D.Replay, B.JsrFree, V.Sized, RecordedNotes.CodeOf;
    Legals(m);
    V.VerifiedIs(m, Lengths(), t, false, Turns());
    V.PlainPass(m, Lengths(), t, false, Turns());
  }

  lemma Legals(m: B.Method)
    requires B.JsrFree(m)
    ensures B.Legal(m)
  {
  }

  lemma LengthsFit()
    ensures V.Sized(Guarded(), Lengths())
  {
  }

  // ----- the new code -----

  function Refs(): seq<CodeRef> {
    [CodeRef(0, [], Flag.Normal), CodeRef(1, [], Flag.Normal), CodeRef(3, [], Flag.Normal)]
  }

  lemma WholeCode()
    ensures Emit(Ranged(), []) == Refs()
  {
    var code := Ranged();
    assert Entries(code, []) == [];
    forall i: nat
      ensures Member(code, i, []) <==> i in {0, 1, 3}
      ensures !ReturningJsr(code, i)
    {
    }
    forall i | i in {0, 1, 3} ensures FlagOf(code, [], i) == Flag.Normal {}
    hide Member, ReturningJsr, FlagOf, EmitTo, Emit, Ranged;
    EmptyCode(code, []);
    OneMore(code, [], 0, Flag.Normal);
    OneMore(code, [], 1, Flag.Normal);
    NothingBetween(code, [], 2, 3);
    OneMore(code, [], 3, Flag.Normal);
  }

  lemma NothingToFind(next: map<seq<nat>, nat>)
    ensures Found(Ranged(), next)
  {
    WholeCode();
    hide Emit;
  }

  lemma FirstPlace(next: map<seq<nat>, nat>)
    ensures Found(Ranged(), next) && Encodable(Ranged())
    ensures var at := NewProgram(Ranged(), next).at;
            0 in at && at[0].body == 0 && at[0].op == Ordinary(0, 0, true, [])
  {
    var code, refs := Ranged(), Refs();
    WholeCode();
    NothingToFind(next);
    RangedInlinable();
    NoOffset(code, refs);
    assert TargetsFound(code, refs, next, 0) && code.instrs[refs[0].inumber].op == Ordinary(0, 0, true, []);
    hide Inlinable, Emit, Ranged, Offset, NewPlace, TargetsFound, PlacesTo, Encodable;
    PlaceAt(code, refs, next, 3, 0);
    PlaceWithoutTargets(code, refs, next, 0);
  }

  // ----- the new table -----

  lemma {:induction false} NoFrames(code: Code, refs: seq<CodeRef>, f: JsrMachine.Frame, h: nat, k: nat)
    requires code.Valid() && InCode(code, refs) && h < |refs| && k <= |refs| && f.end <= f.start
    ensures FramesFrom(code, refs, f, h, k, -1) == []
    decreases |refs| - k
  {
    if k < |refs| {
      NoFrames(code, refs, f, h, k + 1);
    }
  }

  lemma {:induction false} NoFramesOfCopies(code: Code, refs: seq<CodeRef>, f: JsrMachine.Frame, copies: seq<nat>)
    requires code.Valid() && InCode(code, refs) && InBounds(copies, |refs|) && f.end <= f.start
    ensures FramesOfCopies(code, refs, f, copies) == []
  {
    if copies != [] {
      NoFrames(code, refs, f, copies[0], 0);
      NoFramesOfCopies(code, refs, f, copies[1..]);
    }
  }

  /** Read as nothing, or as the first instruction, the end leaves nothing of the range. */
  lemma TableIsLost(next: map<seq<nat>, nat>, behind: int)
    requires behind <= 0
    ensures Found(Ranged(), next) && Encodable(Ranged()) && MadeReading(Ranged(), next, behind).table == []
  {
    var code, refs := Ranged(), Refs();
    WholeCode();
    NothingToFind(next);
    RangedInlinable();
    var read := EndsRead(code.table, 4, behind);
    assert read == [JsrMachine.Frame(0, 0, 3, 0)] && read[1..] == [];
    NoFramesOfCopies(code, refs, read[0], CopiesIn(refs, 3));
    assert NewTable(code, refs, []) == [];
    hide Inlinable, Emit, FramesOfCopies, CopiesIn;
  }

  // ----- the two runs -----

  /** Every instruction may do anything, and every handler catches everything. */
  function Anything(): Semantics {
    Semantics((_, _, _, _, _) => true, (_, _, _) => true)
  }

  /** The call throws, and the handler returns. */
  function ThrowAndReturn(): seq<Label> {
    [Act(Throws(1, 2)), Act(Event.Normal(3, [], [], 0))]
  }

  lemma OldRun()
    ensures Run(Anything(), Original(Ranged()), Running(0, [], [], 0), ThrowAndReturn()) == Halted([], 3)
  {
    var p := Original(Ranged());
    assert p.at[0] == Place(0, Ordinary(0, 0, true, []), 1) && p.at[3] == Place(3, Ordinary(0, 0, false, []), 4);
    assert p.table == [JsrMachine.Frame(0, 4, 3, 0)];
    var s := Running(3, [Data(2)], [], 1);
    assert Step(Anything(), p, Running(0, [], [], 0), Act(Throws(1, 2))) == s;
    assert Words([]) == [];
    PlainStepIs(Anything(), p, s, Event.Normal(3, [], [], 0));
    assert Step(Anything(), p, s, Act(Event.Normal(3, [], [], 0))) == Halted([], 3);
    hide Step, Original, Run;
    var last := [Act(Event.Normal(3, [], [], 0))];
    assert ThrowAndReturn() == [Act(Throws(1, 2))] + last && last == last + [];
    RunStep(Anything(), p, Running(0, [], [], 0), Act(Throws(1, 2)), last);
    RunStep(Anything(), p, s, last[0], []);
    RunsNothing(Anything(), p, Halted([], 3));
  }

  lemma RunsNothing(m: Semantics, p: Program, s: State)
    ensures Run(m, p, s, []) == s
  {
  }

  lemma TwoEvents()
    ensures Events(ThrowAndReturn()) == [Throws(1, 2)] + [Event.Normal(3, [], [], 0)]
  {
    assert ThrowAndReturn()[1..] == [Act(Event.Normal(3, [], [], 0))] && ThrowAndReturn()[1..][1..] == [];
  }

  /** Without an entry in the table the exception leaves the method, and nothing more can happen. */
  lemma Uncaught(q: Program, others: seq<Label>)
    requires 0 in q.at && q.at[0].op == Ordinary(0, 0, true, []) && q.table == [] && Events(others) == Events(ThrowAndReturn())
    ensures Run(Anything(), q, Running(0, [], [], 0), others) == Stuck
  {
    var s := Running(0, [], [], 0);
    TwoEvents();
    PlainStepIs(Anything(), q, s, Throws(1, 2));
    assert Step(Anything(), q, s, Act(Throws(1, 2))) == Thrown(2, 1);
    hide Step, Run, ThrowAndReturn;
    NextEvent(Anything(), q, s, others, Throws(1, 2), [Event.Normal(3, [], [], 0)]);
    if Run(Anything(), q, s, others) != Stuck {
      assert Events([]) == [];
      StuckStays(Anything(), q, Thrown(2, 1), others[1..]);
    }
  }

  /**
   The verifier accepts the method and all assumptions of the inliner hold, but the end of
   its range is read behind code_data.  If what is found there is no positive number the
   rewritten method has lost its handler: a run of the original that goes through the
   handler is no run of it.
   */
  lemma LastRangeIsLost(next: map<seq<nat>, nat>, behind: int)
    requires behind <= 0
    ensures B.JsrFree(Guarded()) && D.PostFixpoint(Guarded(), Before(3)) && D.Replay(Guarded(), Turns()) == D.Running(false, Before(3))
    ensures RecordedNotes.Fits(Guarded(), Before(3), Lengths()) && RecordedNotes.CodeOf(Guarded(), Before(3), Lengths()) == Ranged()
    ensures Inlinable(Ranged()) && !RangesEndInside(Ranged()) && Found(Ranged(), next)
    ensures Run(Anything(), Original(Ranged()), Running(0, [], [], 0), ThrowAndReturn()) == Halted([], 3)
    ensures forall others | Events(others) == Events(ThrowAndReturn()) ::
              Run(Anything(), MadeReading(Ranged(), next, behind), Running(0, [], [], 0), others) == Stuck
  {
    IsAnalysed();
    NotesAreRecorded();
    RangedInlinable();
    OldRun();
    FirstPlace(next);
    TableIsLost(next, behind);
    var q := MadeReading(Ranged(), next, behind);
    SamePlaces(next, behind);
    hide *;
    forall others | Events(others) == Events(ThrowAndReturn()) ensures Run(Anything(), q, Running(0, [], [], 0), others) == Stuck {
      Uncaught(q, others);
    }
  }

  lemma SamePlaces(next: map<seq<nat>, nat>, behind: int)
    requires Found(Ranged(), next) && Encodable(Ranged())
    ensures MadeReading(Ranged(), next, behind).at == NewProgram(Ranged(), next).at
  {
    hide NewProgram, Emit, Ranged;
  }
}
