/** Accepted methods for which the inliner goes wrong because its own assumptions do not hold. */
module InlinerLimits {
  import opened JsrMachine
  import opened Inliner
  import opened InlinedCode
  import opened InlinedHandlers
  import opened InlinerSoundness
  import Bytecode
  import Dataflow
  import InnerReturnMethod
  import RecordedNotes
  import Types

  // ----- a call whose masks are not nested -----

  function Ordinary(pops: nat, pushes: nat, falls: bool, targets: seq<nat>): Op {
    Plain(pops, pushes, [], [], falls, targets)
  }

  /**
   A `return` inside an inner `finally`:
   0 jsr 3; 1 jsr 9; 2 return; 3 astore 0; 4 getstatic; 5 ifeq 8; 6 jsr 9; 7 return; 8 ret 0;
   9 astore 1; 10 invokestatic; 11 ret 1.
   The subroutine at 9 is called with and without the one at 3 around it.
   */
  function InnerReturn(): (code: Code)
    ensures code.Valid() && |code.instrs| == 12
  {
    Code([Instr(Jsr(3), 3, false), Instr(Jsr(9), 3, false), Instr(Ordinary(0, 0, false, []), 1, false),
          Instr(Astore(0), 1, false), Instr(Ordinary(0, 1, true, []), 3, false), Instr(Ordinary(1, 0, true, [8]), 3, false),
          Instr(Jsr(9), 3, false), Instr(Ordinary(0, 0, false, []), 1, false), Instr(Ret(0), 2, false),
          Instr(Astore(1), 1, false), Instr(Ordinary(0, 0, true, []), 3, false), Instr(Ret(1), 2, false)],
         [Reached([], [], [], map[], true), Reached([], [], [], OuterAddress(), true), Reached([], [], [], BothAddresses(), false),
          Reached([3], [{}], [ReturnTo(3)], map[], false), Reached([3], [{0}], [], OuterAddress(), false),
          Reached([3], [{0}], [Word], OuterAddress(), false), Reached([3], [{0}], [], OuterAddress(), true),
          Reached([], [], [], BothAddresses(), false), Reached([3], [{0}], [], OuterAddress(), false),
          Reached([9], [{}], [ReturnTo(9)], OuterAddress(), false), Reached([9], [{1}], [], BothAddresses(), false),
          Reached([9], [{1}], [], BothAddresses(), false)],
         2, [])
  }

  function OuterAddress(): map<nat, Kind> {
    map[0 := ReturnTo(3)]
  }

  function BothAddresses(): map<nat, Kind> {
    map[0 := ReturnTo(3), 1 := ReturnTo(9)]
  }

  lemma Instrs()
    ensures var code := InnerReturn();
            && |code.instrs| == |code.notes| == 12 && code.table == [] && code.nlocals == 2
            && code.instrs[2] == Instr(Ordinary(0, 0, false, []), 1, false) && code.instrs[7] == code.instrs[2]
            && code.instrs[4] == Instr(Ordinary(0, 1, true, []), 3, false) && code.instrs[5] == Instr(Ordinary(1, 0, true, [8]), 3, false)
            && code.instrs[10] == Instr(Ordinary(0, 0, true, []), 3, false)
  {
  }

  // ----- it is accepted -----

  function Lengths(): seq<nat> {
    [3, 3, 1, 1, 3, 3, 3, 1, 2, 1, 3, 2]
  }

  /** The instructions of these methods as the inliner sees them. */
  lemma SimpleOps(m: Bytecode.Method, i: nat)
    requires i < |m.code|
    ensures var ins, op := m.code[i], RecordedNotes.OpOf(m, i);
            && (ins in {Bytecode.Constant(Types.Integer), Bytecode.GetStatic(Types.Integer)} ==> op == Ordinary(0, 1, true, []))
            && (ins.Branch? && ins.cond.OneInt? ==> op == Ordinary(1, 0, true, [ins.target]))
            && (ins.ReturnVoid? && m.returnType.Void? ==> op == Ordinary(0, 0, false, []))
            && (ins == Bytecode.Invoke(Bytecode.InvokeStatic, Types.OBJECT, [], Types.None) ==> op == Ordinary(0, 0, true, []))
            && (ins.Jsr? ==> op == Jsr(ins.target)) && (ins.Ret? ==> op == Ret(ins.local))
            && (ins.Store? && ins.kind.KRef? ==> op == Astore(ins.local))
  {
    assert RecordedNotes.PopWords([]) == 0;
    assert [Bytecode.Exactly(Types.Integer)][1..] == [];
    assert RecordedNotes.PopWords([Bytecode.Exactly(Types.Integer)]) == 1;
  }

  lemma InstrIs(i: nat)
    requires i < 12
    ensures var m := InnerReturnMethod.InnerReturn();
            |m.code| == 12 && Instr(RecordedNotes.OpOf(m, i), Lengths()[i], m.code[i].Switch?) == InnerReturn().instrs[i]
  {
    InnerReturnMethod.Parts();
    hide InnerReturnMethod.InnerReturn, RecordedNotes.OpOf;
    SimpleOps(InnerReturnMethod.InnerReturn(), i);
  }

  lemma MasksAre(entry: nat, changed: set<nat>)
    ensures RecordedNotes.EntriesOf([]) == [] && RecordedNotes.ChangesOf([]) == []
    ensures RecordedNotes.EntriesOf([Bytecode.Mask(entry, changed)]) == [entry]
    ensures RecordedNotes.ChangesOf([Bytecode.Mask(entry, changed)]) == [changed]
  {
  }

  lemma StackIs(entry: nat)
    ensures RecordedNotes.StackKinds([]) == [] && RecordedNotes.StackKinds([Types.Integer]) == [Word]
    ensures RecordedNotes.StackKinds([Types.ReturnAddress(entry)]) == [ReturnTo(entry)]
  {
    RecordedNotes.OneItem(Types.Integer);
    RecordedNotes.OneItem(Types.ReturnAddress(entry));
  }

  lemma RegistersAre(entry: nat)
    ensures RecordedNotes.RegisterKinds([]) == map[]
    ensures RecordedNotes.RegisterKinds([Types.ReturnAddress(entry)]) == map[0 := ReturnTo(entry)]
    ensures RecordedNotes.RegisterKinds([Types.ReturnAddress(3), Types.ReturnAddress(9)]) == BothAddresses()
  {
  }

  lemma NoteIs(i: nat)
    requires i < 12
    ensures RecordedNotes.NoteOf(InnerReturnMethod.VersionOf(i, if i in {0, 1, 2, 6, 7, 9, 10, 11} then 2 else 1)) == InnerReturn().notes[i]
  {
    hide RecordedNotes.EntriesOf, RecordedNotes.ChangesOf, RecordedNotes.StackKinds, RecordedNotes.RegisterKinds;
    MasksAre(3, {});
    MasksAre(3, {0});
    MasksAre(9, {});
    MasksAre(9, {1});
    StackIs(3);
    StackIs(9);
    RegistersAre(3);
  }

  /** The notes are those the analysis of the method ends with. */
  lemma NotesAreRecorded()
    ensures var m, t := InnerReturnMethod.InnerReturn(), InnerReturnMethod.Before(17);
            RecordedNotes.Fits(m, t, Lengths()) && RecordedNotes.CodeOf(m, t, Lengths()) == InnerReturn()
  {
    var m, t := InnerReturnMethod.InnerReturn(), InnerReturnMethod.Before(17);
    InnerReturnMethod.Parts();
    InnerReturnMethod.AllSettled();
    hide InnerReturnMethod.InnerReturn, InnerReturnMethod.Before;
    var code, made := InnerReturn(), RecordedNotes.CodeOf(m, t, Lengths());
    forall i | 0 <= i < 12 ensures made.instrs[i] == code.instrs[i] && made.notes[i] == code.notes[i] {
      InstrIs(i);
      NoteIs(i);
    }
    assert made.instrs == code.instrs && made.notes == code.notes && made.table == code.table;
  }

  lemma StacksAreClean()
    ensures Dataflow.CleanStacks(InnerReturnMethod.Before(17))
  {
    InnerReturnMethod.AllSettled();
    hide InnerReturnMethod.Before;
  }

  lemma DistancesFit()
    ensures Encodable(InnerReturn())
  {
  }

  lemma InnerReturnAccepted()
    ensures Accepted(InnerReturn()) && Encodable(InnerReturn()) && TargetsInRange(InnerReturn())
  {
    hide *;
    NotesAreRecorded();
    InnerReturnMethod.IsAnalysed();
    StacksAreClean();
    DistancesFit();
    RecordedNotes.AnalysedIsAccepted(
      InnerReturnMethod.InnerReturn(), InnerReturnMethod.Before(17), false, InnerReturnMethod.Turns(), Lengths());
  }

  /** The instructions of each context the pass makes; none is left for the call from within the call. */
  lemma Contexts(i: nat)
    ensures var code := InnerReturn();
            && (Member(code, i, []) <==> i in {0, 1, 2, 7})
            && (Member(code, i, [0]) <==> i in {3, 4, 5, 6, 8})
            && (Member(code, i, [1]) <==> i in {9, 10, 11})
            && !Member(code, i, [0, 6])
  {
    var code := InnerReturn();
    assert Entries(code, []) == [] && Entries(code, [0]) == [3] && Entries(code, [1]) == [9] && Entries(code, [0, 6]) == [3, 9];
    assert i < 12 ==> code.notes[i].context == if i in {0, 1, 2, 7} then [] else if i in {3, 4, 5, 6, 8} then [3] else [9];
    assert [3] != [9] && [3] != [3, 9] && [9] != [3, 9];
  }

  lemma FirstMemberIs(code: Code, calls: seq<nat>, from: nat, f: nat)
    requires code.Valid() && from <= f <= |code.instrs| && (f < |code.instrs| ==> Member(code, f, calls))
    requires forall i | from <= i < f :: !Member(code, i, calls)
    ensures FirstMember(code, calls, from) == f
  {
  }

  lemma {:induction false} NothingBetween(code: Code, calls: seq<nat>, n: nat, m: nat)
    requires code.Valid() && n <= m <= |code.instrs| && forall i | n <= i < m :: !Member(code, i, calls)
    ensures EmitTo(code, calls, m) == EmitTo(code, calls, n)
    decreases m
  {
    if n < m {
      NothingBetween(code, calls, n, m - 1);
    }
  }

  lemma Calls(i: nat)
    ensures ReturningJsr(InnerReturn(), i) <==> i in {0, 1, 6}
  {
  }

  lemma SkippedCalls()
    ensures FlagOf(InnerReturn(), [], 0).Skip? && FlagOf(InnerReturn(), [], 1).Skip? && FlagOf(InnerReturn(), [0], 6).Skip?
  {
    var code := InnerReturn();
    forall i: nat
      ensures Member(code, i, [0]) <==> i in {3, 4, 5, 6, 8}
      ensures Member(code, i, [1]) <==> i in {9, 10, 11}
      ensures !Member(code, i, [0, 6])
    {
      Contexts(i);
    }
    hide Member, FirstMember, InnerReturn;
    FirstMemberIs(code, [0], 0, 3);
    FirstMemberIs(code, [1], 0, 9);
    FirstMemberIs(code, [0, 6], 0, 12);
    assert [] + [0] == [0] && [] + [1] == [1] && [0] + [6] == [0, 6];
    CallFlag([], 0);
    CallFlag([], 1);
    CallFlag([0], 6);
  }

  lemma CallFlag(calls: seq<nat>, i: nat)
    requires i in {0, 1, 6}
    ensures var code, t := InnerReturn(), if i == 0 then 3 else 9;
            FirstMember(code, calls + [i], 0) in {t, 12} ==> FlagOf(code, calls, i).Skip?
  {
    hide FirstMember;
  }

  lemma SkippedReturns()
    ensures FlagOf(InnerReturn(), [0], 8).Skip? && FlagOf(InnerReturn(), [1], 11).Skip?
    ensures FlagOf(InnerReturn(), [0], 3).Skip? && FlagOf(InnerReturn(), [1], 9).Skip?
  {
    var code := InnerReturn();
    forall i: nat
      ensures Member(code, i, [0]) <==> i in {3, 4, 5, 6, 8}
      ensures Member(code, i, [1]) <==> i in {9, 10, 11}
    {
      Contexts(i);
    }
    hide Member, FirstMember;
    FirstMemberIs(code, [0], 9, 12);
    FirstMemberIs(code, [1], 12, 12);
  }

  lemma OrdinaryFlag(calls: seq<nat>, i: nat)
    requires i in {2, 4, 5, 7, 10}
    ensures FlagOf(InnerReturn(), calls, i) == Flag.Normal
  {
  }

  /** One instruction more. */
  lemma OneMore(code: Code, calls: seq<nat>, i: nat, flag: Flag)
    requires code.Valid() && i < |code.instrs| && Member(code, i, calls) && FlagOf(code, calls, i) == flag
    ensures EmitTo(code, calls, i + 1) ==
            EmitTo(code, calls, i) + [CodeRef(i, calls, flag)] + if ReturningJsr(code, i) then Emit(code, calls + [i]) else []
  {
    hide Member, FlagOf;
  }

  lemma EmptyCode(code: Code, calls: seq<nat>)
    requires code.Valid()
    ensures EmitTo(code, calls, 0) == [] && Emit(code, calls) == EmitTo(code, calls, |code.instrs|)
  {
  }

  lemma InnermostCode()
    ensures Emit(InnerReturn(), [0, 6]) == []
  {
    var code := InnerReturn();
    forall i: nat ensures !Member(code, i, [0, 6]) {
      Contexts(i);
    }
    hide *;
    EmptyCode(code, [0, 6]);
    NothingBetween(code, [0, 6], 0, 12);
  }

  function OuterRefs(): seq<CodeRef> {
    [CodeRef(3, [0], Skip), CodeRef(4, [0], Flag.Normal), CodeRef(5, [0], Flag.Normal), CodeRef(6, [0], Skip), CodeRef(8, [0], Skip)]
  }

  function InnerRefs(): seq<CodeRef> {
    [CodeRef(9, [1], Skip), CodeRef(10, [1], Flag.Normal), CodeRef(11, [1], Skip)]
  }

  lemma OuterCode()
    ensures Emit(InnerReturn(), [0]) == OuterRefs()
  {
    hide Emit, EmitTo, Member, ReturningJsr, FlagOf, InnerReturn;
    var code := InnerReturn();
    forall i: nat
      ensures Member(code, i, [0]) <==> i in {3, 4, 5, 6, 8}
      ensures ReturningJsr(code, i) <==> i in {0, 1, 6}
    {
      Contexts(i);
      Calls(i);
    }
    SkippedCalls();
    SkippedReturns();
    OrdinaryFlag([0], 4);
    OrdinaryFlag([0], 5);
    InnermostCode();
    assert [0] + [6] == [0, 6];
    EmptyCode(code, [0]);
    NothingBetween(code, [0], 0, 3);
    OneMore(code, [0], 3, Skip);
    OneMore(code, [0], 4, Flag.Normal);
    OneMore(code, [0], 5, Flag.Normal);
    OneMore(code, [0], 6, Skip);
    NothingBetween(code, [0], 7, 8);
    OneMore(code, [0], 8, Skip);
    NothingBetween(code, [0], 9, 12);
  }

  lemma InnerCode()
    ensures Emit(InnerReturn(), [1]) == InnerRefs()
  {
    hide Emit, EmitTo, Member, ReturningJsr, FlagOf, InnerReturn;
    var code := InnerReturn();
    forall i: nat
      ensures Member(code, i, [1]) <==> i in {9, 10, 11}
      ensures ReturningJsr(code, i) <==> i in {0, 1, 6}
    {
      Contexts(i);
      Calls(i);
    }
    SkippedReturns();
    OrdinaryFlag([1], 10);
    EmptyCode(code, [1]);
    NothingBetween(code, [1], 0, 9);
    OneMore(code, [1], 9, Skip);
    OneMore(code, [1], 10, Flag.Normal);
    OneMore(code, [1], 11, Skip);
  }

  function NewRefs(): seq<CodeRef> {
    [CodeRef(0, [], Skip)] + OuterRefs() + [CodeRef(1, [], Skip)] + InnerRefs() + [CodeRef(2, [], Flag.Normal)] + [CodeRef(7, [], Flag.Normal)]
  }

  /** Behind the inner jsr of the outer subroutine there is no copy of the inner subroutine. */
  lemma NewCode()
    ensures Emit(InnerReturn(), []) == NewRefs()
  {
    hide Emit, EmitTo, Member, ReturningJsr, FlagOf, InnerReturn, OuterRefs, InnerRefs;
    var code := InnerReturn();
    forall i: nat
      ensures Member(code, i, []) <==> i in {0, 1, 2, 7}
      ensures ReturningJsr(code, i) <==> i in {0, 1, 6}
    {
      Contexts(i);
      Calls(i);
    }
    SkippedCalls();
    OrdinaryFlag([], 2);
    OrdinaryFlag([], 7);
    OuterCode();
    InnerCode();
    assert [] + [0] == [0] && [] + [1] == [1];
    EmptyCode(code, []);
    OneMore(code, [], 0, Skip);
    OneMore(code, [], 1, Skip);
    OneMore(code, [], 2, Flag.Normal);
    NothingBetween(code, [], 3, 7);
    OneMore(code, [], 7, Flag.Normal);
    NothingBetween(code, [], 8, 12);
  }

  /** The kept copies: the two ordinary instructions of the outer subroutine, that of the inner one, and the two returns. */
  lemma NewRefAt(k: nat)
    requires k < 12
    ensures |NewRefs()| == 12 && InCode(InnerReturn(), NewRefs())
    ensures NewRefs()[k].flag == if k in {2, 3, 8, 10, 11} then Flag.Normal else Skip
    ensures k == 2 ==> NewRefs()[k] == CodeRef(4, [0], Flag.Normal)
    ensures k == 3 ==> NewRefs()[k] == CodeRef(5, [0], Flag.Normal)
    ensures k == 8 ==> NewRefs()[k] == CodeRef(10, [1], Flag.Normal)
    ensures k == 10 ==> NewRefs()[k] == CodeRef(2, [], Flag.Normal)
    ensures k == 11 ==> NewRefs()[k] == CodeRef(7, [], Flag.Normal)
    ensures k == 5 ==> NewRefs()[k] == CodeRef(8, [0], Skip)
    ensures NewRefs()[k].inumber == 8 ==> k == 5
  {
    hide InnerReturn;
  }

  lemma NextOffset(k: nat)
    requires k < 12 && |NewRefs()| == 12 && InCode(InnerReturn(), NewRefs())
    ensures var code, refs := InnerReturn(), NewRefs();
            Offset(code, refs, k + 1) == Offset(code, refs, k) + if k in {2, 3, 8} then 3 else if k in {10, 11} then 1 else 0
  {
    NewRefAt(k);
    Instrs();
    hide NewRefs, InnerReturn;
  }

  lemma Layout()
    ensures var code, refs := InnerReturn(), NewRefs();
            && |refs| == 12 && InCode(code, refs)
            && Offset(code, refs, 2) == 0 && Offset(code, refs, 3) == 3 && Offset(code, refs, 4) == 6 && Offset(code, refs, 5) == 6
            && Offset(code, refs, 8) == 6 && Offset(code, refs, 9) == 9 && Offset(code, refs, 10) == 9 && Offset(code, refs, 11) == 10
            && Offset(code, refs, 12) == 11
  {
    NewRefAt(0);
    NoOffset(InnerReturn(), NewRefs());
    hide *;
    NextOffset(0);
    NextOffset(1);
    NextOffset(2);
    NextOffset(3);
    NextOffset(4);
    NextOffset(5);
    NextOffset(6);
    NextOffset(7);
    NextOffset(8);
    NextOffset(9);
    NextOffset(10);
    NextOffset(11);
  }

  lemma NoOffset(code: Code, refs: seq<CodeRef>)
    requires code.Valid() && InCode(code, refs)
    ensures Offset(code, refs, 0) == 0
  {
  }

  lemma BranchTarget()
    ensures TargetRef(NewRefs(), [0], 8) == 5
  {
    forall k: nat | k < 12
      ensures |NewRefs()| == 12 && (NewRefs()[k].inumber == 8 <==> k == 5)
    {
      NewRefAt(k);
    }
    NewRefAt(5);
    hide NewRefs;
    CopiesAre(NewRefs(), 8);
    FirstVisibleIs(NewRefs(), Inliner.Copies(NewRefs(), 8), [0], 5);
  }

  lemma NothingPanics(next: map<seq<nat>, nat>)
    ensures Found(InnerReturn(), next)
  {
    NewCode();
    Layout();
    BranchTarget();
    Instrs();
    hide InnerReturn, NewRefs, TargetRef, Emit, Offset;
    forall k | 0 <= k < 12 && !NewRefs()[k].flag.Skip? ensures TargetsFound(InnerReturn(), NewRefs(), next, k) {
      NewRefAt(k);
    }
  }

  /** The new code: nothing of the inner subroutine comes before the second return. */
  lemma NewPlaces(next: map<seq<nat>, nat>)
    ensures Found(InnerReturn(), next) && Encodable(InnerReturn())
    ensures var at := NewProgram(InnerReturn(), next).at;
            && {0, 3, 6, 9, 10} <= at.Keys
            && at[0] == Place(4, Ordinary(0, 1, true, []), 3) && at[3] == Place(5, Ordinary(1, 0, true, [6]), 6)
            && at[6] == Place(10, Ordinary(0, 0, true, []), 9)
            && at[9] == Place(2, Ordinary(0, 0, false, []), 10) && at[10] == Place(7, Ordinary(0, 0, false, []), 11)
  {
    var code, refs := InnerReturn(), NewRefs();
    NothingPanics(next);
    NewCode();
    Layout();
    InnerReturnAccepted();
    hide Accepted, NewRefs, TargetsInRange, Offset, NewPlace, TargetsFound, Emit, TargetRef, InnerReturn, Encodable, PlacesTo;
    forall k | k in {2, 3, 8, 10, 11} ensures !refs[k].flag.Skip? && TargetsFound(code, refs, next, k) {
      NewRefAt(k);
    }
    PlaceIs(next, 2);
    PlaceIs(next, 3);
    PlaceIs(next, 8);
    PlaceIs(next, 10);
    PlaceIs(next, 11);
    PlaceAt(code, refs, next, 12, 2);
    PlaceAt(code, refs, next, 12, 3);
    PlaceAt(code, refs, next, 12, 8);
    PlaceAt(code, refs, next, 12, 10);
    PlaceAt(code, refs, next, 12, 11);
  }

  lemma PlaceWithoutTargets(code: Code, refs: seq<CodeRef>, next: map<seq<nat>, nat>, k: nat)
    requires code.Valid() && Encodable(code) && InCode(code, refs) && k < |refs| && TargetsFound(code, refs, next, k)
    requires code.instrs[refs[k].inumber].op.Plain? && code.instrs[refs[k].inumber].op.targets == []
    ensures NewPlace(code, refs, next, k) == Place(refs[k].inumber, code.instrs[refs[k].inumber].op, Offset(code, refs, k + 1))
  {
    hide Offset, Encodable;
  }

  lemma PlaceWithTarget(code: Code, refs: seq<CodeRef>, next: map<seq<nat>, nat>, k: nat, t: nat)
    requires code.Valid() && Encodable(code) && InCode(code, refs) && k < |refs| && TargetsFound(code, refs, next, k)
    requires var instr := code.instrs[refs[k].inumber]; instr.op.Plain? && instr.op.targets == [t] && DistanceSize(instr) == 2
    requires var to := TargetRef(refs, refs[k].subroutine, t); to >= 0 && 0 <= Offset(code, refs, to) - Offset(code, refs, k) < 0x8000
    ensures NewPlace(code, refs, next, k) ==
            var op := code.instrs[refs[k].inumber].op;
            Place(refs[k].inumber, op.(targets := [Offset(code, refs, TargetRef(refs, refs[k].subroutine, t))]), Offset(code, refs, k + 1))
  {
    var to, op := TargetRef(refs, refs[k].subroutine, t), code.instrs[refs[k].inumber].op;
    hide Offset, Encodable, TargetRef, Jump;
    JumpLands(code, refs, k, to, 2);
    assert Jumps(code, refs, k, op.targets, 2) == [Jump(code, refs, k, to, 2)];
  }

  lemma PlaceIs(next: map<seq<nat>, nat>, k: nat)
    requires k in {2, 3, 8, 10, 11} && Encodable(InnerReturn())
    requires |NewRefs()| == 12 && InCode(InnerReturn(), NewRefs()) && TargetsFound(InnerReturn(), NewRefs(), next, k)
    ensures NewRefs()[k].flag == Flag.Normal
    ensures NewPlace(InnerReturn(), NewRefs(), next, k) ==
            if k == 2 then Place(4, Ordinary(0, 1, true, []), 3)
            else if k == 3 then Place(5, Ordinary(1, 0, true, [6]), 6)
            else if k == 8 then Place(10, Ordinary(0, 0, true, []), 9)
            else if k == 10 then Place(2, Ordinary(0, 0, false, []), 10)
            else Place(7, Ordinary(0, 0, false, []), 11)
  {
    var code, refs := InnerReturn(), NewRefs();
    NewRefAt(k);
    Instrs();
    Layout();
    BranchTarget();
    hide NewRefs, Offset, TargetRef, Encodable, InnerReturn, NewPlace, TargetsFound;
    if k == 3 {
      PlaceWithTarget(code, refs, next, k, 8);
    } else {
      PlaceWithoutTargets(code, refs, next, k);
    }
  }

  // ----- the two programs end differently -----

  /** Every instruction may do one thing: leave a world named after it. */
  function Traced(): Semantics {
    Semantics((body: nat, world: int, popped: seq<int>, read: seq<int>, e: Event) => e.Normal? && e.world == body, (_, _, _) => false)
  }

  /** What instruction `body` does: push n words and go on to the next instruction. */
  function Done(body: nat, n: nat): (l: Label)
    ensures l.Act?
  {
    Act(Event.Normal(body, seq(n, _ => 0), [], 0))
  }

  function FallIntoInner(): seq<Label> {
    [Silent, Silent, Done(4, 1), Done(5, 0), Silent, Silent, Done(10, 0), Silent, Done(7, 0)]
  }

  /** A step of an ordinary instruction without registers. */
  lemma OrdinaryStep(p: Program, s: State, pops: nat, pushes: nat, body: nat)
    requires s.Running? && s.pc in p.at && p.at[s.pc].body == body && p.at[s.pc].op.Plain? && Successors(p.at[s.pc]) != []
    requires p.at[s.pc].op == Ordinary(pops, pushes, p.at[s.pc].op.falls, p.at[s.pc].op.targets)
    requires pops <= |s.stack| && AllData(s.stack[|s.stack| - pops..])
    ensures Step(Traced(), p, s, Done(body, pushes)) ==
            Running(Successors(p.at[s.pc])[0], s.stack[..|s.stack| - pops] + seq(pushes, _ => Data(0)), s.locals, body)
  {
    PlainStepIs(Traced(), p, s, Done(body, pushes).event);
    assert Datas(seq(pushes, _ => 0)) == seq(pushes, _ => Data(0));
  }

  lemma LastStep(p: Program, s: State, body: nat)
    requires s.Running? && s.pc in p.at && p.at[s.pc].body == body && p.at[s.pc].op == Ordinary(0, 0, false, [])
    ensures Step(Traced(), p, s, Done(body, 0)) == Halted([], body)
  {
    assert s.stack[|s.stack|..] == [];
    PlainStepIs(Traced(), p, s, Done(body, 0).event);
    assert Words([]) == [];
  }

  lemma CallStep(p: Program, s: State)
    requires s.Running? && s.pc in p.at && p.at[s.pc].op.Jsr?
    ensures Step(Traced(), p, s, Silent) == s.(pc := p.at[s.pc].op.target, stack := s.stack + [Address(s.pc)])
  {
  }

  lemma ReturnStep(p: Program, s: State)
    requires s.Running? && s.pc in p.at && p.at[s.pc].op.Ret?
    requires var r := p.at[s.pc].op.register; r < |s.locals| && s.locals[r].Address? && s.locals[r].jsr in p.at
    ensures Step(Traced(), p, s, Silent) == s.(pc := p.at[s.locals[p.at[s.pc].op.register].jsr].next)
  {
  }

  lemma OneStep(p: Program, s: State, l: Label, u: State, labels: seq<Label>)
    requires Step(Traced(), p, s, l) == u
    ensures Run(Traced(), p, s, [l] + labels) == Run(Traced(), p, u, labels)
  {
    RunStep(Traced(), p, s, l, labels);
  }

  lemma Places()
    ensures var at := Original(InnerReturn()).at;
            && {0, 3, 4, 5, 6, 7, 9, 10, 11} <= at.Keys
            && at[0] == Place(0, Jsr(3), 1) && at[3] == Place(3, Astore(0), 4)
            && at[4] == Place(4, Ordinary(0, 1, true, []), 5) && at[5] == Place(5, Ordinary(1, 0, true, [8]), 6)
            && at[6] == Place(6, Jsr(9), 7) && at[7] == Place(7, Ordinary(0, 0, false, []), 8)
            && at[9] == Place(9, Astore(1), 10) && at[10] == Place(10, Ordinary(0, 0, true, []), 11) && at[11] == Place(11, Ret(1), 12)
  {
  }

  /** The first half of the run: into the inner subroutine from within the outer one. */
  lemma OriginalCalls(arguments: seq<Value>, labels: seq<Label>)
    requires |arguments| == 2 && AllData(arguments)
    ensures Run(Traced(), Original(InnerReturn()), Running(0, [], arguments, 0), FirstHalf() + labels) ==
            Run(Traced(), Original(InnerReturn()), Running(9, [Address(6)], arguments[0 := Address(0)], 5), labels)
  {
    var p, a := Original(InnerReturn()), arguments[0 := Address(0)];
    Places();
    hide InnerReturn, Run, Step, Original;
    var six := [Silent] + labels;
    var five := [Done(5, 0)] + six;
    var four := [Done(4, 1)] + five;
    var three := [Silent] + four;
    assert FirstHalf() + labels == [Silent] + three;
    CallStep(p, Running(0, [], arguments, 0));
    OneStep(p, Running(0, [], arguments, 0), Silent, Running(3, [Address(0)], arguments, 0), three);
    AstoreStep(Traced(), p, Running(3, [Address(0)], arguments, 0));
    OneStep(p, Running(3, [Address(0)], arguments, 0), Silent, Running(4, [], a, 0), four);
    OrdinaryStep(p, Running(4, [], a, 0), 0, 1, 4);
    OneStep(p, Running(4, [], a, 0), Done(4, 1), Running(5, [Data(0)], a, 4), five);
    OrdinaryStep(p, Running(5, [Data(0)], a, 4), 1, 0, 5);
    OneStep(p, Running(5, [Data(0)], a, 4), Done(5, 0), Running(6, [], a, 5), six);
    CallStep(p, Running(6, [], a, 5));
    OneStep(p, Running(6, [], a, 5), Silent, Running(9, [Address(6)], a, 5), labels);
  }

  function FirstHalf(): seq<Label> {
    [Silent, Silent, Done(4, 1), Done(5, 0), Silent]
  }

  lemma SecondSteps(arguments: seq<Value>)
    requires |arguments| == 2 && AllData(arguments)
    ensures var p, a := Original(InnerReturn()), arguments[0 := Address(0)];
            var b := a[1 := Address(6)];
            && Step(Traced(), p, Running(9, [Address(6)], a, 5), Silent) == Running(10, [], b, 5)
            && Step(Traced(), p, Running(10, [], b, 5), Done(10, 0)) == Running(11, [], b, 10)
            && Step(Traced(), p, Running(11, [], b, 10), Silent) == Running(7, [], b, 10)
            && Step(Traced(), p, Running(7, [], b, 10), Done(7, 0)) == Halted([], 7)
  {
    var p, a := Original(InnerReturn()), arguments[0 := Address(0)];
    var b := a[1 := Address(6)];
    Places();
    hide InnerReturn, Run, Step, Original, Done;
    AstoreStep(Traced(), p, Running(9, [Address(6)], a, 5));
    OrdinaryStep(p, Running(10, [], b, 5), 0, 0, 10);
    ReturnStep(p, Running(11, [], b, 10));
    LastStep(p, Running(7, [], b, 10), 7);
  }

  lemma Halves()
    ensures FallIntoInner() == FirstHalf() + ([Silent] + ([Done(10, 0)] + ([Silent] + [Done(7, 0)])))
  {
    hide Done;
  }

  /** The second half: the outer subroutine is left by the return behind the inner jsr. */
  lemma OriginalEnds(p: Program, s0: State, s1: State, s2: State, s3: State)
    requires Step(Traced(), p, s0, Silent) == s1 && Step(Traced(), p, s1, Done(10, 0)) == s2
    requires Step(Traced(), p, s2, Silent) == s3 && Step(Traced(), p, s3, Done(7, 0)) == Halted([], 7)
    ensures Run(Traced(), p, s0, [Silent] + ([Done(10, 0)] + ([Silent] + [Done(7, 0)]))) == Halted([], 7)
  {
    hide *;
    OneStep(p, s0, Silent, s1, [Done(10, 0)] + ([Silent] + [Done(7, 0)]));
    OneStep(p, s1, Done(10, 0), s2, [Silent] + [Done(7, 0)]);
    OneStep(p, s2, Silent, s3, [Done(7, 0)]);
    assert [Done(7, 0)] == [Done(7, 0)] + [];
    OneStep(p, s3, Done(7, 0), Halted([], 7), []);
    NoLabels(p, Halted([], 7));
  }

  lemma OriginalReturns(arguments: seq<Value>)
    requires |arguments| == 2 && AllData(arguments)
    ensures Run(Traced(), Original(InnerReturn()), Running(0, [], arguments, 0), FallIntoInner()) == Halted([], 7)
  {
    hide *;
    var p, a := Original(InnerReturn()), arguments[0 := Address(0)];
    var b := a[1 := Address(6)];
    Halves();
    OriginalCalls(arguments, [Silent] + ([Done(10, 0)] + ([Silent] + [Done(7, 0)])));
    SecondSteps(arguments);
    OriginalEnds(p, Running(9, [Address(6)], a, 5), Running(10, [], b, 5), Running(11, [], b, 10), Running(7, [], b, 10));
  }

  lemma NoLabels(p: Program, s: State)
    ensures Run(Traced(), p, s, []) == s
  {
  }

  /** At an ordinary instruction the next label is the next event, or the run is stuck. */
  lemma NextEvent(m: Semantics, p: Program, s: State, others: seq<Label>, e: Event, rest: seq<Event>)
    requires s.Running? && s.pc in p.at && p.at[s.pc].op.Plain? && Events(others) == [e] + rest
    ensures others != []
    ensures Run(m, p, s, others) == Stuck
            || (Run(m, p, s, others) == Run(m, p, Step(m, p, s, Act(e)), others[1..]) && Events(others[1..]) == rest)
  {
    assert others == [others[0]] + others[1..];
    RunStep(m, p, s, others[0], others[1..]);
    if others[0].Silent? {
      WrongLabel(m, p, s, Silent);
      StuckRuns(m, p, others[1..]);
    } else {
      assert ([others[0].event] + Events(others[1..]))[1..] == Events(others[1..]);
      assert ([e] + rest)[1..] == rest;
    }
  }

  lemma EventsAre()
    ensures Events(FallIntoInner()) == [Done(4, 1).event] + ([Done(5, 0).event] + ([Done(10, 0).event] + [Done(7, 0).event]))
  {
    var seven := [Done(10, 0), Silent, Done(7, 0)];
    var five := [Silent, Silent] + seven;
    var three := [Done(4, 1), Done(5, 0)] + five;
    assert FallIntoInner() == [Silent, Silent] + three;
    assert Events(seven) == [Done(10, 0).event] + [Done(7, 0).event] by {
      assert seven[1..] == [Silent, Done(7, 0)] && seven[1..][1..] == [Done(7, 0)];
    }
    assert Events(five) == Events(seven) by {
      assert five[1..] == [Silent] + seven && five[1..][1..] == seven;
    }
    assert three[1..] == [Done(5, 0)] + five && three[1..][1..] == five;
    assert FallIntoInner()[1..] == [Silent] + three && FallIntoInner()[1..][1..] == three;
  }

  lemma NewSteps(q: Program, next: map<seq<nat>, nat>, locals: seq<Value>)
    requires Found(InnerReturn(), next) && Encodable(InnerReturn()) && q == NewProgram(InnerReturn(), next)
    ensures {0, 3, 6, 9} <= q.at.Keys && q.at[0].op.Plain? && q.at[3].op.Plain? && q.at[6].op.Plain? && q.at[9].op.Plain?
    ensures Step(Traced(), q, Running(0, [], locals, 0), Done(4, 1)) == Running(3, [Data(0)], locals, 4)
    ensures Step(Traced(), q, Running(3, [Data(0)], locals, 4), Done(5, 0)) == Running(6, [], locals, 5)
    ensures Step(Traced(), q, Running(6, [], locals, 5), Done(10, 0)) == Running(9, [], locals, 10)
    ensures Step(Traced(), q, Running(9, [], locals, 10), Done(7, 0)) == Stuck
  {
    NewPlaces(next);
    hide InnerReturn, Step, NewProgram, Found, Encodable, Done;
    OrdinaryStep(q, Running(0, [], locals, 0), 0, 1, 4);
    OrdinaryStep(q, Running(3, [Data(0)], locals, 4), 1, 0, 5);
    OrdinaryStep(q, Running(6, [], locals, 5), 0, 0, 10);
    OtherBody(q, Running(9, [], locals, 10));
  }

  /** The new code does the same until it has to return: it returns from where the other call would go on. */
  lemma RewrittenIsStuck(next: map<seq<nat>, nat>, arguments: seq<Value>, others: seq<Label>)
    requires |arguments| == 2 && AllData(arguments) && Events(others) == Events(FallIntoInner())
    ensures Found(InnerReturn(), next) && Encodable(InnerReturn())
    ensures Run(Traced(), NewProgram(InnerReturn(), next), Running(0, [], arguments, 0), others) == Stuck
  {
    NothingPanics(next);
    InnerReturnAccepted();
    EventsAre();
    hide *;
    var q := NewProgram(InnerReturn(), next);
    NewSteps(q, next, arguments);
    var s0, s1, s2, s3 := Running(0, [], arguments, 0), Running(3, [Data(0)], arguments, 4), Running(6, [], arguments, 5),
      Running(9, [], arguments, 10);
    var last := [Done(7, 0).event];
    var later := [Done(10, 0).event] + last;
    NextEvent(Traced(), q, s0, others, Done(4, 1).event, [Done(5, 0).event] + later);
    if Run(Traced(), q, s0, others) != Stuck {
      NextEvent(Traced(), q, s1, others[1..], Done(5, 0).event, later);
      NextEvent(Traced(), q, s2, others[1..][1..], Done(10, 0).event, last);
      assert last == [Done(7, 0).event] + [];
      NextEvent(Traced(), q, s3, others[1..][1..][1..], Done(7, 0).event, []);
      StuckRuns(Traced(), q, others[1..][1..][1..][1..]);
    }
  }

  lemma OtherBody(p: Program, s: State)
    requires s.Running? && s.pc in p.at && p.at[s.pc] == Place(2, Ordinary(0, 0, false, []), 10)
    ensures Step(Traced(), p, s, Done(7, 0)) == Stuck
  {
  }

  /**
   The verifier accepts the method, but the inner jsr is not nested: the masks at 9 are [9],
   for a caller whose masks are [3].  A run of the original that goes through both
   subroutines is no run of the rewritten method, which returns elsewhere.
   */
  lemma InnerReturnIsLost(next: map<seq<nat>, nat>, arguments: seq<Value>)
    requires |arguments| == 2 && AllData(arguments)
    ensures var m, t := InnerReturnMethod.InnerReturn(), InnerReturnMethod.Before(17);
            && Bytecode.Legal(m) && Dataflow.PostFixpoint(m, t) && Dataflow.Replay(m, InnerReturnMethod.Turns()) == Dataflow.Running(false, t)
            && RecordedNotes.Fits(m, t, Lengths()) && RecordedNotes.CodeOf(m, t, Lengths()) == InnerReturn()
    ensures Accepted(InnerReturn()) && Encodable(InnerReturn()) && TargetsInRange(InnerReturn()) && Found(InnerReturn(), next)
    ensures Live(InnerReturn(), [0]) && Member(InnerReturn(), 6, [0]) && ReturningJsr(InnerReturn(), 6) && !CallNested(InnerReturn(), 6)
    ensures !CallsNested(InnerReturn())
    ensures Run(Traced(), Original(InnerReturn()), Running(0, [], arguments, 0), FallIntoInner()) == Halted([], 7)
    ensures forall others | Events(others) == Events(FallIntoInner()) ::
              Run(Traced(), NewProgram(InnerReturn(), next), Running(0, [], arguments, 0), others) == Stuck
  {
    InnerReturnMethod.IsAnalysed();
    NotesAreRecorded();
    InnerReturnAccepted();
    NothingPanics(next);
    OriginalReturns(arguments);
    NotNested();
    hide *;
    forall others | Events(others) == Events(FallIntoInner())
      ensures Run(Traced(), NewProgram(InnerReturn(), next), Running(0, [], arguments, 0), others) == Stuck
    {
      RewrittenIsStuck(next, arguments, others);
    }
  }

  lemma NotNested()
    ensures Live(InnerReturn(), [0]) && Member(InnerReturn(), 6, [0]) && ReturningJsr(InnerReturn(), 6) && !CallNested(InnerReturn(), 6)
    ensures !CallsNested(InnerReturn())
  {
    var code := InnerReturn();
    Contexts(0);
    Contexts(6);
    assert [0][..0] == [];
    assert Live(code, []) && Live(code, [0]);
    assert code.notes[9].context == [9] && code.notes[6].context + [9] == [3, 9];
  }
}
