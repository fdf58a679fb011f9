/** A method whose subroutine is also left by falling through: accepted, with nested calls, and changed by inlining. */
module FallThroughLimit {
  import opened JsrMachine
  import opened Inliner
  import opened InlinedCode
  import opened InlinedHandlers
  import opened InlinerSoundness
  import opened InlinerLimits
  import Bytecode
  import Dataflow
  import FallThroughMethod
  import RecordedNotes

  /**
   0 iconst_0; 1 ifeq 7; 2 jsr 4; 3 return; 4 astore 0; 5 iconst_0; 6 ifeq 8; 7 return; 8 ret 0.
   The subroutine at 4 may fall into the return at 7, which is also reached from 1.
   */
  function FallsOut(): (code: Code)
    ensures code.Valid() && |code.instrs| == 9
  {
    Code([Instr(Ordinary(0, 1, true, []), 1, false), Instr(Ordinary(1, 0, true, [7]), 3, false), Instr(Jsr(4), 3, false),
          Instr(Ordinary(0, 0, false, []), 1, false), Instr(Astore(0), 1, false), Instr(Ordinary(0, 1, true, []), 1, false),
          Instr(Ordinary(1, 0, true, [8]), 3, false), Instr(Ordinary(0, 0, false, []), 1, false), Instr(Ret(0), 2, false)],
         [Reached([], [], [], map[], false), Reached([], [], [Word], map[], false), Reached([], [], [], map[], true),
          Reached([], [], [], Saved(), false), Reached([4], [{}], [ReturnTo(4)], map[], false),
          Reached([4], [{0}], [], Saved(), false), Reached([4], [{0}], [Word], Saved(), false),
          Reached([], [], [], map[], false), Reached([4], [{0}], [], Saved(), false)],
         1, [])
  }

  function Saved(): map<nat, Kind> {
    map[0 := ReturnTo(4)]
  }

  function Lengths(): seq<nat> {
    [1, 3, 3, 1, 1, 1, 3, 1, 2]
  }

  lemma Parts()
    ensures var code := FallsOut();
            && |code.instrs| == |code.notes| == 9 && code.table == [] && code.nlocals == 1
            && code.instrs[0] == Instr(Ordinary(0, 1, true, []), 1, false) && code.instrs[5] == code.instrs[0]
            && code.instrs[1] == Instr(Ordinary(1, 0, true, [7]), 3, false) && code.instrs[6] == Instr(Ordinary(1, 0, true, [8]), 3, false)
            && code.instrs[3] == Instr(Ordinary(0, 0, false, []), 1, false) && code.instrs[7] == code.instrs[3]
            && code.notes[6] == Reached([4], [{0}], [Word], Saved(), false) && code.notes[7] == Reached([], [], [], map[], false)
  {
  }

  // ----- it is accepted -----

  lemma InstrIs(i: nat)
    requires i < 9
    ensures var m := FallThroughMethod.FallsOut();
            |m.code| == 9 && Instr(RecordedNotes.OpOf(m, i), Lengths()[i], m.code[i].Switch?) == FallsOut().instrs[i]
  {
    FallThroughMethod.Parts();
    hide FallThroughMethod.FallsOut, RecordedNotes.OpOf;
    SimpleOps(FallThroughMethod.FallsOut(), i);
  }

  lemma NoteIs(i: nat)
    requires i < 9
    ensures RecordedNotes.NoteOf(FallThroughMethod.VersionOf(i, if i == 2 then 2 else 1)) == FallsOut().notes[i]
  {
    hide RecordedNotes.EntriesOf, RecordedNotes.ChangesOf, RecordedNotes.StackKinds, RecordedNotes.RegisterKinds;
    MasksAre(4, {});
    MasksAre(4, {0});
    StackIs(4);
    RegistersAre(4);
  }

  lemma StacksAreClean()
    ensures Dataflow.CleanStacks(FallThroughMethod.Before(9))
  {
    FallThroughMethod.AllSettled();
    hide FallThroughMethod.Before;
  }

  /** The notes are those the analysis of the method ends with. */
  lemma NotesAreRecorded()
    ensures var m, t := FallThroughMethod.FallsOut(), FallThroughMethod.Before(9);
            RecordedNotes.Fits(m, t, Lengths()) && RecordedNotes.CodeOf(m, t, Lengths()) == FallsOut()
  {
    var m, t := FallThroughMethod.FallsOut(), FallThroughMethod.Before(9);
    FallThroughMethod.Parts();
    FallThroughMethod.AllSettled();
    hide FallThroughMethod.FallsOut, FallThroughMethod.Before;
    var code, made := FallsOut(), RecordedNotes.CodeOf(m, t, Lengths());
    forall i | 0 <= i < 9 ensures made.instrs[i] == code.instrs[i] && made.notes[i] == code.notes[i] {
      InstrIs(i);
      NoteIs(i);
    }
    assert made.instrs == code.instrs && made.notes == code.notes && made.table == code.table;
  }

  lemma DistancesFit()
    ensures Encodable(FallsOut())
  {
  }

  lemma FallsOutAccepted()
    ensures Accepted(FallsOut()) && Encodable(FallsOut()) && TargetsInRange(FallsOut())
  {
    hide *;
    NotesAreRecorded();
    FallThroughMethod.IsAnalysed();
    StacksAreClean();
    DistancesFit();
    RecordedNotes.AnalysedIsAccepted(
      FallThroughMethod.FallsOut(), FallThroughMethod.Before(9), false, FallThroughMethod.Turns(), Lengths());
  }

  // ----- only one assumption fails -----

  lemma CallIsNested()
    ensures CallsNested(FallsOut())
  {
    var code := FallsOut();
    hide Live;
    assert CallNested(code, 2);
    forall calls, i | Live(code, calls) && Member(code, i, calls) && ReturningJsr(code, i) ensures CallNested(code, i) {
      assert i == 2;
    }
  }

  lemma BranchesAreNested()
    ensures BranchesNested(FallsOut()) && AddressesOnlyStored(FallsOut())
  {
  }

  lemma OnlyFalls()
    ensures CallsNested(FallsOut()) && BranchesNested(FallsOut()) && RetsInnermost(FallsOut()) && AddressesOnlyStored(FallsOut())
    ensures !FallsNested(FallsOut())
  {
    var code := FallsOut();
    CallIsNested();
    BranchesAreNested();
    hide CallsNested, BranchesNested, AddressesOnlyStored;
    assert FallsThrough(code, 6) && code.notes[7].context != code.notes[6].context;
  }

  // ----- the new code -----

  lemma Members(i: nat)
    ensures var code := FallsOut();
            && (Member(code, i, []) <==> i in {0, 1, 2, 3, 7})
            && (Member(code, i, [2]) <==> i in {4, 5, 6, 8})
            && (ReturningJsr(code, i) <==> i == 2)
  {
    var code := FallsOut();
    assert Entries(code, []) == [] && Entries(code, [2]) == [4];
    assert i < 9 ==> code.notes[i].context == if i in {0, 1, 2, 3, 7} then [] else [4];
  }

  lemma Flags(calls: seq<nat>)
    ensures forall i | i in {0, 1, 3, 5, 6, 7} :: FlagOf(FallsOut(), calls, i) == Flag.Normal
    ensures FlagOf(FallsOut(), [], 2).Skip? && FlagOf(FallsOut(), [2], 4).Skip? && FlagOf(FallsOut(), [2], 8).Skip?
  {
    var code := FallsOut();
    forall i: nat ensures Member(code, i, [2]) <==> i in {4, 5, 6, 8} {
      Members(i);
    }
    hide Member, FirstMember;
    FirstMemberIs(code, [2], 0, 4);
    FirstMemberIs(code, [2], 9, 9);
    assert [] + [2] == [2];
  }

  function SubRefs(): seq<CodeRef> {
    [CodeRef(4, [2], Skip), CodeRef(5, [2], Flag.Normal), CodeRef(6, [2], Flag.Normal), CodeRef(8, [2], Skip)]
  }

  function Refs(): seq<CodeRef> {
    [CodeRef(0, [], Flag.Normal), CodeRef(1, [], Flag.Normal), CodeRef(2, [], Skip)] + SubRefs()
    + [CodeRef(3, [], Flag.Normal)] + [CodeRef(7, [], Flag.Normal)]
  }

  lemma SubCode()
    ensures Emit(FallsOut(), [2]) == SubRefs()
  {
    hide Emit, EmitTo, Member, ReturningJsr, FlagOf, FallsOut;
    var code := FallsOut();
    forall i: nat
      ensures Member(code, i, [2]) <==> i in {4, 5, 6, 8}
      ensures ReturningJsr(code, i) <==> i == 2
    {
      Members(i);
    }
    Flags([2]);
    EmptyCode(code, [2]);
    NothingBetween(code, [2], 0, 4);
    OneMore(code, [2], 4, Skip);
    OneMore(code, [2], 5, Flag.Normal);
    OneMore(code, [2], 6, Flag.Normal);
    NothingBetween(code, [2], 7, 8);
    OneMore(code, [2], 8, Skip);
  }

  /** What the subroutine fell into comes behind what follows the call. */
  lemma WholeCode()
    ensures Emit(FallsOut(), []) == Refs()
  {
    hide Emit, EmitTo, Member, ReturningJsr, FlagOf, FallsOut, SubRefs;
    var code := FallsOut();
    forall i: nat
      ensures Member(code, i, []) <==> i in {0, 1, 2, 3, 7}
      ensures ReturningJsr(code, i) <==> i == 2
    {
      Members(i);
    }
    Flags([]);
    SubCode();
    assert [] + [2] == [2];
    EmptyCode(code, []);
    OneMore(code, [], 0, Flag.Normal);
    OneMore(code, [], 1, Flag.Normal);
    OneMore(code, [], 2, Skip);
    OneMore(code, [], 3, Flag.Normal);
    NothingBetween(code, [], 4, 7);
    OneMore(code, [], 7, Flag.Normal);
    NothingBetween(code, [], 8, 9);
  }

  lemma AtRef(k: nat)
    requires k < 9
    ensures |Refs()| == 9 && InCode(FallsOut(), Refs())
    ensures Refs()[k].flag == if k in {2, 3, 6} then Skip else Flag.Normal
    ensures k == 0 ==> Refs()[k] == CodeRef(0, [], Flag.Normal)
    ensures k == 1 ==> Refs()[k] == CodeRef(1, [], Flag.Normal)
    ensures k == 4 ==> Refs()[k] == CodeRef(5, [2], Flag.Normal)
    ensures k == 5 ==> Refs()[k] == CodeRef(6, [2], Flag.Normal)
    ensures k == 6 ==> Refs()[k] == CodeRef(8, [2], Skip)
    ensures k == 7 ==> Refs()[k] == CodeRef(3, [], Flag.Normal)
    ensures k == 8 ==> Refs()[k] == CodeRef(7, [], Flag.Normal)
    ensures (Refs()[k].inumber == 8 <==> k == 6) && (Refs()[k].inumber == 7 <==> k == 8)
  {
    hide FallsOut;
  }

  lemma OffsetAfter(k: nat)
    requires k < 9 && |Refs()| == 9 && InCode(FallsOut(), Refs())
    ensures Offset(FallsOut(), Refs(), k + 1) ==
            Offset(FallsOut(), Refs(), k) + if k in {1, 5} then 3 else if k in {0, 4, 7, 8} then 1 else 0
  {
    AtRef(k);
    Parts();
    hide Refs, FallsOut;
  }

  lemma Offsets()
    ensures var code, refs := FallsOut(), Refs();
            && |refs| == 9 && InCode(code, refs)
            && Offset(code, refs, 0) == 0 && Offset(code, refs, 1) == 1 && Offset(code, refs, 2) == 4 && Offset(code, refs, 4) == 4
            && Offset(code, refs, 5) == 5 && Offset(code, refs, 6) == 8 && Offset(code, refs, 7) == 8 && Offset(code, refs, 8) == 9
            && Offset(code, refs, 9) == 10
  {
    AtRef(0);
    NoOffset(FallsOut(), Refs());
    hide *;
    OffsetAfter(0);
    OffsetAfter(1);
    OffsetAfter(2);
    OffsetAfter(3);
    OffsetAfter(4);
    OffsetAfter(5);
    OffsetAfter(6);
    OffsetAfter(7);
    OffsetAfter(8);
  }

  lemma Targets()
    ensures TargetRef(Refs(), [], 7) == 8 && TargetRef(Refs(), [2], 8) == 6
  {
    forall k: nat | k < 9 ensures |Refs()| == 9 && (Refs()[k].inumber == 8 <==> k == 6) && (Refs()[k].inumber == 7 <==> k == 8) {
      AtRef(k);
    }
    AtRef(6);
    AtRef(8);
    hide Refs;
    CopiesAre(Refs(), 7);
    CopiesAre(Refs(), 8);
    FirstVisibleIs(Refs(), Inliner.Copies(Refs(), 7), [], 8);
    FirstVisibleIs(Refs(), Inliner.Copies(Refs(), 8), [2], 6);
  }

  lemma NoPanic(next: map<seq<nat>, nat>)
    ensures Found(FallsOut(), next)
  {
    WholeCode();
    Offsets();
    Targets();
    Parts();
    hide FallsOut, Refs, TargetRef, Emit, Offset;
    forall k | 0 <= k < 9 && !Refs()[k].flag.Skip? ensures TargetsFound(FallsOut(), Refs(), next, k) {
      AtRef(k);
    }
  }

  lemma NewPlaceIs(next: map<seq<nat>, nat>, k: nat)
    requires k in {0, 1, 4, 5, 8} && Encodable(FallsOut())
    requires |Refs()| == 9 && InCode(FallsOut(), Refs()) && TargetsFound(FallsOut(), Refs(), next, k)
    ensures Refs()[k].flag == Flag.Normal
    ensures NewPlace(FallsOut(), Refs(), next, k) ==
            if k == 0 then Place(0, Ordinary(0, 1, true, []), 1)
            else if k == 1 then Place(1, Ordinary(1, 0, true, [9]), 4)
            else if k == 4 then Place(5, Ordinary(0, 1, true, []), 5)
            else if k == 5 then Place(6, Ordinary(1, 0, true, [8]), 8)
            else Place(7, Ordinary(0, 0, false, []), 10)
  {
    var code, refs := FallsOut(), Refs();
    AtRef(k);
    Parts();
    Offsets();
    Targets();
    hide Refs, Offset, TargetRef, Encodable, FallsOut, NewPlace, TargetsFound;
    if k == 1 {
      PlaceWithTarget(code, refs, next, k, 7);
    } else if k == 5 {
      PlaceWithTarget(code, refs, next, k, 8);
    } else {
      PlaceWithoutTargets(code, refs, next, k);
    }
  }

  /** Behind the call's subroutine comes the return of the method itself. */
  lemma ReturnPlaceIs(next: map<seq<nat>, nat>)
    requires Encodable(FallsOut()) && |Refs()| == 9 && InCode(FallsOut(), Refs()) && TargetsFound(FallsOut(), Refs(), next, 7)
    ensures Refs()[7].flag == Flag.Normal && NewPlace(FallsOut(), Refs(), next, 7) == Place(3, Ordinary(0, 0, false, []), 9)
  {
    var code, refs := FallsOut(), Refs();
    AtRef(7);
    Parts();
    Offsets();
    hide Refs, Offset, TargetRef, Encodable, FallsOut, NewPlace, TargetsFound;
    PlaceWithoutTargets(code, refs, next, 7);
  }

  lemma NewAt(next: map<seq<nat>, nat>)
    ensures Found(FallsOut(), next) && Encodable(FallsOut())
    ensures var at := NewProgram(FallsOut(), next).at;
            && {0, 1, 4, 5, 8} <= at.Keys
            && at[0] == Place(0, Ordinary(0, 1, true, []), 1) && at[1] == Place(1, Ordinary(1, 0, true, [9]), 4)
            && at[4] == Place(5, Ordinary(0, 1, true, []), 5) && at[5] == Place(6, Ordinary(1, 0, true, [8]), 8)
            && at[8] == Place(3, Ordinary(0, 0, false, []), 9)
  {
    var code, refs := FallsOut(), Refs();
    NoPanic(next);
    WholeCode();
    Offsets();
    FallsOutAccepted();
    hide Accepted, Refs, TargetsInRange, Offset, NewPlace, TargetsFound, Emit, TargetRef, FallsOut, Encodable, PlacesTo;
    forall k | k in {0, 1, 4, 5, 7} ensures !refs[k].flag.Skip? && TargetsFound(code, refs, next, k) {
      AtRef(k);
    }
    NewPlaceIs(next, 0);
    NewPlaceIs(next, 1);
    NewPlaceIs(next, 4);
    NewPlaceIs(next, 5);
    ReturnPlaceIs(next);
    PlaceAt(code, refs, next, 9, 0);
    PlaceAt(code, refs, next, 9, 1);
    PlaceAt(code, refs, next, 9, 4);
    PlaceAt(code, refs, next, 9, 5);
    PlaceAt(code, refs, next, 9, 7);
  }

  // ----- the two runs -----

  /** To the call, into the subroutine and through it to the return at 7. */
  function FallOut(): seq<Label> {
    [Done(0, 1), Done(1, 0), Silent, Silent, Done(5, 1), Done(6, 0), Done(7, 0)]
  }

  lemma OldPlaces()
    ensures var at := Original(FallsOut()).at;
            && {0, 1, 2, 4, 5, 6, 7} <= at.Keys
            && at[0] == Place(0, Ordinary(0, 1, true, []), 1) && at[1] == Place(1, Ordinary(1, 0, true, [7]), 2)
            && at[2] == Place(2, Jsr(4), 3) && at[4] == Place(4, Astore(0), 5) && at[5] == Place(5, Ordinary(0, 1, true, []), 6)
            && at[6] == Place(6, Ordinary(1, 0, true, [8]), 7) && at[7] == Place(7, Ordinary(0, 0, false, []), 8)
  {
  }

  lemma OldSteps(arguments: seq<Value>)
    requires |arguments| == 1 && AllData(arguments)
    ensures var p, a := Original(FallsOut()), arguments[0 := JsrMachine.Address(2)];
            && Step(Traced(), p, Running(0, [], arguments, 0), Done(0, 1)) == Running(1, [Data(0)], arguments, 0)
            && Step(Traced(), p, Running(1, [Data(0)], arguments, 0), Done(1, 0)) == Running(2, [], arguments, 1)
            && Step(Traced(), p, Running(2, [], arguments, 1), Silent) == Running(4, [JsrMachine.Address(2)], arguments, 1)
            && Step(Traced(), p, Running(4, [JsrMachine.Address(2)], arguments, 1), Silent) == Running(5, [], a, 1)
            && Step(Traced(), p, Running(5, [], a, 1), Done(5, 1)) == Running(6, [Data(0)], a, 5)
            && Step(Traced(), p, Running(6, [Data(0)], a, 5), Done(6, 0)) == Running(7, [], a, 6)
            && Step(Traced(), p, Running(7, [], a, 6), Done(7, 0)) == Halted([], 7)
  {
    var p, a := Original(FallsOut()), arguments[0 := JsrMachine.Address(2)];
    OldPlaces();
    hide FallsOut, Step, Original, Done;
    OrdinaryStep(p, Running(0, [], arguments, 0), 0, 1, 0);
    OrdinaryStep(p, Running(1, [Data(0)], arguments, 0), 1, 0, 1);
    CallStep(p, Running(2, [], arguments, 1));
    AstoreStep(Traced(), p, Running(4, [JsrMachine.Address(2)], arguments, 1));
    OrdinaryStep(p, Running(5, [], a, 1), 0, 1, 5);
    OrdinaryStep(p, Running(6, [Data(0)], a, 5), 1, 0, 6);
    LastStep(p, Running(7, [], a, 6), 7);
  }

  lemma OldRun(arguments: seq<Value>)
    requires |arguments| == 1 && AllData(arguments)
    ensures Run(Traced(), Original(FallsOut()), Running(0, [], arguments, 0), FallOut()) == Halted([], 7)
  {
    OldSteps(arguments);
    hide Run, Step, Original, FallsOut, Done, Traced;
    var p, a := Original(FallsOut()), arguments[0 := JsrMachine.Address(2)];
    var one := [Done(7, 0)];
    var two := [Done(6, 0)] + one;
    var three := [Done(5, 1)] + two;
    var four := [Silent] + three;
    var five := [Silent] + four;
    var six := [Done(1, 0)] + five;
    assert FallOut() == [Done(0, 1)] + six;
    OneStep(p, Running(0, [], arguments, 0), Done(0, 1), Running(1, [Data(0)], arguments, 0), six);
    OneStep(p, Running(1, [Data(0)], arguments, 0), Done(1, 0), Running(2, [], arguments, 1), five);
    OneStep(p, Running(2, [], arguments, 1), Silent, Running(4, [JsrMachine.Address(2)], arguments, 1), four);
    OneStep(p, Running(4, [JsrMachine.Address(2)], arguments, 1), Silent, Running(5, [], a, 1), three);
    OneStep(p, Running(5, [], a, 1), Done(5, 1), Running(6, [Data(0)], a, 5), two);
    OneStep(p, Running(6, [Data(0)], a, 5), Done(6, 0), Running(7, [], a, 6), one);
    assert one == one + [];
    OneStep(p, Running(7, [], a, 6), Done(7, 0), Halted([], 7), []);
    NoLabels(p, Halted([], 7));
  }

  function LastEvents(): seq<Event> {
    [Done(5, 1).event] + ([Done(6, 0).event] + [Done(7, 0).event])
  }

  lemma FallOutEvents()
    ensures Events(FallOut()) == [Done(0, 1).event] + ([Done(1, 0).event] + LastEvents())
  {
    var three := [Done(5, 1), Done(6, 0), Done(7, 0)];
    assert three[1..] == [Done(6, 0), Done(7, 0)] && three[1..][1..] == [Done(7, 0)];
    assert Events(three) == LastEvents();
    var five := [Silent, Silent] + three;
    assert five[1..] == [Silent] + three && five[1..][1..] == three;
    assert Events(five) == Events(three);
    assert FallOut() == [Done(0, 1), Done(1, 0)] + five && FallOut()[1..] == [Done(1, 0)] + five && FallOut()[1..][1..] == five;
  }

  lemma NewSteps(q: Program, next: map<seq<nat>, nat>, locals: seq<Value>)
    requires Found(FallsOut(), next) && Encodable(FallsOut()) && q == NewProgram(FallsOut(), next)
    ensures {0, 1, 4, 5, 8} <= q.at.Keys && q.at[0].op.Plain? && q.at[1].op.Plain?
    ensures q.at[4].op.Plain? && q.at[5].op.Plain? && q.at[8].op.Plain?
    ensures Step(Traced(), q, Running(0, [], locals, 0), Done(0, 1)) == Running(1, [Data(0)], locals, 0)
    ensures Step(Traced(), q, Running(1, [Data(0)], locals, 0), Done(1, 0)) == Running(4, [], locals, 1)
    ensures Step(Traced(), q, Running(4, [], locals, 1), Done(5, 1)) == Running(5, [Data(0)], locals, 5)
    ensures Step(Traced(), q, Running(5, [Data(0)], locals, 5), Done(6, 0)) == Running(8, [], locals, 6)
    ensures Step(Traced(), q, Running(8, [], locals, 6), Done(7, 0)) == Stuck
  {
    NewAt(next);
    hide FallsOut, Step, NewProgram, Found, Encodable, Done;
    OrdinaryStep(q, Running(0, [], locals, 0), 0, 1, 0);
    OrdinaryStep(q, Running(1, [Data(0)], locals, 0), 1, 0, 1);
    OrdinaryStep(q, Running(4, [], locals, 1), 0, 1, 5);
    OrdinaryStep(q, Running(5, [Data(0)], locals, 5), 1, 0, 6);
    AnotherReturn(q, Running(8, [], locals, 6));
  }

  lemma AnotherReturn(p: Program, s: State)
    requires s.Running? && s.pc in p.at && p.at[s.pc] == Place(3, Ordinary(0, 0, false, []), 9)
    ensures Step(Traced(), p, s, Done(7, 0)) == Stuck
  {
  }

  /** From the copy of the subroutine on: what was the return at 7 is now the one at 3. */
  lemma NewRunEnds(q: Program, s2: State, s3: State, s4: State, others: seq<Label>)
    requires s2.Running? && s2.pc in q.at && q.at[s2.pc].op.Plain? && s3.Running? && s3.pc in q.at && q.at[s3.pc].op.Plain?
    requires s4.Running? && s4.pc in q.at && q.at[s4.pc].op.Plain?
    requires Step(Traced(), q, s2, Done(5, 1)) == s3 && Step(Traced(), q, s3, Done(6, 0)) == s4 && Step(Traced(), q, s4, Done(7, 0)) == Stuck
    requires Events(others) == LastEvents()
    ensures Run(Traced(), q, s2, others) == Stuck
  {
    var last := [Done(7, 0).event];
    assert LastEvents() == [Done(5, 1).event] + ([Done(6, 0).event] + last);
    hide *;
    NextEvent(Traced(), q, s2, others, Done(5, 1).event, [Done(6, 0).event] + last);
    if Run(Traced(), q, s2, others) != Stuck {
      NextEvent(Traced(), q, s3, others[1..], Done(6, 0).event, last);
      assert last == [Done(7, 0).event] + [];
      NextEvent(Traced(), q, s4, others[1..][1..], Done(7, 0).event, []);
      StuckRuns(Traced(), q, others[1..][1..][1..]);
    }
  }

  lemma NewRun(next: map<seq<nat>, nat>, arguments: seq<Value>, others: seq<Label>)
    requires |arguments| == 1 && AllData(arguments) && Events(others) == Events(FallOut())
    ensures Found(FallsOut(), next) && Encodable(FallsOut())
    ensures Run(Traced(), NewProgram(FallsOut(), next), Running(0, [], arguments, 0), others) == Stuck
  {
    NoPanic(next);
    FallsOutAccepted();
    FallOutEvents();
    hide *;
    var q := NewProgram(FallsOut(), next);
    NewSteps(q, next, arguments);
    var s0, s1, s2 := Running(0, [], arguments, 0), Running(1, [Data(0)], arguments, 0), Running(4, [], arguments, 1);
    NextEvent(Traced(), q, s0, others, Done(0, 1).event, [Done(1, 0).event] + LastEvents());
    if Run(Traced(), q, s0, others) != Stuck {
      NextEvent(Traced(), q, s1, others[1..], Done(1, 0).event, LastEvents());
      NewRunEnds(q, s2, Running(5, [Data(0)], arguments, 5), Running(8, [], arguments, 6), others[1..][1..]);
    }
  }

  /**
   The verifier accepts the method, all other assumptions hold, and yet a run that falls out
   of the subroutine is no run of the rewritten method: there the code behind the call comes
   next.
   */
  lemma FallThroughIsLost(next: map<seq<nat>, nat>, arguments: seq<Value>)
    requires |arguments| == 1 && AllData(arguments)
    ensures var m, t := FallThroughMethod.FallsOut(), FallThroughMethod.Before(9);
            && Bytecode.Legal(m) && Dataflow.PostFixpoint(m, t) && Dataflow.Replay(m, FallThroughMethod.Turns()) == Dataflow.Running(false, t)
            && RecordedNotes.Fits(m, t, Lengths()) && RecordedNotes.CodeOf(m, t, Lengths()) == FallsOut()
    ensures Accepted(FallsOut()) && Encodable(FallsOut()) && TargetsInRange(FallsOut()) && Found(FallsOut(), next)
    ensures CallsNested(FallsOut()) && BranchesNested(FallsOut()) && RetsInnermost(FallsOut()) && AddressesOnlyStored(FallsOut())
    ensures !FallsNested(FallsOut())
    ensures Run(Traced(), Original(FallsOut()), Running(0, [], arguments, 0), FallOut()) == Halted([], 7)
    ensures forall others | Events(others) == Events(FallOut()) ::
              Run(Traced(), NewProgram(FallsOut(), next), Running(0, [], arguments, 0), others) == Stuck
  {
    FallThroughMethod.IsAnalysed();
    NotesAreRecorded();
    FallsOutAccepted();
    NoPanic(next);
    OldRun(arguments);
    OnlyFalls();
    hide *;
    forall others | Events(others) == Events(FallOut())
      ensures Run(Traced(), NewProgram(FallsOut(), next), Running(0, [], arguments, 0), others) == Stuck
    {
      NewRun(next, arguments, others);
    }
  }
}
