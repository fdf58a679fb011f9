/** A method whose subroutine is left by ret and by falling through, and its analysis, turn by turn. */
module FallThroughMethod {
  import opened Types
  import opened Bytecode
  import opened Merging
  import opened Dataflow
  import opened AnalysisTraces

  /** 0 iconst_0; 1 ifeq 7; 2 jsr 4; 3 return; 4 astore 0; 5 iconst_0; 6 ifeq 8; 7 return; 8 ret 0. */
  function FallsOut(): (m: Method)
    ensures |m.code| == 9 && m.handlers == []
  {
    Method([Constant(Integer), Branch(OneInt, 7), Jsr(4), ReturnVoid, Store(KRef, 0), Constant(Integer), Branch(OneInt, 8),
      ReturnVoid, Ret(0)],
           [], NoReceiver, [], Void, OBJECT, None, OBJECT, 1, 1)
  }

  lemma Parts()
    ensures var m := FallsOut();
            && |m.code| == 9 && m.handlers == [] && m.maxStack == 1 && m.maxLocals == 1 && m.returnType.Void?
            && m.receiver == NoReceiver && m.params == [] && m.current == OBJECT
            && m.code[0] == Constant(Integer) && m.code[1] == Branch(OneInt, 7) && m.code[2] == Jsr(4)
            && m.code[3] == ReturnVoid && m.code[4] == Store(KRef, 0) && m.code[5] == Constant(Integer)
            && m.code[6] == Branch(OneInt, 8) && m.code[7] == ReturnVoid && m.code[8] == Ret(0)
  {
  }

  lemma OperandsAreLegal(i: nat)
    requires i < 9
    ensures LegalOperands(FallsOut(), FallsOut().code[i])
  {
    Parts();
    hide FallsOut;
  }

  lemma IsLegal()
    ensures Legal(FallsOut())
  {
    Parts();
    hide FallsOut, LegalOperands;
    forall i | 0 <= i < 9 ensures LegalOperands(FallsOut(), FallsOut().code[i]) {
      OperandsAreLegal(i);
    }
    assert RegistersOf([]) == [];
  }

  /** What comes to be recorded; version 0 is nothing. */
  function VersionOf(i: nat, version: nat): (r: Record)
    ensures !r.changed
  {
    if version == 0 then Unseen()
    else match i
      case 0 => Recorded([], [], [], None)
      case 1 => Recorded([Integer], [], [], None)
      case 2 => Recorded([], [], [], if version == 1 then None else Some(8))
      case 3 => Recorded([], [ReturnAddress(4)], [], None)
      case 4 => Recorded([ReturnAddress(4)], [], [Mask(4, {})], None)
      case 5 => Recorded([], [ReturnAddress(4)], [Mask(4, {0})], None)
      case 6 => Recorded([Integer], [ReturnAddress(4)], [Mask(4, {0})], None)
      case 7 => Recorded([], [], [], None)
      case _ => Recorded([], [ReturnAddress(4)], [Mask(4, {0})], None)
  }

  /** The table before the n-th turn. */
  function Before(n: nat): (t: Table)
    ensures |t| == 9
  {
    match n
    case 0 => Stage(VersionOf, [1, 0, 0, 0, 0, 0, 0, 0, 0], {0})
    case 1 => Stage(VersionOf, [1, 1, 0, 0, 0, 0, 0, 0, 0], {1})
    case 2 => Stage(VersionOf, [1, 1, 1, 0, 0, 0, 0, 1, 0], {2, 7})
    case 3 => Stage(VersionOf, [1, 1, 1, 0, 1, 0, 0, 1, 0], {4, 7})
    case 4 => Stage(VersionOf, [1, 1, 1, 0, 1, 1, 0, 1, 0], {5, 7})
    case 5 => Stage(VersionOf, [1, 1, 1, 0, 1, 1, 1, 1, 0], {6, 7})
    case 6 => Stage(VersionOf, [1, 1, 1, 0, 1, 1, 1, 1, 1], {7, 8})
    case 7 => Stage(VersionOf, [1, 1, 1, 0, 1, 1, 1, 1, 1], {8})
    case 8 => Stage(VersionOf, [1, 1, 2, 1, 1, 1, 1, 1, 1], {3})
    case _ => Stage(VersionOf, [1, 1, 2, 1, 1, 1, 1, 1, 1], {})
  }

  lemma Starts()
    ensures Before(0) == InitialTable(FallsOut())
  {
    var t, u := InitialTable(FallsOut()), Before(0);
    assert RegistersOf([]) == [] && EntryRegisters(FallsOut()) == [];
    forall i | 0 <= i < 9 ensures t[i] == u[i] {
      StageAt(VersionOf, [1, 0, 0, 0, 0, 0, 0, 0, 0], {0}, i);
      assert i > 0 ==> [1, 0, 0, 0, 0, 0, 0, 0, 0][i] == 0;
    }
  }

  lemma CallsAt4()
    ensures CallsOf(FallsOut(), 4, 9) == [2]
  {
    hide FallsOut, CallsOf;
    var m := FallsOut();
    Parts();
    NoCallBetween(m, 4, 0, 2);
    CallAt(m, 4, 2);
    NoCallBetween(m, 4, 3, 9);
    NoCalls(m, 4);
  }

  lemma Turn0(t: Table)
    requires t == Stage(VersionOf, [1, 0, 0, 0, 0, 0, 0, 0, 0], {0}) && TableOk(FallsOut(), t)
    ensures Makes(FallsOut(), t, 0, Stage(VersionOf, [1, 1, 0, 0, 0, 0, 0, 0, 0], {1}))
  {
    hide FallsOut, Legal, TableOk, Execute, MergeRecord, Forget, Touch, SetRegister, Stage, MergeMasks;
    var m, f, out := FallsOut(), VersionOf(0, 1).frame.value, Frame([Integer], [], []);
    assert m.code[0] == Constant(Integer) && |m.code| == 9 && m.handlers == [] && m.maxStack == 1 && m.returnType.Void? by {
      Parts();
    }
    IsLegal();
    PushesInt(m, 0, f);
    NothingForgotten(m.code[0], out);
    Arrives(VersionOf(1, 0), Flow(1, out, Reached()));
    StageSends(m, VersionOf, [1, 0, 0, 0, 0, 0, 0, 0, 0], {0}, 0, out, 1, 1);
    assert [1, 0, 0, 0, 0, 0, 0, 0, 0][1 := 1] == [1, 1, 0, 0, 0, 0, 0, 0, 0];
    assert {0} - {0} + {} + {1} == {1};
  }

  lemma Turn1(t: Table)
    requires t == Stage(VersionOf, [1, 1, 0, 0, 0, 0, 0, 0, 0], {1}) && TableOk(FallsOut(), t)
    ensures Makes(FallsOut(), t, 1, Stage(VersionOf, [1, 1, 1, 0, 0, 0, 0, 1, 0], {2, 7}))
  {
    hide FallsOut, Legal, TableOk, Execute, MergeRecord, Forget, Touch, SetRegister, Stage, MergeMasks;
    var m, f, out := FallsOut(), VersionOf(1, 1).frame.value, Frame([], [], []);
    assert m.code[1] == Branch(OneInt, 7) && |m.code| == 9 && m.handlers == [] && m.maxStack == 1 && m.returnType.Void? by {
      Parts();
    }
    IsLegal();
    PopsInt(m, 1, f);
    NothingForgotten(m.code[1], out);
    Arrives(VersionOf(2, 0), Flow(2, out, Reached()));
    Arrives(VersionOf(7, 0), Flow(7, out, Reached()));
    StageSendsTwo(m, VersionOf, [1, 1, 0, 0, 0, 0, 0, 0, 0], {1}, 1, out, 2, 1, 7, 1);
    assert [1, 1, 0, 0, 0, 0, 0, 0, 0][2 := 1][7 := 1] == [1, 1, 1, 0, 0, 0, 0, 1, 0];
    assert {1} - {1} + {2} + {7} == {2, 7};
  }

  lemma Turn2(t: Table)
    requires t == Stage(VersionOf, [1, 1, 1, 0, 0, 0, 0, 1, 0], {2, 7}) && TableOk(FallsOut(), t)
    ensures Makes(FallsOut(), t, 2, Stage(VersionOf, [1, 1, 1, 0, 1, 0, 0, 1, 0], {4, 7}))
  {
    hide FallsOut, Legal, TableOk, Execute, MergeRecord, Forget, Touch, SetRegister, Stage, MergeMasks;
    var m, f, out := FallsOut(), VersionOf(2, 1).frame.value, Frame([ReturnAddress(4)], [], [Mask(4, {})]);
    assert m.code[2] == Jsr(4) && |m.code| == 9 && m.handlers == [] && m.maxStack == 1 && m.returnType.Void? by {
      Parts();
    }
    IsLegal();
    CallsSubroutine(m, 2, f);
    assert f.masks + [Mask(4, {})] == out.masks;
    NothingForgotten(m.code[2], out);
    Arrives(VersionOf(4, 0), Flow(4, out, Reached()));
    StageSends(m, VersionOf, [1, 1, 1, 0, 0, 0, 0, 1, 0], {2, 7}, 2, out, 4, 1);
    assert [1, 1, 1, 0, 0, 0, 0, 1, 0][4 := 1] == [1, 1, 1, 0, 1, 0, 0, 1, 0];
    assert {2, 7} - {2} + {} + {4} == {4, 7};
  }

  lemma Turn3(t: Table)
    requires t == Stage(VersionOf, [1, 1, 1, 0, 1, 0, 0, 1, 0], {4, 7}) && TableOk(FallsOut(), t)
    ensures Makes(FallsOut(), t, 4, Stage(VersionOf, [1, 1, 1, 0, 1, 1, 0, 1, 0], {5, 7}))
  {
    hide FallsOut, Legal, TableOk, Execute, MergeRecord, Forget, Touch, SetRegister, Stage, MergeMasks;
    var m, f, out := FallsOut(), VersionOf(4, 1).frame.value, Frame([], [ReturnAddress(4)], [Mask(4, {0})]);
    assert m.code[4] == Store(KRef, 0) && |m.code| == 9 && m.handlers == [] && m.maxStack == 1 && m.returnType.Void? by {
      Parts();
    }
    IsLegal();
    StoresAddress(m, 4, f, 4);
    Stored(f.regs, 0, out.regs, ReturnAddress(4));
    Touches(f.masks, 0, out.masks);
    NothingForgotten(m.code[4], out);
    Arrives(VersionOf(5, 0), Flow(5, out, Reached()));
    StageSends(m, VersionOf, [1, 1, 1, 0, 1, 0, 0, 1, 0], {4, 7}, 4, out, 5, 1);
    assert [1, 1, 1, 0, 1, 0, 0, 1, 0][5 := 1] == [1, 1, 1, 0, 1, 1, 0, 1, 0];
    assert {4, 7} - {4} + {} + {5} == {5, 7};
  }

  lemma Turn4(t: Table)
    requires t == Stage(VersionOf, [1, 1, 1, 0, 1, 1, 0, 1, 0], {5, 7}) && TableOk(FallsOut(), t)
    ensures Makes(FallsOut(), t, 5, Stage(VersionOf, [1, 1, 1, 0, 1, 1, 1, 1, 0], {6, 7}))
  {
    hide FallsOut, Legal, TableOk, Execute, MergeRecord, Forget, Touch, SetRegister, Stage, MergeMasks;
    var m, f, out := FallsOut(), VersionOf(5, 1).frame.value, Frame([Integer], [ReturnAddress(4)], [Mask(4, {0})]);
    assert m.code[5] == Constant(Integer) && |m.code| == 9 && m.handlers == [] && m.maxStack == 1 && m.returnType.Void? by {
      Parts();
    }
    IsLegal();
    PushesInt(m, 5, f);
    NothingForgotten(m.code[5], out);
    Arrives(VersionOf(6, 0), Flow(6, out, Reached()));
    StageSends(m, VersionOf, [1, 1, 1, 0, 1, 1, 0, 1, 0], {5, 7}, 5, out, 6, 1);
    assert [1, 1, 1, 0, 1, 1, 0, 1, 0][6 := 1] == [1, 1, 1, 0, 1, 1, 1, 1, 0];
    assert {5, 7} - {5} + {} + {6} == {6, 7};
  }

  lemma Turn5(t: Table)
    requires t == Stage(VersionOf, [1, 1, 1, 0, 1, 1, 1, 1, 0], {6, 7}) && TableOk(FallsOut(), t)
    ensures Makes(FallsOut(), t, 6, Stage(VersionOf, [1, 1, 1, 0, 1, 1, 1, 1, 1], {7, 8}))
  {
    hide FallsOut, Legal, TableOk, Execute, MergeRecord, Forget, Touch, SetRegister, Stage, MergeMasks;
    var m, f, out := FallsOut(), VersionOf(6, 1).frame.value, Frame([], [ReturnAddress(4)], [Mask(4, {0})]);
    assert m.code[6] == Branch(OneInt, 8) && |m.code| == 9 && m.handlers == [] && m.maxStack == 1 && m.returnType.Void? by {
      Parts();
    }
    IsLegal();
    PopsInt(m, 6, f);
    NothingForgotten(m.code[6], out);
    ArrivesBelow(VersionOf(7, 1).(changed := true), Flow(7, out, Reached()));
    Arrives(VersionOf(8, 0), Flow(8, out, Reached()));
    StageSendsTwo(m, VersionOf, [1, 1, 1, 0, 1, 1, 1, 1, 0], {6, 7}, 6, out, 7, 1, 8, 1);
    assert [1, 1, 1, 0, 1, 1, 1, 1, 0][7 := 1][8 := 1] == [1, 1, 1, 0, 1, 1, 1, 1, 1];
    assert {6, 7} - {6} + {7} + {8} == {7, 8};
  }

  lemma Turn6(t: Table)
    requires t == Stage(VersionOf, [1, 1, 1, 0, 1, 1, 1, 1, 1], {7, 8}) && TableOk(FallsOut(), t)
    ensures Makes(FallsOut(), t, 7, Stage(VersionOf, [1, 1, 1, 0, 1, 1, 1, 1, 1], {8}))
  {
    hide FallsOut, Legal, TableOk, Execute, MergeRecord, Forget, Touch, SetRegister, Stage, MergeMasks;
    var m, f, out := FallsOut(), VersionOf(7, 1).frame.value, Frame([], [], []);
    assert m.code[7] == ReturnVoid && |m.code| == 9 && m.handlers == [] && m.maxStack == 1 && m.returnType.Void? by {
      Parts();
    }
    IsLegal();
    LeavesAll(m, 7, f);
    NothingForgotten(m.code[7], out);
    StageKeeps(m, VersionOf, [1, 1, 1, 0, 1, 1, 1, 1, 1], {7, 8}, 7, out);
    assert {7, 8} - {7} + {} == {8};
  }

  lemma Turn7Behind2()
    ensures ReturnTo(Stage(VersionOf, [1, 1, 1, 0, 1, 1, 1, 1, 1], {}),
        Returning(8, 4, Frame([], [ReturnAddress(4)], [Mask(4, {0})]), Reached()), 2)
            == Some(Stage(VersionOf, [1, 1, 2, 1, 1, 1, 1, 1, 1], {3}))
  {
    hide MergeRecord, Stage, Touch, SetRegister;
    var x, back := Returning(8, 4, Frame([], [ReturnAddress(4)], [Mask(4, {0})]), Reached()), Frame([], [ReturnAddress(4)], []);
    ReturnJoins(x.out, [], 4, back);
    Arrives(VersionOf(3, 0), Flow(3, back, Reached()));
    StageReturns(VersionOf, [1, 1, 1, 0, 1, 1, 1, 1, 1], {}, x, 2, 2, back, 1);
    assert [1, 1, 1, 0, 1, 1, 1, 1, 1][2 := 2][3 := 1] == [1, 1, 2, 1, 1, 1, 1, 1, 1];
    assert {} + {3} == {3};
  }

  lemma Turn7(t: Table)
    requires t == Stage(VersionOf, [1, 1, 1, 0, 1, 1, 1, 1, 1], {8}) && TableOk(FallsOut(), t)
    ensures Makes(FallsOut(), t, 8, Stage(VersionOf, [1, 1, 2, 1, 1, 1, 1, 1, 1], {3}))
  {
    hide FallsOut, Legal, TableOk, Execute, MergeRecord, Forget, Touch, SetRegister, Stage, MergeMasks, ReturnAll, ReturnTo,
      CallsOf, Unmark, Visit;
    var m, f, out := FallsOut(), VersionOf(8, 1).frame.value, Frame([], [ReturnAddress(4)], [Mask(4, {0})]);
    assert m.code[8] == Ret(0) && |m.code| == 9 && m.handlers == [] && m.maxStack == 1 && m.returnType.Void? by {
      Parts();
    }
    IsLegal();
    ReadsAddress(m, 8, f);
    Touches(f.masks, 0, out.masks);
    NothingForgotten(m.code[8], out);
    CallsAt4();
    StageAt(VersionOf, [1, 1, 1, 0, 1, 1, 1, 1, 1], {8}, 8);
    StageUnmarked(m, VersionOf, [1, 1, 1, 0, 1, 1, 1, 1, 1], {8}, 8);
    assert {8} - {8} + {} == {};
    var x := Returning(8, 4, out, Reached());
    Turn7Behind2();
    ReturnsOnce(Stage(VersionOf, [1, 1, 1, 0, 1, 1, 1, 1, 1], {}), x, 2);
    Returned(m, t, 8, out, Stage(VersionOf, [1, 1, 2, 1, 1, 1, 1, 1, 1], {3}));
  }

  lemma Turn8(t: Table)
    requires t == Stage(VersionOf, [1, 1, 2, 1, 1, 1, 1, 1, 1], {3}) && TableOk(FallsOut(), t)
    ensures Makes(FallsOut(), t, 3, Stage(VersionOf, [1, 1, 2, 1, 1, 1, 1, 1, 1], {}))
  {
    hide FallsOut, Legal, TableOk, Execute, MergeRecord, Forget, Touch, SetRegister, Stage, MergeMasks;
    var m, f, out := FallsOut(), VersionOf(3, 1).frame.value, Frame([], [ReturnAddress(4)], []);
    assert m.code[3] == ReturnVoid && |m.code| == 9 && m.handlers == [] && m.maxStack == 1 && m.returnType.Void? by {
      Parts();
    }
    IsLegal();
    LeavesAll(m, 3, f);
    NothingForgotten(m.code[3], out);
    StageKeeps(m, VersionOf, [1, 1, 2, 1, 1, 1, 1, 1, 1], {3}, 3, out);
    assert {3} - {3} + {} == {};
  }

  // ----- the whole analysis -----

  /** In the order of the sweeps. */
  function Turns(): seq<Turn> {
    [At(0), At(1), At(2), At(4), At(5), At(6), At(7), At(8), At(3)]
  }

  lemma To0()
    ensures Consistent(FallsOut(), false, Before(0), Turns()[..0]) && TableOk(FallsOut(), Before(0))
  {
    hide *;
    IsLegal();
    Starts();
    FirstTurn(FallsOut());
    InitialTableOk(FallsOut());
    assert Turns()[..0] == [];
  }

  lemma To5()
    ensures Consistent(FallsOut(), false, Before(5), Turns()[..5]) && TableOk(FallsOut(), Before(5))
  {
    hide Consistent, TableOk, Stage, FallsOut, Makes;
    var m := FallsOut();
    To0();
    Turn0(Before(0));
    NextTurn(m, Before(0), Turns()[..0], 0, Before(1));
    assert Turns()[..1] == Turns()[..0] + [At(0)];
    Turn1(Before(1));
    NextTurn(m, Before(1), Turns()[..1], 1, Before(2));
    assert Turns()[..2] == Turns()[..1] + [At(1)];
    Turn2(Before(2));
    NextTurn(m, Before(2), Turns()[..2], 2, Before(3));
    assert Turns()[..3] == Turns()[..2] + [At(2)];
    Turn3(Before(3));
    NextTurn(m, Before(3), Turns()[..3], 4, Before(4));
    assert Turns()[..4] == Turns()[..3] + [At(4)];
    Turn4(Before(4));
    NextTurn(m, Before(4), Turns()[..4], 5, Before(5));
    assert Turns()[..5] == Turns()[..4] + [At(5)];
  }

  lemma To9()
    ensures Consistent(FallsOut(), false, Before(9), Turns()[..9]) && TableOk(FallsOut(), Before(9))
  {
    hide Consistent, TableOk, Stage, FallsOut, Makes;
    var m := FallsOut();
    To5();
    Turn5(Before(5));
    NextTurn(m, Before(5), Turns()[..5], 6, Before(6));
    assert Turns()[..6] == Turns()[..5] + [At(6)];
    Turn6(Before(6));
    NextTurn(m, Before(6), Turns()[..6], 7, Before(7));
    assert Turns()[..7] == Turns()[..6] + [At(7)];
    Turn7(Before(7));
    NextTurn(m, Before(7), Turns()[..7], 8, Before(8));
    assert Turns()[..8] == Turns()[..7] + [At(8)];
    Turn8(Before(8));
    NextTurn(m, Before(8), Turns()[..8], 3, Before(9));
    assert Turns()[..9] == Turns()[..8] + [At(3)];
  }

  lemma AllSettled()
    ensures var t := Before(9);
            && (forall i | 0 <= i < 9 :: !t[i].changed && t[i] == VersionOf(i, if i == 2 then 2 else 1))
            && t[2].ret == Some(8)
  {
    var t := Before(9);
    forall i | 0 <= i < 9 ensures !t[i].changed && t[i] == VersionOf(i, if i == 2 then 2 else 1) {
      assert [1, 1, 2, 1, 1, 1, 1, 1, 1][i] == if i == 2 then 2 else 1;
    }
  }

  lemma NothingMarked()
    ensures var m, t := FallsOut(), Before(9);
            && |t| == |m.code| && Turns()[..9] == Turns() && (forall i | 0 <= i < |t| :: !t[i].changed)
            && forall i | 0 <= i < |t| && m.code[i].Jsr? && t[i].flags.reached :: t[i].ret.Some?
  {
    AllSettled();
    Parts();
    hide FallsOut, Before;
  }

  /** The analysis ends, without a second run, and accepts the method. */
  lemma IsAnalysed()
    ensures Legal(FallsOut()) && PostFixpoint(FallsOut(), Before(9)) && Replay(FallsOut(), Turns()) == Running(false, Before(9))
  {
    hide *;
    IsLegal();
    NothingMarked();
    To9();
    LastTurn(FallsOut(), Before(9), Turns());
  }
}
