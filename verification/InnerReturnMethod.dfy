/** A method with a return inside an inner finally, and its analysis, turn by turn. */
module InnerReturnMethod {
  import opened Types
  import opened Bytecode
  import opened Merging
  import opened Dataflow
  import opened AnalysisTraces

  /** 0 jsr 3; 1 jsr 9; 2 return; 3 astore 0; 4 getstatic; 5 ifeq 8; 6 jsr 9; 7 return; 8 ret 0;
   9 astore 1; 10 invokestatic; 11 ret 1. */
  function InnerReturn(): (m: Method)
    ensures |m.code| == 12 && m.handlers == []
  {
    Method([Jsr(3), Jsr(9), ReturnVoid, Store(KRef, 0), GetStatic(Integer), Branch(OneInt, 8), Jsr(9), ReturnVoid, Ret(0),
      Store(KRef, 1), Invoke(InvokeStatic, OBJECT, [], None), Ret(1)],
           [], NoReceiver, [], Void, OBJECT, None, OBJECT, 1, 2)
  }

  lemma Parts()
    ensures var m := InnerReturn();
            && |m.code| == 12 && m.handlers == [] && m.maxStack == 1 && m.maxLocals == 2 && m.returnType.Void?
            && m.receiver == NoReceiver && m.params == [] && m.current == OBJECT
            && m.code[0] == Jsr(3) && m.code[1] == Jsr(9) && m.code[2] == ReturnVoid
            && m.code[3] == Store(KRef, 0) && m.code[4] == GetStatic(Integer) && m.code[5] == Branch(OneInt, 8)
            && m.code[6] == Jsr(9) && m.code[7] == ReturnVoid && m.code[8] == Ret(0)
            && m.code[9] == Store(KRef, 1) && m.code[10] == Invoke(InvokeStatic, OBJECT, [], None) && m.code[11] == Ret(1)
  {
  }

  lemma OperandsAreLegal(i: nat)
    requires i < 12
    ensures LegalOperands(InnerReturn(), InnerReturn().code[i])
  {
    Parts();
    hide InnerReturn;
  }

  lemma IsLegal()
    ensures Legal(InnerReturn())
  {
    Parts();
    hide InnerReturn, LegalOperands;
    forall i | 0 <= i < 12 ensures LegalOperands(InnerReturn(), InnerReturn().code[i]) {
      OperandsAreLegal(i);
    }
    assert RegistersOf([]) == [];
  }

  /** What comes to be recorded; version 0 is nothing. */
  function VersionOf(i: nat, version: nat): (r: Record)
    ensures !r.changed
  {
    if version == 0 then Unseen()
    else match i
      case 0 => Recorded([], [], [], if version == 1 then None else Some(8))
      case 1 => Recorded([], [ReturnAddress(3)], [], if version == 1 then None else Some(11))
      case 2 => Recorded([], [ReturnAddress(3), ReturnAddress(9)], if version == 1 then [Mask(3, {0, 1})] else [], None)
      case 3 => Recorded([ReturnAddress(3)], [], [Mask(3, {})], None)
      case 4 => Recorded([], [ReturnAddress(3)], [Mask(3, {0})], None)
      case 5 => Recorded([Integer], [ReturnAddress(3)], [Mask(3, {0})], None)
      case 6 => Recorded([], [ReturnAddress(3)], [Mask(3, {0})], if version == 1 then None else Some(11))
      case 7 => Recorded([], [ReturnAddress(3), ReturnAddress(9)], if version == 1 then [Mask(3, {0, 1})] else [], None)
      case 8 => Recorded([], [ReturnAddress(3)], [Mask(3, {0})], None)
      case 9 => Recorded([ReturnAddress(9)], [ReturnAddress(3)],
        if version == 1 then [Mask(3, {0}), Mask(9, {})] else [Mask(9, {})], None)
      case 10 => Recorded([], [ReturnAddress(3), ReturnAddress(9)],
        if version == 1 then [Mask(3, {0, 1}), Mask(9, {1})] else [Mask(9, {1})], None)
      case _ => Recorded([], [ReturnAddress(3), ReturnAddress(9)],
        if version == 1 then [Mask(3, {0, 1}), Mask(9, {1})] else [Mask(9, {1})], None)
  }

  /** The table before the n-th turn. */
  function Before(n: nat): (t: Table)
    ensures |t| == 12
  {
    match n
    case 0 => Stage(VersionOf, [1, 0, 0, 0, 0, 0, 0, 0, 0, 0, 0, 0], {0})
    case 1 => Stage(VersionOf, [1, 0, 0, 1, 0, 0, 0, 0, 0, 0, 0, 0], {3})
    case 2 => Stage(VersionOf, [1, 0, 0, 1, 1, 0, 0, 0, 0, 0, 0, 0], {4})
    case 3 => Stage(VersionOf, [1, 0, 0, 1, 1, 1, 0, 0, 0, 0, 0, 0], {5})
    case 4 => Stage(VersionOf, [1, 0, 0, 1, 1, 1, 1, 0, 1, 0, 0, 0], {6, 8})
    case 5 => Stage(VersionOf, [1, 0, 0, 1, 1, 1, 1, 0, 1, 1, 0, 0], {8, 9})
    case 6 => Stage(VersionOf, [2, 1, 0, 1, 1, 1, 1, 0, 1, 1, 0, 0], {1, 9})
    case 7 => Stage(VersionOf, [2, 1, 0, 1, 1, 1, 1, 0, 1, 1, 1, 0], {1, 10})
    case 8 => Stage(VersionOf, [2, 1, 0, 1, 1, 1, 1, 0, 1, 1, 1, 1], {1, 11})
    case 9 => Stage(VersionOf, [2, 2, 1, 1, 1, 1, 2, 1, 1, 1, 1, 1], {1, 2, 7})
    case 10 => Stage(VersionOf, [2, 2, 1, 1, 1, 1, 2, 1, 1, 2, 1, 1], {2, 7, 9, 11})
    case 11 => Stage(VersionOf, [2, 2, 1, 1, 1, 1, 2, 1, 1, 2, 1, 1], {7, 9, 11})
    case 12 => Stage(VersionOf, [2, 2, 1, 1, 1, 1, 2, 1, 1, 2, 1, 1], {9, 11})
    case 13 => Stage(VersionOf, [2, 2, 1, 1, 1, 1, 2, 1, 1, 2, 2, 1], {10, 11})
    case 14 => Stage(VersionOf, [2, 2, 1, 1, 1, 1, 2, 1, 1, 2, 2, 2], {11})
    case 15 => Stage(VersionOf, [2, 2, 2, 1, 1, 1, 2, 2, 1, 2, 2, 2], {2, 7})
    case 16 => Stage(VersionOf, [2, 2, 2, 1, 1, 1, 2, 2, 1, 2, 2, 2], {7})
    case _ => Stage(VersionOf, [2, 2, 2, 1, 1, 1, 2, 2, 1, 2, 2, 2], {})
  }

  lemma Starts()
    ensures Before(0) == InitialTable(InnerReturn())
  {
    var t, u := InitialTable(InnerReturn()), Before(0);
    assert RegistersOf([]) == [] && EntryRegisters(InnerReturn()) == [];
    forall i | 0 <= i < 12 ensures t[i] == u[i] {
      StageAt(VersionOf, [1, 0, 0, 0, 0, 0, 0, 0, 0, 0, 0, 0], {0}, i);
      assert i > 0 ==> [1, 0, 0, 0, 0, 0, 0, 0, 0, 0, 0, 0][i] == 0;
    }
  }

  lemma CallsAt3()
    ensures CallsOf(InnerReturn(), 3, 12) == [0]
  {
    hide InnerReturn, CallsOf;
    var m := InnerReturn();
    Parts();
    CallAt(m, 3, 0);
    NoCallBetween(m, 3, 1, 12);
    NoCalls(m, 3);
  }

  lemma CallsAt9()
    ensures CallsOf(InnerReturn(), 9, 12) == [6, 1]
  {
    hide InnerReturn, CallsOf;
    var m := InnerReturn();
    Parts();
    NoCallBetween(m, 9, 0, 1);
    CallAt(m, 9, 1);
    NoCallBetween(m, 9, 2, 6);
    CallAt(m, 9, 6);
    NoCallBetween(m, 9, 7, 12);
    NoCalls(m, 9);
  }

  lemma Turn0(t: Table)
    requires t == Stage(VersionOf, [1, 0, 0, 0, 0, 0, 0, 0, 0, 0, 0, 0], {0}) && TableOk(InnerReturn(), t)
    ensures Makes(InnerReturn(), t, 0, Stage(VersionOf, [1, 0, 0, 1, 0, 0, 0, 0, 0, 0, 0, 0], {3}))
  {
    hide InnerReturn, Legal, TableOk, Execute, MergeRecord, Forget, Touch, SetRegister, Stage, MergeMasks;
    var m, f, out := InnerReturn(), VersionOf(0, 1).frame.value, Frame([ReturnAddress(3)], [], [Mask(3, {})]);
    assert m.code[0] == Jsr(3) && |m.code| == 12 && m.handlers == [] && m.maxStack == 1 && m.returnType.Void? by {
      Parts();
    }
    IsLegal();
    CallsSubroutine(m, 0, f);
    assert f.masks + [Mask(3, {})] == out.masks;
    NothingForgotten(m.code[0], out);
    Arrives(VersionOf(3, 0), Flow(3, out, Reached()));
    StageSends(m, VersionOf, [1, 0, 0, 0, 0, 0, 0, 0, 0, 0, 0, 0], {0}, 0, out, 3, 1);
    assert [1, 0, 0, 0, 0, 0, 0, 0, 0, 0, 0, 0][3 := 1] == [1, 0, 0, 1, 0, 0, 0, 0, 0, 0, 0, 0];
    assert {0} - {0} + {} + {3} == {3};
  }

  lemma Turn1(t: Table)
    requires t == Stage(VersionOf, [1, 0, 0, 1, 0, 0, 0, 0, 0, 0, 0, 0], {3}) && TableOk(InnerReturn(), t)
    ensures Makes(InnerReturn(), t, 3, Stage(VersionOf, [1, 0, 0, 1, 1, 0, 0, 0, 0, 0, 0, 0], {4}))
  {
    hide InnerReturn, Legal, TableOk, Execute, MergeRecord, Forget, Touch, SetRegister, Stage, MergeMasks;
    var m, f, out := InnerReturn(), VersionOf(3, 1).frame.value, Frame([], [ReturnAddress(3)], [Mask(3, {0})]);
    assert m.code[3] == Store(KRef, 0) && |m.code| == 12 && m.handlers == [] && m.maxStack == 1 && m.returnType.Void? by {
      Parts();
    }
    IsLegal();
    StoresAddress(m, 3, f, 3);
    Stored(f.regs, 0, out.regs, ReturnAddress(3));
    Touches(f.masks, 0, out.masks);
    NothingForgotten(m.code[3], out);
    Arrives(VersionOf(4, 0), Flow(4, out, Reached()));
    StageSends(m, VersionOf, [1, 0, 0, 1, 0, 0, 0, 0, 0, 0, 0, 0], {3}, 3, out, 4, 1);
    assert [1, 0, 0, 1, 0, 0, 0, 0, 0, 0, 0, 0][4 := 1] == [1, 0, 0, 1, 1, 0, 0, 0, 0, 0, 0, 0];
    assert {3} - {3} + {} + {4} == {4};
  }

  lemma Turn2(t: Table)
    requires t == Stage(VersionOf, [1, 0, 0, 1, 1, 0, 0, 0, 0, 0, 0, 0], {4}) && TableOk(InnerReturn(), t)
    ensures Makes(InnerReturn(), t, 4, Stage(VersionOf, [1, 0, 0, 1, 1, 1, 0, 0, 0, 0, 0, 0], {5}))
  {
    hide InnerReturn, Legal, TableOk, Execute, MergeRecord, Forget, Touch, SetRegister, Stage, MergeMasks;
    var m, f, out := InnerReturn(), VersionOf(4, 1).frame.value, Frame([Integer], [ReturnAddress(3)], [Mask(3, {0})]);
    assert m.code[4] == GetStatic(Integer) && |m.code| == 12 && m.handlers == [] && m.maxStack == 1 && m.returnType.Void? by {
      Parts();
    }
    IsLegal();
    PushesInt(m, 4, f);
    NothingForgotten(m.code[4], out);
    Arrives(VersionOf(5, 0), Flow(5, out, Reached()));
    StageSends(m, VersionOf, [1, 0, 0, 1, 1, 0, 0, 0, 0, 0, 0, 0], {4}, 4, out, 5, 1);
    assert [1, 0, 0, 1, 1, 0, 0, 0, 0, 0, 0, 0][5 := 1] == [1, 0, 0, 1, 1, 1, 0, 0, 0, 0, 0, 0];
    assert {4} - {4} + {} + {5} == {5};
  }

  lemma Turn3(t: Table)
    requires t == Stage(VersionOf, [1, 0, 0, 1, 1, 1, 0, 0, 0, 0, 0, 0], {5}) && TableOk(InnerReturn(), t)
    ensures Makes(InnerReturn(), t, 5, Stage(VersionOf, [1, 0, 0, 1, 1, 1, 1, 0, 1, 0, 0, 0], {6, 8}))
  {
    hide InnerReturn, Legal, TableOk, Execute, MergeRecord, Forget, Touch, SetRegister, Stage, MergeMasks;
    var m, f, out := InnerReturn(), VersionOf(5, 1).frame.value, Frame([], [ReturnAddress(3)], [Mask(3, {0})]);
    assert m.code[5] == Branch(OneInt, 8) && |m.code| == 12 && m.handlers == [] && m.maxStack == 1 && m.returnType.Void? by {
      Parts();
    }
    IsLegal();
    PopsInt(m, 5, f);
    NothingForgotten(m.code[5], out);
    Arrives(VersionOf(6, 0), Flow(6, out, Reached()));
    Arrives(VersionOf(8, 0), Flow(8, out, Reached()));
    StageSendsTwo(m, VersionOf, [1, 0, 0, 1, 1, 1, 0, 0, 0, 0, 0, 0], {5}, 5, out, 6, 1, 8, 1);
    assert [1, 0, 0, 1, 1, 1, 0, 0, 0, 0, 0, 0][6 := 1][8 := 1] == [1, 0, 0, 1, 1, 1, 1, 0, 1, 0, 0, 0];
    assert {5} - {5} + {6} + {8} == {6, 8};
  }

  lemma Turn4(t: Table)
    requires t == Stage(VersionOf, [1, 0, 0, 1, 1, 1, 1, 0, 1, 0, 0, 0], {6, 8}) && TableOk(InnerReturn(), t)
    ensures Makes(InnerReturn(), t, 6, Stage(VersionOf, [1, 0, 0, 1, 1, 1, 1, 0, 1, 1, 0, 0], {8, 9}))
  {
    hide InnerReturn, Legal, TableOk, Execute, MergeRecord, Forget, Touch, SetRegister, Stage, MergeMasks;
    var m, f, out := InnerReturn(), VersionOf(6, 1).frame.value,
      Frame([ReturnAddress(9)], [ReturnAddress(3)], [Mask(3, {0}), Mask(9, {})]);
    assert m.code[6] == Jsr(9) && |m.code| == 12 && m.handlers == [] && m.maxStack == 1 && m.returnType.Void? by {
      Parts();
    }
    IsLegal();
    CallsSubroutine(m, 6, f);
    assert f.masks + [Mask(9, {})] == out.masks;
    NothingForgotten(m.code[6], out);
    Arrives(VersionOf(9, 0), Flow(9, out, Reached()));
    StageSends(m, VersionOf, [1, 0, 0, 1, 1, 1, 1, 0, 1, 0, 0, 0], {6, 8}, 6, out, 9, 1);
    assert [1, 0, 0, 1, 1, 1, 1, 0, 1, 0, 0, 0][9 := 1] == [1, 0, 0, 1, 1, 1, 1, 0, 1, 1, 0, 0];
    assert {6, 8} - {6} + {} + {9} == {8, 9};
  }

  lemma Turn5Behind0()
    ensures ReturnTo(Stage(VersionOf, [1, 0, 0, 1, 1, 1, 1, 0, 1, 1, 0, 0], {9}),
        Returning(8, 3, Frame([], [ReturnAddress(3)], [Mask(3, {0})]), Reached()), 0)
            == Some(Stage(VersionOf, [2, 1, 0, 1, 1, 1, 1, 0, 1, 1, 0, 0], {1, 9}))
  {
    hide MergeRecord, Stage, Touch, SetRegister;
    var x, back := Returning(8, 3, Frame([], [ReturnAddress(3)], [Mask(3, {0})]), Reached()), Frame([], [ReturnAddress(3)], []);
    ReturnJoins(x.out, [], 3, back);
    Arrives(VersionOf(1, 0), Flow(1, back, Reached()));
    StageReturns(VersionOf, [1, 0, 0, 1, 1, 1, 1, 0, 1, 1, 0, 0], {9}, x, 0, 2, back, 1);
    assert [1, 0, 0, 1, 1, 1, 1, 0, 1, 1, 0, 0][0 := 2][1 := 1] == [2, 1, 0, 1, 1, 1, 1, 0, 1, 1, 0, 0];
    assert {9} + {1} == {1, 9};
  }

  lemma Turn5(t: Table)
    requires t == Stage(VersionOf, [1, 0, 0, 1, 1, 1, 1, 0, 1, 1, 0, 0], {8, 9}) && TableOk(InnerReturn(), t)
    ensures Makes(InnerReturn(), t, 8, Stage(VersionOf, [2, 1, 0, 1, 1, 1, 1, 0, 1, 1, 0, 0], {1, 9}))
  {
    hide InnerReturn, Legal, TableOk, Execute, MergeRecord, Forget, Touch, SetRegister, Stage, MergeMasks, ReturnAll, ReturnTo,
      CallsOf, Unmark, Visit;
    var m, f, out := InnerReturn(), VersionOf(8, 1).frame.value, Frame([], [ReturnAddress(3)], [Mask(3, {0})]);
    assert m.code[8] == Ret(0) && |m.code| == 12 && m.handlers == [] && m.maxStack == 1 && m.returnType.Void? by {
      Parts();
    }
    IsLegal();
    ReadsAddress(m, 8, f);
    Touches(f.masks, 0, out.masks);
    NothingForgotten(m.code[8], out);
    CallsAt3();
    StageAt(VersionOf, [1, 0, 0, 1, 1, 1, 1, 0, 1, 1, 0, 0], {8, 9}, 8);
    StageUnmarked(m, VersionOf, [1, 0, 0, 1, 1, 1, 1, 0, 1, 1, 0, 0], {8, 9}, 8);
    assert {8, 9} - {8} + {} == {9};
    var x := Returning(8, 3, out, Reached());
    Turn5Behind0();
    ReturnsOnce(Stage(VersionOf, [1, 0, 0, 1, 1, 1, 1, 0, 1, 1, 0, 0], {9}), x, 0);
    Returned(m, t, 8, out, Stage(VersionOf, [2, 1, 0, 1, 1, 1, 1, 0, 1, 1, 0, 0], {1, 9}));
  }

  lemma Turn6(t: Table)
    requires t == Stage(VersionOf, [2, 1, 0, 1, 1, 1, 1, 0, 1, 1, 0, 0], {1, 9}) && TableOk(InnerReturn(), t)
    ensures Makes(InnerReturn(), t, 9, Stage(VersionOf, [2, 1, 0, 1, 1, 1, 1, 0, 1, 1, 1, 0], {1, 10}))
  {
    hide InnerReturn, Legal, TableOk, Execute, MergeRecord, Forget, Touch, SetRegister, Stage, MergeMasks;
    var m, f, out := InnerReturn(), VersionOf(9, 1).frame.value,
      Frame([], [ReturnAddress(3), ReturnAddress(9)], [Mask(3, {0, 1}), Mask(9, {1})]);
    assert m.code[9] == Store(KRef, 1) && |m.code| == 12 && m.handlers == [] && m.maxStack == 1 && m.returnType.Void? by {
      Parts();
    }
    IsLegal();
    StoresAddress(m, 9, f, 9);
    Stored(f.regs, 1, out.regs, ReturnAddress(9));
    Touches(f.masks, 1, out.masks);
    NothingForgotten(m.code[9], out);
    Arrives(VersionOf(10, 0), Flow(10, out, Reached()));
    StageSends(m, VersionOf, [2, 1, 0, 1, 1, 1, 1, 0, 1, 1, 0, 0], {1, 9}, 9, out, 10, 1);
    assert [2, 1, 0, 1, 1, 1, 1, 0, 1, 1, 0, 0][10 := 1] == [2, 1, 0, 1, 1, 1, 1, 0, 1, 1, 1, 0];
    assert {1, 9} - {9} + {} + {10} == {1, 10};
  }

  lemma Turn7(t: Table)
    requires t == Stage(VersionOf, [2, 1, 0, 1, 1, 1, 1, 0, 1, 1, 1, 0], {1, 10}) && TableOk(InnerReturn(), t)
    ensures Makes(InnerReturn(), t, 10, Stage(VersionOf, [2, 1, 0, 1, 1, 1, 1, 0, 1, 1, 1, 1], {1, 11}))
  {
    hide InnerReturn, Legal, TableOk, Execute, MergeRecord, Forget, Touch, SetRegister, Stage, MergeMasks;
    var m, f, out := InnerReturn(), VersionOf(10, 1).frame.value,
      Frame([], [ReturnAddress(3), ReturnAddress(9)], [Mask(3, {0, 1}), Mask(9, {1})]);
    assert m.code[10] == Invoke(InvokeStatic, OBJECT, [], None) && |m.code| == 12 && m.handlers == [] && m.maxStack == 1
      && m.returnType.Void? by {
      Parts();
    }
    IsLegal();
    LeavesAll(m, 10, f);
    NothingForgotten(m.code[10], out);
    Arrives(VersionOf(11, 0), Flow(11, out, Reached()));
    StageSends(m, VersionOf, [2, 1, 0, 1, 1, 1, 1, 0, 1, 1, 1, 0], {1, 10}, 10, out, 11, 1);
    assert [2, 1, 0, 1, 1, 1, 1, 0, 1, 1, 1, 0][11 := 1] == [2, 1, 0, 1, 1, 1, 1, 0, 1, 1, 1, 1];
    assert {1, 10} - {10} + {} + {11} == {1, 11};
  }

  lemma Turn8Behind6()
    ensures ReturnTo(Stage(VersionOf, [2, 1, 0, 1, 1, 1, 1, 0, 1, 1, 1, 1], {1}),
        Returning(11, 9, Frame([], [ReturnAddress(3), ReturnAddress(9)], [Mask(3, {0, 1}), Mask(9, {1})]), Reached()), 6)
            == Some(Stage(VersionOf, [2, 1, 0, 1, 1, 1, 2, 1, 1, 1, 1, 1], {1, 7}))
  {
    hide MergeRecord, Stage, Touch, SetRegister;
    var x, back := Returning(11, 9, Frame([], [ReturnAddress(3), ReturnAddress(9)], [Mask(3, {0, 1}), Mask(9, {1})]), Reached()),
      Frame([], [ReturnAddress(3), ReturnAddress(9)], [Mask(3, {0, 1})]);
    ReturnJoins(x.out, [ReturnAddress(3)], 9, back);
    Arrives(VersionOf(7, 0), Flow(7, back, Reached()));
    StageReturns(VersionOf, [2, 1, 0, 1, 1, 1, 1, 0, 1, 1, 1, 1], {1}, x, 6, 2, back, 1);
    assert [2, 1, 0, 1, 1, 1, 1, 0, 1, 1, 1, 1][6 := 2][7 := 1] == [2, 1, 0, 1, 1, 1, 2, 1, 1, 1, 1, 1];
    assert {1} + {7} == {1, 7};
  }

  lemma Turn8Behind1()
    ensures ReturnTo(Stage(VersionOf, [2, 1, 0, 1, 1, 1, 2, 1, 1, 1, 1, 1], {1, 7}),
        Returning(11, 9, Frame([], [ReturnAddress(3), ReturnAddress(9)], [Mask(3, {0, 1}), Mask(9, {1})]), Reached()), 1)
            == Some(Stage(VersionOf, [2, 2, 1, 1, 1, 1, 2, 1, 1, 1, 1, 1], {1, 2, 7}))
  {
    hide MergeRecord, Stage, Touch, SetRegister;
    var x, back := Returning(11, 9, Frame([], [ReturnAddress(3), ReturnAddress(9)], [Mask(3, {0, 1}), Mask(9, {1})]), Reached()),
      Frame([], [ReturnAddress(3), ReturnAddress(9)], [Mask(3, {0, 1})]);
    ReturnJoins(x.out, [ReturnAddress(3)], 9, back);
    Arrives(VersionOf(2, 0), Flow(2, back, Reached()));
    StageReturns(VersionOf, [2, 1, 0, 1, 1, 1, 2, 1, 1, 1, 1, 1], {1, 7}, x, 1, 2, back, 1);
    assert [2, 1, 0, 1, 1, 1, 2, 1, 1, 1, 1, 1][1 := 2][2 := 1] == [2, 2, 1, 1, 1, 1, 2, 1, 1, 1, 1, 1];
    assert {1, 7} + {2} == {1, 2, 7};
  }

  lemma Turn8(t: Table)
    requires t == Stage(VersionOf, [2, 1, 0, 1, 1, 1, 1, 0, 1, 1, 1, 1], {1, 11}) && TableOk(InnerReturn(), t)
    ensures Makes(InnerReturn(), t, 11, Stage(VersionOf, [2, 2, 1, 1, 1, 1, 2, 1, 1, 1, 1, 1], {1, 2, 7}))
  {
    hide InnerReturn, Legal, TableOk, Execute, MergeRecord, Forget, Touch, SetRegister, Stage, MergeMasks, ReturnAll, ReturnTo,
      CallsOf, Unmark, Visit;
    var m, f, out := InnerReturn(), VersionOf(11, 1).frame.value,
      Frame([], [ReturnAddress(3), ReturnAddress(9)], [Mask(3, {0, 1}), Mask(9, {1})]);
    assert m.code[11] == Ret(1) && |m.code| == 12 && m.handlers == [] && m.maxStack == 1 && m.returnType.Void? by {
      Parts();
    }
    IsLegal();
    ReadsAddress(m, 11, f);
    Touches(f.masks, 1, out.masks);
    NothingForgotten(m.code[11], out);
    CallsAt9();
    StageAt(VersionOf, [2, 1, 0, 1, 1, 1, 1, 0, 1, 1, 1, 1], {1, 11}, 11);
    StageUnmarked(m, VersionOf, [2, 1, 0, 1, 1, 1, 1, 0, 1, 1, 1, 1], {1, 11}, 11);
    assert {1, 11} - {11} + {} == {1};
    var x := Returning(11, 9, out, Reached());
    Turn8Behind6();
    Turn8Behind1();
    ReturnsTwice(Stage(VersionOf, [2, 1, 0, 1, 1, 1, 1, 0, 1, 1, 1, 1], {1}), x, 6, 1,
      Stage(VersionOf, [2, 1, 0, 1, 1, 1, 2, 1, 1, 1, 1, 1], {1, 7}));
    Returned(m, t, 11, out, Stage(VersionOf, [2, 2, 1, 1, 1, 1, 2, 1, 1, 1, 1, 1], {1, 2, 7}));
  }

  lemma Turn9(t: Table)
    requires t == Stage(VersionOf, [2, 2, 1, 1, 1, 1, 2, 1, 1, 1, 1, 1], {1, 2, 7}) && TableOk(InnerReturn(), t)
    ensures Makes(InnerReturn(), t, 1, Stage(VersionOf, [2, 2, 1, 1, 1, 1, 2, 1, 1, 2, 1, 1], {2, 7, 9, 11}))
  {
    hide InnerReturn, Legal, TableOk, Execute, MergeRecord, Forget, Touch, SetRegister, Stage, MergeMasks;
    var m, f, out := InnerReturn(), VersionOf(1, 2).frame.value, Frame([ReturnAddress(9)], [ReturnAddress(3)], [Mask(9, {})]);
    assert m.code[1] == Jsr(9) && |m.code| == 12 && m.handlers == [] && m.maxStack == 1 && m.returnType.Void? by {
      Parts();
    }
    IsLegal();
    CallsSubroutine(m, 1, f);
    assert f.masks + [Mask(9, {})] == out.masks;
    NothingForgotten(m.code[1], out);
    DropsOuter(Mask(3, {0}), Mask(9, {}));
    ArrivesWithFewer(VersionOf(9, 1), Flow(9, out, Reached()), out.stack, out.regs, [Mask(3, {0}), Mask(9, {})], [Mask(9, {})]);
    StageSends(m, VersionOf, [2, 2, 1, 1, 1, 1, 2, 1, 1, 1, 1, 1], {1, 2, 7}, 1, out, 9, 2);
    assert [2, 2, 1, 1, 1, 1, 2, 1, 1, 1, 1, 1][9 := 2] == [2, 2, 1, 1, 1, 1, 2, 1, 1, 2, 1, 1];
    assert {1, 2, 7} - {1} + {11} + {9} == {2, 7, 9, 11};
  }

  lemma Turn10(t: Table)
    requires t == Stage(VersionOf, [2, 2, 1, 1, 1, 1, 2, 1, 1, 2, 1, 1], {2, 7, 9, 11}) && TableOk(InnerReturn(), t)
    ensures Makes(InnerReturn(), t, 2, Stage(VersionOf, [2, 2, 1, 1, 1, 1, 2, 1, 1, 2, 1, 1], {7, 9, 11}))
  {
    hide InnerReturn, Legal, TableOk, Execute, MergeRecord, Forget, Touch, SetRegister, Stage, MergeMasks;
    var m, f, out := InnerReturn(), VersionOf(2, 1).frame.value,
      Frame([], [ReturnAddress(3), ReturnAddress(9)], [Mask(3, {0, 1})]);
    assert m.code[2] == ReturnVoid && |m.code| == 12 && m.handlers == [] && m.maxStack == 1 && m.returnType.Void? by {
      Parts();
    }
    IsLegal();
    LeavesAll(m, 2, f);
    NothingForgotten(m.code[2], out);
    StageKeeps(m, VersionOf, [2, 2, 1, 1, 1, 1, 2, 1, 1, 2, 1, 1], {2, 7, 9, 11}, 2, out);
    assert {2, 7, 9, 11} - {2} + {} == {7, 9, 11};
  }

  lemma Turn11(t: Table)
    requires t == Stage(VersionOf, [2, 2, 1, 1, 1, 1, 2, 1, 1, 2, 1, 1], {7, 9, 11}) && TableOk(InnerReturn(), t)
    ensures Makes(InnerReturn(), t, 7, Stage(VersionOf, [2, 2, 1, 1, 1, 1, 2, 1, 1, 2, 1, 1], {9, 11}))
  {
    hide InnerReturn, Legal, TableOk, Execute, MergeRecord, Forget, Touch, SetRegister, Stage, MergeMasks;
    var m, f, out := InnerReturn(), VersionOf(7, 1).frame.value,
      Frame([], [ReturnAddress(3), ReturnAddress(9)], [Mask(3, {0, 1})]);
    assert m.code[7] == ReturnVoid && |m.code| == 12 && m.handlers == [] && m.maxStack == 1 && m.returnType.Void? by {
      Parts();
    }
    IsLegal();
    LeavesAll(m, 7, f);
    NothingForgotten(m.code[7], out);
    StageKeeps(m, VersionOf, [2, 2, 1, 1, 1, 1, 2, 1, 1, 2, 1, 1], {7, 9, 11}, 7, out);
    assert {7, 9, 11} - {7} + {} == {9, 11};
  }

  lemma Turn12(t: Table)
    requires t == Stage(VersionOf, [2, 2, 1, 1, 1, 1, 2, 1, 1, 2, 1, 1], {9, 11}) && TableOk(InnerReturn(), t)
    ensures Makes(InnerReturn(), t, 9, Stage(VersionOf, [2, 2, 1, 1, 1, 1, 2, 1, 1, 2, 2, 1], {10, 11}))
  {
    hide InnerReturn, Legal, TableOk, Execute, MergeRecord, Forget, Touch, SetRegister, Stage, MergeMasks;
    var m, f, out := InnerReturn(), VersionOf(9, 2).frame.value, Frame([], [ReturnAddress(3), ReturnAddress(9)], [Mask(9, {1})]);
    assert m.code[9] == Store(KRef, 1) && |m.code| == 12 && m.handlers == [] && m.maxStack == 1 && m.returnType.Void? by {
      Parts();
    }
    IsLegal();
    StoresAddress(m, 9, f, 9);
    Stored(f.regs, 1, out.regs, ReturnAddress(9));
    Touches(f.masks, 1, out.masks);
    NothingForgotten(m.code[9], out);
    DropsOuter(Mask(3, {0, 1}), Mask(9, {1}));
    ArrivesWithFewer(VersionOf(10, 1), Flow(10, out, Reached()), out.stack, out.regs, [Mask(3, {0, 1}), Mask(9, {1})],
      [Mask(9, {1})]);
    StageSends(m, VersionOf, [2, 2, 1, 1, 1, 1, 2, 1, 1, 2, 1, 1], {9, 11}, 9, out, 10, 2);
    assert [2, 2, 1, 1, 1, 1, 2, 1, 1, 2, 1, 1][10 := 2] == [2, 2, 1, 1, 1, 1, 2, 1, 1, 2, 2, 1];
    assert {9, 11} - {9} + {} + {10} == {10, 11};
  }

  lemma Turn13(t: Table)
    requires t == Stage(VersionOf, [2, 2, 1, 1, 1, 1, 2, 1, 1, 2, 2, 1], {10, 11}) && TableOk(InnerReturn(), t)
    ensures Makes(InnerReturn(), t, 10, Stage(VersionOf, [2, 2, 1, 1, 1, 1, 2, 1, 1, 2, 2, 2], {11}))
  {
    hide InnerReturn, Legal, TableOk, Execute, MergeRecord, Forget, Touch, SetRegister, Stage, MergeMasks;
    var m, f, out := InnerReturn(), VersionOf(10, 2).frame.value, Frame([], [ReturnAddress(3), ReturnAddress(9)], [Mask(9, {1})]);
    assert m.code[10] == Invoke(InvokeStatic, OBJECT, [], None) && |m.code| == 12 && m.handlers == [] && m.maxStack == 1
      && m.returnType.Void? by {
      Parts();
    }
    IsLegal();
    LeavesAll(m, 10, f);
    NothingForgotten(m.code[10], out);
    DropsOuter(Mask(3, {0, 1}), Mask(9, {1}));
    ArrivesWithFewer(VersionOf(11, 1).(changed := true), Flow(11, out, Reached()), out.stack, out.regs,
      [Mask(3, {0, 1}), Mask(9, {1})], [Mask(9, {1})]);
    StageSends(m, VersionOf, [2, 2, 1, 1, 1, 1, 2, 1, 1, 2, 2, 1], {10, 11}, 10, out, 11, 2);
    assert [2, 2, 1, 1, 1, 1, 2, 1, 1, 2, 2, 1][11 := 2] == [2, 2, 1, 1, 1, 1, 2, 1, 1, 2, 2, 2];
    assert {10, 11} - {10} + {} + {11} == {11};
  }

  lemma Turn14Behind6()
    ensures ReturnTo(Stage(VersionOf, [2, 2, 1, 1, 1, 1, 2, 1, 1, 2, 2, 2], {}),
        Returning(11, 9, Frame([], [ReturnAddress(3), ReturnAddress(9)], [Mask(9, {1})]), Reached()), 6)
            == Some(Stage(VersionOf, [2, 2, 1, 1, 1, 1, 2, 2, 1, 2, 2, 2], {7}))
  {
    hide MergeRecord, Stage, Touch, SetRegister;
    var x, back := Returning(11, 9, Frame([], [ReturnAddress(3), ReturnAddress(9)], [Mask(9, {1})]), Reached()),
      Frame([], [ReturnAddress(3), ReturnAddress(9)], []);
    ReturnJoins(x.out, [ReturnAddress(3)], 9, back);
    DropsAll([Mask(3, {0, 1})]);
    ArrivesWithFewer(VersionOf(7, 1), Flow(7, back, Reached()), [], [ReturnAddress(3), ReturnAddress(9)], [Mask(3, {0, 1})], []);
    StageReturns(VersionOf, [2, 2, 1, 1, 1, 1, 2, 1, 1, 2, 2, 2], {}, x, 6, 2, back, 2);
    assert [2, 2, 1, 1, 1, 1, 2, 1, 1, 2, 2, 2][6 := 2][7 := 2] == [2, 2, 1, 1, 1, 1, 2, 2, 1, 2, 2, 2];
    assert {} + {7} == {7};
  }

  lemma Turn14Behind1()
    ensures ReturnTo(Stage(VersionOf, [2, 2, 1, 1, 1, 1, 2, 2, 1, 2, 2, 2], {7}),
        Returning(11, 9, Frame([], [ReturnAddress(3), ReturnAddress(9)], [Mask(9, {1})]), Reached()), 1)
            == Some(Stage(VersionOf, [2, 2, 2, 1, 1, 1, 2, 2, 1, 2, 2, 2], {2, 7}))
  {
    hide MergeRecord, Stage, Touch, SetRegister;
    var x, back := Returning(11, 9, Frame([], [ReturnAddress(3), ReturnAddress(9)], [Mask(9, {1})]), Reached()),
      Frame([], [ReturnAddress(3), ReturnAddress(9)], []);
    ReturnJoins(x.out, [ReturnAddress(3)], 9, back);
    DropsAll([Mask(3, {0, 1})]);
    ArrivesWithFewer(VersionOf(2, 1), Flow(2, back, Reached()), [], [ReturnAddress(3), ReturnAddress(9)], [Mask(3, {0, 1})], []);
    StageReturns(VersionOf, [2, 2, 1, 1, 1, 1, 2, 2, 1, 2, 2, 2], {7}, x, 1, 2, back, 2);
    assert [2, 2, 1, 1, 1, 1, 2, 2, 1, 2, 2, 2][1 := 2][2 := 2] == [2, 2, 2, 1, 1, 1, 2, 2, 1, 2, 2, 2];
    assert {7} + {2} == {2, 7};
  }

  lemma Turn14(t: Table)
    requires t == Stage(VersionOf, [2, 2, 1, 1, 1, 1, 2, 1, 1, 2, 2, 2], {11}) && TableOk(InnerReturn(), t)
    ensures Makes(InnerReturn(), t, 11, Stage(VersionOf, [2, 2, 2, 1, 1, 1, 2, 2, 1, 2, 2, 2], {2, 7}))
  {
    hide InnerReturn, Legal, TableOk, Execute, MergeRecord, Forget, Touch, SetRegister, Stage, MergeMasks, ReturnAll, ReturnTo,
      CallsOf, Unmark, Visit;
    var m, f, out := InnerReturn(), VersionOf(11, 2).frame.value, Frame([], [ReturnAddress(3), ReturnAddress(9)], [Mask(9, {1})]);
    assert m.code[11] == Ret(1) && |m.code| == 12 && m.handlers == [] && m.maxStack == 1 && m.returnType.Void? by {
      Parts();
    }
    IsLegal();
    ReadsAddress(m, 11, f);
    Touches(f.masks, 1, out.masks);
    NothingForgotten(m.code[11], out);
    CallsAt9();
    StageAt(VersionOf, [2, 2, 1, 1, 1, 1, 2, 1, 1, 2, 2, 2], {11}, 11);
    StageUnmarked(m, VersionOf, [2, 2, 1, 1, 1, 1, 2, 1, 1, 2, 2, 2], {11}, 11);
    assert {11} - {11} + {} == {};
    var x := Returning(11, 9, out, Reached());
    Turn14Behind6();
    Turn14Behind1();
    ReturnsTwice(Stage(VersionOf, [2, 2, 1, 1, 1, 1, 2, 1, 1, 2, 2, 2], {}), x, 6, 1,
      Stage(VersionOf, [2, 2, 1, 1, 1, 1, 2, 2, 1, 2, 2, 2], {7}));
    Returned(m, t, 11, out, Stage(VersionOf, [2, 2, 2, 1, 1, 1, 2, 2, 1, 2, 2, 2], {2, 7}));
  }

  lemma Turn15(t: Table)
    requires t == Stage(VersionOf, [2, 2, 2, 1, 1, 1, 2, 2, 1, 2, 2, 2], {2, 7}) && TableOk(InnerReturn(), t)
    ensures Makes(InnerReturn(), t, 2, Stage(VersionOf, [2, 2, 2, 1, 1, 1, 2, 2, 1, 2, 2, 2], {7}))
  {
    hide InnerReturn, Legal, TableOk, Execute, MergeRecord, Forget, Touch, SetRegister, Stage, MergeMasks;
    var m, f, out := InnerReturn(), VersionOf(2, 2).frame.value, Frame([], [ReturnAddress(3), ReturnAddress(9)], []);
    assert m.code[2] == ReturnVoid && |m.code| == 12 && m.handlers == [] && m.maxStack == 1 && m.returnType.Void? by {
      Parts();
    }
    IsLegal();
    LeavesAll(m, 2, f);
    NothingForgotten(m.code[2], out);
    StageKeeps(m, VersionOf, [2, 2, 2, 1, 1, 1, 2, 2, 1, 2, 2, 2], {2, 7}, 2, out);
    assert {2, 7} - {2} + {} == {7};
  }

  lemma Turn16(t: Table)
    requires t == Stage(VersionOf, [2, 2, 2, 1, 1, 1, 2, 2, 1, 2, 2, 2], {7}) && TableOk(InnerReturn(), t)
    ensures Makes(InnerReturn(), t, 7, Stage(VersionOf, [2, 2, 2, 1, 1, 1, 2, 2, 1, 2, 2, 2], {}))
  {
    hide InnerReturn, Legal, TableOk, Execute, MergeRecord, Forget, Touch, SetRegister, Stage, MergeMasks;
    var m, f, out := InnerReturn(), VersionOf(7, 2).frame.value, Frame([], [ReturnAddress(3), ReturnAddress(9)], []);
    assert m.code[7] == ReturnVoid && |m.code| == 12 && m.handlers == [] && m.maxStack == 1 && m.returnType.Void? by {
      Parts();
    }
    IsLegal();
    LeavesAll(m, 7, f);
    NothingForgotten(m.code[7], out);
    StageKeeps(m, VersionOf, [2, 2, 2, 1, 1, 1, 2, 2, 1, 2, 2, 2], {7}, 7, out);
    assert {7} - {7} + {} == {};
  }

  // ----- the whole analysis -----

  /** In the order of the sweeps. */
  function Turns(): seq<Turn> {
    [At(0), At(3), At(4), At(5), At(6), At(8), At(9), At(10), At(11), At(1), At(2), At(7), At(9), At(10), At(11), At(2), At(7)]
  }

  lemma To0()
    ensures Consistent(InnerReturn(), false, Before(0), Turns()[..0]) && TableOk(InnerReturn(), Before(0))
  {
    hide *;
    IsLegal();
    Starts();
    FirstTurn(InnerReturn());
    InitialTableOk(InnerReturn());
    assert Turns()[..0] == [];
  }

  lemma To5()
    ensures Consistent(InnerReturn(), false, Before(5), Turns()[..5]) && TableOk(InnerReturn(), Before(5))
  {
    hide Consistent, TableOk, Stage, InnerReturn, Makes;
    var m := InnerReturn();
    To0();
    Turn0(Before(0));
    NextTurn(m, Before(0), Turns()[..0], 0, Before(1));
    assert Turns()[..1] == Turns()[..0] + [At(0)];
    Turn1(Before(1));
    NextTurn(m, Before(1), Turns()[..1], 3, Before(2));
    assert Turns()[..2] == Turns()[..1] + [At(3)];
    Turn2(Before(2));
    NextTurn(m, Before(2), Turns()[..2], 4, Before(3));
    assert Turns()[..3] == Turns()[..2] + [At(4)];
    Turn3(Before(3));
    NextTurn(m, Before(3), Turns()[..3], 5, Before(4));
    assert Turns()[..4] == Turns()[..3] + [At(5)];
    Turn4(Before(4));
    NextTurn(m, Before(4), Turns()[..4], 6, Before(5));
    assert Turns()[..5] == Turns()[..4] + [At(6)];
  }

  lemma To10()
    ensures Consistent(InnerReturn(), false, Before(10), Turns()[..10]) && TableOk(InnerReturn(), Before(10))
  {
    hide Consistent, TableOk, Stage, InnerReturn, Makes;
    var m := InnerReturn();
    To5();
    Turn5(Before(5));
    NextTurn(m, Before(5), Turns()[..5], 8, Before(6));
    assert Turns()[..6] == Turns()[..5] + [At(8)];
    Turn6(Before(6));
    NextTurn(m, Before(6), Turns()[..6], 9, Before(7));
    assert Turns()[..7] == Turns()[..6] + [At(9)];
    Turn7(Before(7));
    NextTurn(m, Before(7), Turns()[..7], 10, Before(8));
    assert Turns()[..8] == Turns()[..7] + [At(10)];
    Turn8(Before(8));
    NextTurn(m, Before(8), Turns()[..8], 11, Before(9));
    assert Turns()[..9] == Turns()[..8] + [At(11)];
    Turn9(Before(9));
    NextTurn(m, Before(9), Turns()[..9], 1, Before(10));
    assert Turns()[..10] == Turns()[..9] + [At(1)];
  }

  lemma To15()
    ensures Consistent(InnerReturn(), false, Before(15), Turns()[..15]) && TableOk(InnerReturn(), Before(15))
  {
    hide Consistent, TableOk, Stage, InnerReturn, Makes;
    var m := InnerReturn();
    To10();
    Turn10(Before(10));
    NextTurn(m, Before(10), Turns()[..10], 2, Before(11));
    assert Turns()[..11] == Turns()[..10] + [At(2)];
    Turn11(Before(11));
    NextTurn(m, Before(11), Turns()[..11], 7, Before(12));
    assert Turns()[..12] == Turns()[..11] + [At(7)];
    Turn12(Before(12));
    NextTurn(m, Before(12), Turns()[..12], 9, Before(13));
    assert Turns()[..13] == Turns()[..12] + [At(9)];
    Turn13(Before(13));
    NextTurn(m, Before(13), Turns()[..13], 10, Before(14));
    assert Turns()[..14] == Turns()[..13] + [At(10)];
    Turn14(Before(14));
    NextTurn(m, Before(14), Turns()[..14], 11, Before(15));
    assert Turns()[..15] == Turns()[..14] + [At(11)];
  }

  lemma To17()
    ensures Consistent(InnerReturn(), false, Before(17), Turns()[..17]) && TableOk(InnerReturn(), Before(17))
  {
    hide Consistent, TableOk, Stage, InnerReturn, Makes;
    var m := InnerReturn();
    To15();
    Turn15(Before(15));
    NextTurn(m, Before(15), Turns()[..15], 2, Before(16));
    assert Turns()[..16] == Turns()[..15] + [At(2)];
    Turn16(Before(16));
    NextTurn(m, Before(16), Turns()[..16], 7, Before(17));
    assert Turns()[..17] == Turns()[..16] + [At(7)];
  }

  lemma AllSettled()
    ensures var t := Before(17);
            && (forall i | 0 <= i < 12 :: !t[i].changed && t[i] == VersionOf(i, if i in {0, 1, 2, 6, 7, 9, 10, 11} then 2 else 1))
            && t[0].ret == Some(8) && t[1].ret == Some(11) && t[6].ret == Some(11)
  {
    var t := Before(17);
    forall i | 0 <= i < 12 ensures !t[i].changed && t[i] == VersionOf(i, if i in {0, 1, 2, 6, 7, 9, 10, 11} then 2 else 1) {
      assert [2, 2, 2, 1, 1, 1, 2, 2, 1, 2, 2, 2][i] == if i in {0, 1, 2, 6, 7, 9, 10, 11} then 2 else 1;
    }
  }

  lemma NothingMarked()
    ensures var m, t := InnerReturn(), Before(17);
            && |t| == |m.code| && Turns()[..17] == Turns() && (forall i | 0 <= i < |t| :: !t[i].changed)
            && forall i | 0 <= i < |t| && m.code[i].Jsr? && t[i].flags.reached :: t[i].ret.Some?
  {
    AllSettled();
    Parts();
    hide InnerReturn, Before;
  }

  /** The analysis ends, without a second run, and accepts the method. */
  lemma IsAnalysed()
    ensures Legal(InnerReturn()) && PostFixpoint(InnerReturn(), Before(17)) && Replay(InnerReturn(), Turns())
        == Running(false, Before(17))
  {
    hide *;
    IsLegal();
    NothingMarked();
    To17();
    LastTurn(InnerReturn(), Before(17), Turns());
  }
}
