/** The rewriting of a whole method (rewriteCode), and what the second verification finds. */
module InlinerPasses {
  import opened JsrMachine
  import opened Inliner
  import opened InlinedCode
  import opened InlinedHandlers
  import opened InlinerSoundness
  import opened HandlerRanges

  /** How rewriteCode ends. */
  datatype Outcome = Made | Panicked | ReadBehind

  /**
   rewriteCode.  It panics exactly when some context has a second ret, or the method a ret
   of its own, or a branch finds no copy of its target; otherwise the result is the program
   that fixupCode lays out.  Code that meets what the inliner takes for granted does not
   make it panic.  A range that ends with the code makes it read behind code_data, and what
   then comes out is not determined.
   */
  method RewriteCode(code: Code) returns (outcome: Outcome, program: Program, newCodeLength: nat, ghost next: map<seq<nat>, nat>)
    requires code.Valid() && Encodable(code) && TargetsInRange(code) && FramesLegal(code)
    ensures outcome.Made? ==> RangesEndInside(code) && Found(code, next) && program == NewProgram(code, next)
    ensures outcome.ReadBehind? ==> !RangesEndInside(code)
    ensures LoneRets(code, []) ==> Continuations(code, next)
    ensures outcome.Panicked? <==> !LoneRets(code, []) || !Found(code, next)
    ensures Inlinable(code) ==> outcome == if RangesEndInside(code) then Made else ReadBehind
    ensures Inlinable(code) && outcome.Made? ==> program == Rewritten(code, next)
    ensures outcome.Made? ==> newCodeLength == Offset(code, Emit(code, []), |Emit(code, [])|)
  {
    hide Inlinable, Emit, Encodable, TargetsInRange, Offset, PlacesTo, NewTable, RangesEndInside, LoneRets;
    outcome, program, newCodeLength := Panicked, Program(map[], []), 0;
    var rewriter := new Rewriter(code);
    var ok := rewriter.RewriteOneSubroutine([]);
    next := rewriter.nextInstruction;
    HasLoneRets(code);
    if !ok {
      return;
    }
    var refs := rewriter.refs;
    assert refs == Emit(code, []);
    RefsInCode(code);
    var at;
    ok, at, newCodeLength := FixupCode(code, refs, rewriter.mapping, rewriter.nextInstruction);
    DoesNotPanic(code, next);
    if !ok {
      return;
    }
    var offsets, _ := AssignOffsets(code, refs);
    var inBounds, table := FixupExceptionHandlers(code, refs, rewriter.mapping, offsets + [newCodeLength]);
    if !inBounds {
      outcome := ReadBehind;
      return;
    }
    outcome, program := Made, Program(at, table);
  }

  lemma HasLoneRets(code: Code)
    ensures Inlinable(code) ==> LoneRets(code, [])
  {
    if Inlinable(code) {
      InlinableHasOneRet(code);
      OneRetIsLone(code);
    }
  }

  lemma DoesNotPanic(code: Code, next: map<seq<nat>, nat>)
    requires code.Valid() && NextRight(code, next, [], |code.instrs|)
    ensures Inlinable(code) ==>
              Continuations(code, next) && InCode(code, Emit(code, [])) && AllTargetsFound(code, Emit(code, []), next, |Emit(code, [])|)
  {
    if Inlinable(code) {
      NoPanic(code, next);
    }
  }

  // ----- what is left for the next pass -----

  lemma {:induction false} PlacesOnly(code: Code, refs: seq<CodeRef>, next: map<seq<nat>, nat>, n: nat, pc: nat) returns (k: nat)
    requires code.Valid() && Encodable(code) && InCode(code, refs) && n <= |refs| && AllTargetsFound(code, refs, next, n)
    requires pc in PlacesTo(code, refs, next, n)
    ensures k < n && !refs[k].flag.Skip? && Offset(code, refs, k) == pc && PlacesTo(code, refs, next, n)[pc] == NewPlace(code, refs, next, k)
  {
    hide NewPlace, TargetsFound, Offset;
    if !refs[n - 1].flag.Skip? && pc == Offset(code, refs, n - 1) {
      k := n - 1;
    } else {
      k := PlacesOnly(code, refs, next, n - 1, pc);
    }
  }

  /** After a rewriting that does not panic there is neither a jsr nor a ret. */
  lemma NoSubroutinesLeft(code: Code, next: map<seq<nat>, nat>, pc: nat)
    requires code.Valid() && Encodable(code) && Found(code, next) && pc in NewProgram(code, next).at
    ensures !NewProgram(code, next).at[pc].op.Jsr? && !NewProgram(code, next).at[pc].op.Ret?
    ensures pc < Offset(code, Emit(code, []), |Emit(code, [])|)
  {
    var refs := Emit(code, []);
    var k := PlacesOnly(code, refs, next, |refs|, pc);
    OffsetsGrow(code, refs, k, |refs|);
    hide Emit, Jump, TargetRef, TargetsFound, Offset;
  }

  /** An edge of the control-flow graph: to a successor or to a handler in range. */
  ghost predicate Edge(p: Program, a: nat, b: nat) {
    a in p.at &&
    ( (match p.at[a].op
       case Plain(_, _, _, _, _, _) => b in Successors(p.at[a])
       case Goto(t) => b == t
       case Jsr(t) => b == t
       case Ret(_) => false
       case Astore(_) => b == p.at[a].next)
      || exists f :: f in p.table && Covers(f, a) && b == f.handler)
  }

  ghost predicate IsPath(p: Program, path: seq<nat>) {
    path != [] && path[0] == 0 && forall n | 0 <= n < |path| - 1 :: Edge(p, path[n], path[n + 1])
  }

  ghost predicate Reachable(p: Program, a: nat) {
    exists path :: IsPath(p, path) && path[|path| - 1] == a
  }

  lemma ReachableStep(p: Program, a: nat, b: nat)
    requires Reachable(p, a) && Edge(p, a, b)
    ensures Reachable(p, b)
  {
    var path :| IsPath(p, path) && path[|path| - 1] == a;
    var longer := path + [b];
    forall n | 0 <= n < |longer| - 1 ensures Edge(p, longer[n], longer[n + 1]) {
      if n < |path| - 1 {
        assert Edge(p, path[n], path[n + 1]);
      }
    }
    assert IsPath(p, longer);
  }

  /** Code without subroutines: every reached instruction has one copy. */
  predicate Flat(code: Code)
    requires code.Valid()
  {
    forall i | 0 <= i < |code.instrs| ::
      && !code.instrs[i].op.Jsr? && !code.instrs[i].op.Ret? && !StoresReturnAddress(code, i)
      && (code.notes[i].Reached? ==> code.notes[i].context == [])
  }

  lemma FlatContext(code: Code, calls: seq<nat>)
    requires code.Valid() && Flat(code) && Live(code, calls)
    ensures calls == []
  {
    if calls != [] {
      assert false;
    }
  }

  lemma FlatMember(code: Code, i: nat)
    requires code.Valid() && Flat(code) && i < |code.instrs| && Member(code, i, [])
    ensures Position(code, [], i) < |Emit(code, [])|
    ensures Emit(code, [])[Position(code, [], i)] == CodeRef(i, [], Flag.Normal)
  {
    RefAt(code, [], i);
    assert !StoresReturnAddress(code, i);
  }

  function PcOf(code: Code, i: nat): nat
    requires code.Valid() && Flat(code) && i < |code.instrs| && Member(code, i, []) && InCode(code, Emit(code, []))
  {
    FlatMember(code, i);
    Offset(code, Emit(code, []), Position(code, [], i))
  }

  /** An edge between reached instructions is an edge between their copies. */
  lemma EdgeCopied(code: Code, next: map<seq<nat>, nat>, i: nat, j: nat)
    requires Inlinable(code) && Continuations(code, next) && BranchesFit(code, next) && Flat(code) && InCode(code, Emit(code, []))
    requires i < |code.instrs| && Member(code, i, []) && j < |code.instrs| && Member(code, j, []) && Edge(Original(code), i, j)
    ensures Edge(Rewritten(code, next), PcOf(code, i), PcOf(code, j))
  {
    FlatPlace(code, next, i);
    OriginalAt(code, i);
    RewrittenTable(code, next);
    var op := code.instrs[i].op;
    if exists f :: f in code.table && Covers(f, i) && j == f.handler {
      var f :| f in code.table && Covers(f, i) && j == f.handler;
      HandlerEdge(code, next, i, f);
    } else if op.Plain? {
      PlainEdge(code, next, i, j);
    } else if op.Goto? {
      GotoEdge(code, next, i, j);
    } else {
      assert op.Astore?;
      AstoreEdge(code, next, i);
    }
  }

  lemma FlatPlace(code: Code, next: map<seq<nat>, nat>, i: nat)
    requires Inlinable(code) && Continuations(code, next) && BranchesFit(code, next) && Flat(code) && InCode(code, Emit(code, []))
    requires i < |code.instrs| && Member(code, i, [])
    ensures var refs, k := Emit(code, []), Position(code, [], i);
            && k < |refs| && refs[k] == CodeRef(i, [], Flag.Normal) && TargetsFound(code, refs, next, k) && FitsAt(code, refs, next, k)
            && PcOf(code, i) in Rewritten(code, next).at && Rewritten(code, next).at[PcOf(code, i)] == NewPlace(code, refs, next, k)
  {
    FlatMember(code, i);
    NoPanic(code, next);
    var refs, k := Emit(code, []), Position(code, [], i);
    hide Emit, FitsAt, NewPlace, TargetsFound, Flat, Member, Position;
    PlaceAt(code, refs, next, |refs|, k);
  }

  lemma TargetIsPc(code: Code, j: nat)
    requires code.Valid() && Flat(code) && j < |code.instrs| && Member(code, j, []) && InCode(code, Emit(code, []))
    ensures TargetRef(Emit(code, []), [], j) >= 0
    ensures PcOf(code, j) == Offset(code, Emit(code, []), TargetRef(Emit(code, []), [], j))
  {
    MemberSees(code, [], j);
    VisibleCopyIsUnique(code, [], j);
  }

  lemma PlainEdge(code: Code, next: map<seq<nat>, nat>, i: nat, j: nat)
    requires Inlinable(code) && Continuations(code, next) && BranchesFit(code, next) && Flat(code) && InCode(code, Emit(code, []))
    requires i < |code.instrs| && Member(code, i, []) && code.instrs[i].op.Plain? && j < |code.instrs| && Member(code, j, [])
    requires j in Successors(Place(i, code.instrs[i].op, i + 1))
    ensures Edge(Rewritten(code, next), PcOf(code, i), PcOf(code, j))
  {
    FlatPlace(code, next, i);
    PlainReady(code, [], i);
    PlainUses(code, i);
    TargetIsPc(code, j);
    var refs, k := Emit(code, []), Position(code, [], i);
    CopyHasSameSuccessors(code, next, [], i, k);
    NewPlainIs(code, next, k);
    var before, after := Place(i, code.instrs[i].op, i + 1), NewPlace(code, refs, next, k);
    hide Emit, NewPlace, TargetsFound, FitsAt, PcOf, Rewritten, Offset, TargetRef, Inlinable, BranchesFit, Continuations, Flows, PlainOut;
    var c :| 0 <= c < |Successors(before)| && Successors(before)[c] == j;
    assert SuccessorMatches(code, [], i, j, Successors(after)[c]);
    hide Successors;
    assert Successors(after)[c] == PcOf(code, j);
  }

  lemma GotoEdge(code: Code, next: map<seq<nat>, nat>, i: nat, j: nat)
    requires Inlinable(code) && Continuations(code, next) && BranchesFit(code, next) && Flat(code) && InCode(code, Emit(code, []))
    requires i < |code.instrs| && Member(code, i, []) && code.instrs[i].op == Goto(j) && j < |code.instrs| && Member(code, j, [])
    ensures Edge(Rewritten(code, next), PcOf(code, i), PcOf(code, j))
  {
    FlatPlace(code, next, i);
    TargetIsPc(code, j);
    var refs, k := Emit(code, []), Position(code, [], i);
    hide Emit, PcOf, Rewritten, Offset, TargetRef, Inlinable, BranchesFit, Continuations, Jump;
    JumpLands(code, refs, k, TargetRef(refs, [], j), DistanceSize(code.instrs[i]));
  }

  lemma AstoreEdge(code: Code, next: map<seq<nat>, nat>, i: nat)
    requires Inlinable(code) && Continuations(code, next) && BranchesFit(code, next) && Flat(code) && InCode(code, Emit(code, []))
    requires i < |code.instrs| && Member(code, i, []) && code.instrs[i].op.Astore? && Member(code, i + 1, []) && i + 1 < |code.instrs|
    ensures Edge(Rewritten(code, next), PcOf(code, i), PcOf(code, i + 1))
  {
    hide Accepted, Nested, TargetsInRange;
    FlatPlace(code, next, i);
    AstoreIsNoCall(code, i);
    NextCopy(code, [], i);
    hide Emit, Rewritten, Offset, TargetRef, Inlinable, BranchesFit, Continuations;
  }

  lemma HandlerEdge(code: Code, next: map<seq<nat>, nat>, i: nat, f: Frame)
    requires Inlinable(code) && Continuations(code, next) && BranchesFit(code, next) && Flat(code) && InCode(code, Emit(code, []))
    requires i < |code.instrs| && Member(code, i, []) && f in code.table && Covers(f, i)
    requires f.handler < |code.instrs| && Member(code, f.handler, [])
    ensures Edge(Rewritten(code, next), PcOf(code, i), PcOf(code, f.handler))
  {
    FlatPlace(code, next, i);
    FlatMember(code, f.handler);
    RewrittenTable(code, next);
    var refs, k, h := Emit(code, []), Position(code, [], i), Position(code, [], f.handler);
    hide Emit, Rewritten, Offset, Inlinable, BranchesFit, Continuations, Position, NewPlace, TargetsFound, FitsAt, FramesFrom, Member;
    CoveredExactly(code, refs, f, h, k);
    var g :| g in FramesFrom(code, refs, f, h, 0, -1) && Covers(g, Offset(code, refs, k));
    CopiesAre(refs, f.handler);
    InCopiesFrames(code, refs, f, CopiesIn(refs, f.handler), h, g);
    InTable(code, refs, code.table, f, g);
  }

  lemma {:induction false} InCopiesFrames(code: Code, refs: seq<CodeRef>, f: Frame, copies: seq<nat>, h: nat, g: Frame)
    requires code.Valid() && InCode(code, refs) && InBounds(copies, |refs|) && h in copies
    requires g in FramesFrom(code, refs, f, h, 0, -1)
    ensures g in FramesOfCopies(code, refs, f, copies)
  {
    hide FramesFrom, Offset;
    if copies[0] != h {
      InCopiesFrames(code, refs, f, copies[1..], h, g);
    }
  }

  lemma {:induction false} InTable(code: Code, refs: seq<CodeRef>, table: seq<Frame>, f: Frame, g: Frame)
    requires code.Valid() && InCode(code, refs) && f in table && g in FramesOfCopies(code, refs, f, CopiesIn(refs, f.handler))
    ensures g in NewTable(code, refs, table)
  {
    hide FramesOfCopies, Offset;
    if table[0] != f {
      InTable(code, refs, table[1..], f, g);
    }
  }

  lemma {:induction false} PathCopied(code: Code, next: map<seq<nat>, nat>, path: seq<nat>)
    requires Inlinable(code) && Continuations(code, next) && BranchesFit(code, next) && Flat(code) && InCode(code, Emit(code, []))
    requires IsPath(Original(code), path)
    requires forall n | 0 <= n < |path| :: path[n] < |code.instrs| && Member(code, path[n], [])
    ensures Reachable(Rewritten(code, next), PcOf(code, path[|path| - 1]))
    decreases |path|
  {
    hide Accepted, Nested, TargetsInRange, Encodable, BranchesFit, Continuations;
    var q, last := Rewritten(code, next), |path| - 1;
    if last == 0 {
      assert PcOf(code, 0) == 0;
      assert IsPath(q, [0]);
    } else {
      var shorter := path[..last];
      forall n | 0 <= n < |shorter| - 1 ensures Edge(Original(code), shorter[n], shorter[n + 1]) {
        assert Edge(Original(code), path[n], path[n + 1]);
      }
      assert IsPath(Original(code), shorter);
      PathCopied(code, next, shorter);
      assert Edge(Original(code), path[last - 1], path[last]);
      EdgeCopied(code, next, path[last - 1], path[last]);
      hide *;
      ReachableStep(q, PcOf(code, path[last - 1]), PcOf(code, path[last]));
    }
  }

  /**
   Once the verifier has marked exactly the reachable instructions of code without
   subroutines, every instruction of the rewritten code is reachable: the second
   verification has nothing to remove.
   */
  lemma NothingLeftToRemove(code: Code, next: map<seq<nat>, nat>, pc: nat)
    requires Inlinable(code) && Continuations(code, next) && BranchesFit(code, next) && Flat(code)
    requires forall i: nat | i < |code.instrs| :: code.notes[i].Reached? <==> Reachable(Original(code), i)
    requires pc in Rewritten(code, next).at
    ensures Reachable(Rewritten(code, next), pc)
  {
    NoPanic(code, next);
    var refs := Emit(code, []);
    var k := PlacesOnly(code, refs, next, |refs|, pc);
    CopyAt(code, k);
    var i := refs[k].inumber;
    FlatContext(code, refs[k].subroutine);
    FlatMember(code, i);
    var path :| IsPath(Original(code), path) && path[|path| - 1] == i;
    PrefixesReached(code, path);
    PathCopied(code, next, path);
  }

  lemma PrefixesReached(code: Code, path: seq<nat>)
    requires Inlinable(code) && Flat(code) && IsPath(Original(code), path) && path[|path| - 1] < |code.instrs|
    requires forall i: nat | i < |code.instrs| :: code.notes[i].Reached? <==> Reachable(Original(code), i)
    ensures forall n | 0 <= n < |path| :: path[n] < |code.instrs| && Member(code, path[n], [])
  {
    forall n | 0 <= n < |path| ensures path[n] < |code.instrs| && Member(code, path[n], []) {
      if n < |path| - 1 {
        assert Edge(Original(code), path[n], path[n + 1]);
      }
      var some := path[..n + 1];
      forall i | 0 <= i < |some| - 1 ensures Edge(Original(code), some[i], some[i + 1]) {
        assert Edge(Original(code), path[i], path[i + 1]);
      }
      assert IsPath(Original(code), some) && some[n] == path[n];
    }
  }

  // ----- subroutines whose masks are not those of the call -----

  /**
   The subroutine is copied behind the jsr exactly when its recorded masks are those of
   the caller with its own added.  Otherwise the jsr is skipped, and if no other instruction
   has these masks nothing is executed in its place.
   */
  lemma CallInlinedExactly(code: Code, calls: seq<nat>, i: nat)
    requires code.Valid() && Live(code, calls) && Member(code, i, calls) && ReturningJsr(code, i)
    ensures var t := JsrTarget(code, i);
            EntryCopied(code, calls + [i], t) <==> CallNested(code, i)
    ensures (forall n: nat | n < |code.notes| && code.notes[n].Reached? ::
               code.notes[n].context != code.notes[i].context + [JsrTarget(code, i)]) ==>
            FlagOf(code, calls, i) == Skip && Emit(code, calls + [i]) == []
  {
    var t, inner, refs := JsrTarget(code, i), calls + [i], Emit(code, []);
    LiveCall(code, calls, i);
    assert Entries(code, inner) == code.notes[i].context + [t];
    if Member(code, t, inner) {
      RefAt(code, inner, t);
      assert refs[Position(code, inner, t)].inumber == t;
    }
    if k :| 0 <= k < |refs| && refs[k].inumber == t && refs[k].subroutine == inner {
      CopyAt(code, k);
    }
    if forall n: nat | n < |code.notes| && code.notes[n].Reached? :: code.notes[n].context != code.notes[i].context + [t] {
      var f := FirstMember(code, inner, 0);
      MoreMembers(code, inner, 0, |code.instrs|);
    }
  }

  /** The calls are nested exactly when every call has a copy of its subroutine, with its entry, behind it. */
  lemma CallsNestedExactly(code: Code)
    requires code.Valid()
    ensures CallsNested(code) <==> forall calls, i | Live(code, calls) && Member(code, i, calls) && ReturningJsr(code, i) ::
                                     EntryCopied(code, calls + [i], JsrTarget(code, i))
  {
    hide Live, Member, ReturningJsr, Emit;
    forall calls, i | Live(code, calls) && Member(code, i, calls) && ReturningJsr(code, i)
      ensures CallNested(code, i) <==> EntryCopied(code, calls + [i], JsrTarget(code, i))
    {
      CallInlinedExactly(code, calls, i);
    }
    hide CallNested, EntryCopied;
  }

  predicate EntryCopied(code: Code, calls: seq<nat>, t: nat)
    requires code.Valid()
  {
    exists k :: 0 <= k < |Emit(code, [])| && Emit(code, [])[k].inumber == t && Emit(code, [])[k].subroutine == calls
  }

  /** The search for a branch target panics exactly when the recorded masks are not those of an enclosing context. */
  lemma BranchFoundExactly(code: Code, calls: seq<nat>, t: nat)
    requires code.Valid() && Live(code, calls) && t < |code.notes| && code.notes[t].Reached?
    ensures TargetRef(Emit(code, []), calls, t) >= 0 <==> code.notes[t].context <= Entries(code, calls)
  {
    var refs := Emit(code, []);
    if code.notes[t].context <= Entries(code, calls) {
      VisibleCopyIsUnique(code, calls, t);
    }
    if TargetRef(refs, calls, t) >= 0 {
      CopiesAre(refs, t);
      VisibleIsVisible(refs, Copies(refs, t), calls);
      var k := TargetRef(refs, calls, t);
      CopyAt(code, k);
      var home := refs[k].subroutine;
      assert Entries(code, home) <= Entries(code, calls) by {
        assert home == calls[..|home|];
      }
    }
  }

  lemma {:induction false} VisibleIsVisible(refs: seq<CodeRef>, copies: seq<nat>, calls: seq<nat>)
    requires InBounds(copies, |refs|) && FirstVisible(refs, copies, calls) >= 0
    ensures FirstVisible(refs, copies, calls) in copies && refs[FirstVisible(refs, copies, calls)].subroutine <= calls
  {
    if !(refs[copies[0]].subroutine <= calls) {
      VisibleIsVisible(refs, copies[1..], calls);
    }
  }

  /** jsr 2; return; astore 0; ret 0 */
  function OneCall(): Code {
    Code([Instr(Jsr(2), 3, false), Instr(Plain(0, 0, [], [], false, []), 1, false), Instr(Astore(0), 1, false), Instr(Ret(0), 2, false)],
         [Reached([], [], [], map[], true), Reached([], [], [], map[], false),
          Reached([2], [{}], [ReturnTo(2)], map[], false), Reached([2], [{0}], [], map[0 := ReturnTo(2)], false)],
         1, [])
  }

  lemma CallAccepted()
    ensures AcceptedAt(OneCall(), 0) && AcceptedAt(OneCall(), 1)
  {
    var code := OneCall();
    var out := JsrOut(code.notes[0], 2);
    assert out.context[0] == 2 && out.changed[0] == {};
    assert Kept(out.context, out.changed, code.notes[2]);
  }

  lemma SubroutineAccepted()
    ensures AcceptedAt(OneCall(), 2)
  {
    var code := OneCall();
    var out := AstoreOut(code.notes[2], 0);
    assert out.stack == [] && out.registers[0] == ReturnTo(2);
    assert StoredTo([0]) == {0} && out.changed == [{} + StoredTo([0])];
    assert out.context[0] == 2 && out.changed[0] <= {0};
  }

  lemma ReturnAccepted()
    ensures AcceptedAt(OneCall(), 3)
  {
    assert ReturnsFrom(OneCall(), 3, 0) && ReturnArrives(OneCall(), 3, 0, 0);
  }

  lemma OneCallAccepted()
    ensures Accepted(OneCall())
  {
    CallAccepted();
    SubroutineAccepted();
    ReturnAccepted();
    hide AcceptedAt;
  }

  lemma OneCallNested()
    ensures Nested(OneCall())
  {
    hide Live;
    assert CallNested(OneCall(), 0);
    forall calls, i | Live(OneCall(), calls) && Member(OneCall(), i, calls) && ReturningJsr(OneCall(), i) ensures CallNested(OneCall(), i) {
      assert i == 0;
    }
    hide CallsNested, CallNested, Member, ReturningJsr;
  }

  /** The conditions are met by a method with a subroutine. */
  lemma OneCallIsInlinable()
    ensures Inlinable(OneCall())
  {
    OneCallAccepted();
    OneCallNested();
    hide Accepted, Nested;
  }
}
