/**
 The rewriting pass of inlinejsr.c: subroutines are copied once per chain of calls, and
 unreached instructions are dropped.
 */
module Inliner {
  import opened JsrMachine

  datatype Instr = Instr(op: Op, length: nat, isSwitch: bool)

  datatype Kind = Word | ReturnTo(entry: nat)

  /**
   What the verifier has recorded for an instruction.  `context` and `changed` are the
   masks: the entries of the subroutines the instruction is in, outermost first, and the
   registers each of them may have changed.  `hasRet` says of a jsr that a ret was found
   for it.
   */
  datatype Note =
    | Unreached
    | Reached(context: seq<nat>, changed: seq<set<nat>>, stack: seq<Kind>, registers: map<nat, Kind>, hasRet: bool)

  /** A method; the ranges of its exception table are in instruction numbers. */
  datatype Code = Code(instrs: seq<Instr>, notes: seq<Note>, nlocals: nat, table: seq<Frame>) {
    predicate Valid() {
      && 0 < |instrs| == |notes|
      && (forall i | 0 <= i < |instrs| :: instrs[i].length > 0)
    }
  }

  datatype Flag = Normal | Skip | JsrSimpleGoto | JsrTargetedGoto | RetSimpleGoto

  /**
   An instruction of the new code.  A subroutine context is the chain of the jsr
   instructions that lead to it; [] is the method itself.
   */
  datatype CodeRef = CodeRef(inumber: nat, subroutine: seq<nat>, flag: Flag)

  function JsrTarget(code: Code, j: nat): nat {
    if j < |code.instrs| && code.instrs[j].op.Jsr? then code.instrs[j].op.target else 0
  }

  /** The entries of the subroutines along a chain of calls. */
  function Entries(code: Code, calls: seq<nat>): (r: seq<nat>)
    ensures |r| == |calls|
  {
    seq(|calls|, p requires 0 <= p < |calls| => JsrTarget(code, calls[p]))
  }

  predicate Member(code: Code, i: nat, calls: seq<nat>)
    requires code.Valid()
  {
    i < |code.notes| && code.notes[i].Reached? && code.notes[i].context == Entries(code, calls)
  }

  predicate ReturningJsr(code: Code, i: nat)
    requires code.Valid()
  {
    i < |code.instrs| && code.instrs[i].op.Jsr? && code.notes[i].Reached? && code.notes[i].hasRet
  }

  function Deepest(notes: seq<Note>): (d: nat)
    ensures forall i | 0 <= i < |notes| && notes[i].Reached? :: |notes[i].context| <= d
  {
    if notes == [] then 0
    else
      var d, last := Deepest(notes[..|notes| - 1]), notes[|notes| - 1];
      if last.Reached? && |last.context| > d then |last.context| else d
  }

  /** The first instruction from `from` on that belongs to the context, or the code's length. */
  function FirstMember(code: Code, calls: seq<nat>, from: nat): (f: nat)
    requires code.Valid() && from <= |code.instrs|
    ensures from <= f <= |code.instrs|
    ensures f < |code.instrs| ==> Member(code, f, calls)
    ensures forall i: nat | from <= i < f :: !Member(code, i, calls)
    decreases |code.instrs| - from
  {
    if from == |code.instrs| || Member(code, from, calls) then from
    else FirstMember(code, calls, from + 1)
  }

  predicate StoresReturnAddress(code: Code, i: nat)
    requires code.Valid() && i < |code.instrs|
  {
    && code.instrs[i].op.Astore? && code.notes[i].Reached? && code.notes[i].stack != []
    && code.notes[i].stack[|code.notes[i].stack| - 1].ReturnTo?
  }

  /** How an instruction is copied into a context it belongs to. */
  function FlagOf(code: Code, calls: seq<nat>, i: nat): Flag
    requires code.Valid() && i < |code.instrs|
  {
    match code.instrs[i].op
    case Jsr(target) =>
      if !ReturningJsr(code, i) then JsrSimpleGoto
      else
        var first := FirstMember(code, calls + [i], 0);
        if first < |code.instrs| && first != target then JsrTargetedGoto else Skip
    case Ret(_) => if FirstMember(code, calls, i + 1) < |code.instrs| then RetSimpleGoto else Skip
    case Astore(_) => if StoresReturnAddress(code, i) then Skip else Flag.Normal
    case Goto(_) => Flag.Normal
    case Plain(_, _, _, _, _, _) => Flag.Normal
  }

  function Copied(code: Code, calls: seq<nat>, i: nat): CodeRef
    requires code.Valid() && i < |code.instrs|
  {
    CodeRef(i, calls, FlagOf(code, calls, i))
  }

  /** The code generated for the first n instructions in one context. */
  function EmitTo(code: Code, calls: seq<nat>, n: nat): seq<CodeRef>
    requires code.Valid() && n <= |code.instrs|
    decreases Deepest(code.notes) + 1 - |calls|, n
  {
    if n == 0 then [] else EmitTo(code, calls, n - 1) + EmitOne(code, calls, n - 1)
  }

  /** A jsr that returns is followed by a copy of the subroutine it calls. */
  function EmitOne(code: Code, calls: seq<nat>, i: nat): seq<CodeRef>
    requires code.Valid() && i < |code.instrs|
    decreases Deepest(code.notes) + 1 - |calls|, i
  {
    if !Member(code, i, calls) then []
    else if ReturningJsr(code, i) then [Copied(code, calls, i)] + EmitTo(code, calls + [i], |code.instrs|)
    else [Copied(code, calls, i)]
  }

  function Emit(code: Code, calls: seq<nat>): seq<CodeRef>
    requires code.Valid()
  {
    EmitTo(code, calls, |code.instrs|)
  }

  /** A chain of calls that the pass makes a context for. */
  predicate Live(code: Code, calls: seq<nat>)
    requires code.Valid()
    decreases |calls|
  {
    calls == [] ||
      var j, outer := calls[|calls| - 1], calls[..|calls| - 1];
      Live(code, outer) && Member(code, j, outer) && ReturningJsr(code, j)
  }

  /** Where the code of a context starts. */
  function Start(code: Code, calls: seq<nat>): nat
    requires code.Valid() && Live(code, calls)
    decreases |calls|
  {
    if calls == [] then 0
    else
      var j, outer := calls[|calls| - 1], calls[..|calls| - 1];
      Start(code, outer) + |EmitTo(code, outer, j)| + 1
  }

  /** Where the copy of an instruction in a context stands. */
  function Position(code: Code, calls: seq<nat>, i: nat): nat
    requires code.Valid() && Live(code, calls) && i <= |code.instrs|
  {
    Start(code, calls) + |EmitTo(code, calls, i)|
  }

  // ----- the conditions under which the pass panics -----

  predicate ReachedRet(code: Code, i: nat)
    requires code.Valid()
  {
    i < |code.instrs| && code.instrs[i].op.Ret? && code.notes[i].Reached?
  }

  /** Every ret is in a subroutine, and no subroutine context has two. */
  ghost predicate OneRet(code: Code)
    requires code.Valid()
  {
    && (forall i: nat | ReachedRet(code, i) :: code.notes[i].context != [])
    && (forall i: nat, j: nat | ReachedRet(code, i) && ReachedRet(code, j) && code.notes[i].context == code.notes[j].context :: i == j)
  }

  predicate RetIn(code: Code, calls: seq<nat>, i: nat)
    requires code.Valid()
  {
    i < |code.instrs| && Member(code, i, calls) && code.instrs[i].op.Ret?
  }

  /** The context has at most one ret, and the method itself has none. */
  ghost predicate LoneRet(code: Code, calls: seq<nat>)
    requires code.Valid()
  {
    && (calls == [] ==> forall i: nat :: !RetIn(code, calls, i))
    && forall i: nat, j: nat | RetIn(code, calls, i) && RetIn(code, calls, j) :: i == j
  }

  /** So it is for the context and all that are made below it. */
  ghost predicate LoneRets(code: Code, calls: seq<nat>)
    requires code.Valid()
  {
    forall c | Live(code, c) && calls <= c :: LoneRet(code, c)
  }

  /** And for those made for the calls among the first n instructions. */
  ghost predicate LoneCalled(code: Code, calls: seq<nat>, n: nat)
    requires code.Valid()
  {
    forall j | 0 <= j < n && Member(code, j, calls) && ReturningJsr(code, j) :: LoneRets(code, calls + [j])
  }

  lemma {:induction false} LivePrefix(code: Code, c: seq<nat>, n: nat)
    requires code.Valid() && Live(code, c) && n < |c|
    ensures Live(code, c[..n]) && Member(code, c[n], c[..n]) && ReturningJsr(code, c[n])
    decreases |c|
  {
    if n < |c| - 1 {
      LivePrefix(code, c[..|c| - 1], n);
      assert c[..|c| - 1][..n] == c[..n];
    }
  }

  /** The contexts below are those of the calls. */
  lemma LoneFromCalls(code: Code, calls: seq<nat>)
    requires code.Valid() && LoneRet(code, calls) && LoneCalled(code, calls, |code.instrs|)
    ensures LoneRets(code, calls)
  {
    hide Member, LoneRet, ReturningJsr, Live;
    forall c | Live(code, c) && calls <= c ensures LoneRet(code, c) {
      if |c| > |calls| {
        LivePrefix(code, c, |calls|);
        var j := c[|calls|];
        assert c[..|calls|] == calls;
        MemberInCode(code, j, calls);
        assert calls + [j] <= c;
      } else {
        assert c == calls;
      }
    }
  }

  lemma LoneCalledNext(code: Code, calls: seq<nat>, n: nat)
    requires code.Valid() && LoneCalled(code, calls, n)
    requires Member(code, n, calls) && ReturningJsr(code, n) ==> LoneRets(code, calls + [n])
    ensures LoneCalled(code, calls, n + 1)
  {
    hide LoneRets;
  }

  lemma MemberInCode(code: Code, i: nat, calls: seq<nat>)
    requires code.Valid() && Member(code, i, calls)
    ensures i < |code.instrs|
  {
  }

  lemma CallNotLone(code: Code, calls: seq<nat>, j: nat)
    requires code.Valid() && !LoneRets(code, calls + [j])
    ensures !LoneRets(code, calls)
  {
    hide Live, LoneRet;
    var c :| Live(code, c) && calls + [j] <= c && !LoneRet(code, c);
    assert calls <= c;
  }

  lemma NotLone(code: Code, calls: seq<nat>)
    requires code.Valid() && Live(code, calls) && !LoneRet(code, calls)
    ensures !LoneRets(code, calls)
  {
    assert calls <= calls;
  }

  /** When no two rets anywhere have the same masks, no context has two. */
  lemma OneRetIsLone(code: Code)
    requires code.Valid() && OneRet(code)
    ensures LoneRets(code, [])
  {
    forall c | Live(code, c) && [] <= c ensures LoneRet(code, c) {
      forall i: nat | RetIn(code, c, i) ensures ReachedRet(code, i) && code.notes[i].context == Entries(code, c) {}
    }
  }

  // ----- the pass itself -----

  /** The copies of an instruction, latest first, as the mapping lists chain them. */
  function Copies(refs: seq<CodeRef>, inumber: nat): seq<nat> {
    if refs == [] then []
    else
      var k := |refs| - 1;
      (if refs[k].inumber == inumber then [k] else []) + Copies(refs[..k], inumber)
  }

  lemma {:induction false} CopiesOf(refs: seq<CodeRef>, others: seq<CodeRef>, i: nat)
    requires |refs| == |others| && forall k | 0 <= k < |refs| :: refs[k].inumber == others[k].inumber
    ensures Copies(refs, i) == Copies(others, i)
  {
    if refs != [] {
      CopiesOf(refs[..|refs| - 1], others[..|refs| - 1], i);
    }
  }

  lemma CopiesAppend(refs: seq<CodeRef>, ref: CodeRef, i: nat)
    ensures Copies(refs + [ref], i) == (if ref.inumber == i then [|refs|] else []) + Copies(refs, i)
  {
    assert (refs + [ref])[..|refs|] == refs;
  }

  /** subroutineGoto: code of context `from` may continue at a copy in `to`. */
  method SubroutineGoto(from: seq<nat>, to: seq<nat>) returns (visible: bool)
    ensures visible <==> to <= from
  {
    if to == [] || to == from {
      return true;
    } else if from == [] || |to| >= |from| {
      return false;
    }
    var f := from[..|from| - 1];
    while |f| > |to|
      invariant |to| <= |f| && f <= from
    {
      f := f[..|f| - 1];
    }
    return f == to;
  }

  /** matchSubroutine: the recorded entries are those of the chain of calls, innermost first. */
  method MatchSubroutine(code: Code, context: seq<nat>, calls: seq<nat>) returns (matches: bool)
    requires |context| == |calls|
    ensures matches <==> context == Entries(code, calls)
  {
    var i: nat := |calls|;
    while i > 0
      invariant 0 <= i <= |calls|
      invariant forall p | i <= p < |calls| :: context[p] == JsrTarget(code, calls[p])
    {
      if context[i - 1] != JsrTarget(code, calls[i - 1]) {
        return false;
      }
      i := i - 1;
    }
    return true;
  }

  class Rewriter {
    const code: Code
    var refs: seq<CodeRef>
    var mapping: seq<seq<nat>>
    /** For every finished subroutine context the index of what follows it. */
    var nextInstruction: map<seq<nat>, nat>

    constructor (code: Code)
      requires code.Valid()
      ensures this.code == code && refs == [] && nextInstruction == map[] && Mapped()
    {
      this.code := code;
      refs, nextInstruction := [], map[];
      mapping := seq(|code.instrs|, _ => []);
    }

    /** The mapping lists are the copies of each instruction, and contexts continue within the code. */
    ghost predicate Mapped()
      reads this
    {
      && |mapping| == |code.instrs| && (forall i | 0 <= i < |mapping| :: mapping[i] == Copies(refs, i))
      && forall c | c in nextInstruction :: nextInstruction[c] <= |refs|
    }

    /** Append a copy and enter it in its mapping list. */
    method Append(ref: CodeRef)
      requires code.Valid() && Mapped() && ref.inumber < |code.instrs|
      modifies this`refs, this`mapping
      ensures Mapped() && refs == old(refs) + [ref]
    {
      forall i: nat ensures Copies(refs + [ref], i) == (if ref.inumber == i then [|refs|] else []) + Copies(refs, i) {
        CopiesAppend(refs, ref, i);
      }
      mapping := mapping[ref.inumber := [|refs|] + mapping[ref.inumber]];
      refs := refs + [ref];
    }

    method SetFlag(k: nat, flag: Flag)
      requires code.Valid() && Mapped() && k < |refs|
      modifies this`refs
      ensures Mapped() && refs == old(refs)[k := old(refs)[k].(flag := flag)]
    {
      forall i: nat ensures Copies(refs[k := refs[k].(flag := flag)], i) == Copies(refs, i) {
        CopiesOf(refs[k := refs[k].(flag := flag)], refs, i);
      }
      refs := refs[k := refs[k].(flag := flag)];
    }

    /**
     rewriteOneSubroutine.  It appends the code of one context and of all contexts below
     it; the jsr that led here turns out to need a goto when the subroutine does not start
     with its entry.
     */
    method RewriteOneSubroutine(calls: seq<nat>) returns (ok: bool)
      requires code.Valid() && Mapped() && Live(code, calls) && |refs| == Start(code, calls)
      requires calls != [] ==> |refs| > 0 && refs[|refs| - 1] == CodeRef(calls[|calls| - 1], calls[..|calls| - 1], Skip)
      modifies this`refs, this`mapping, this`nextInstruction
      ensures Mapped()
      ensures ok <==> LoneRets(code, calls)
      ensures ok ==> refs == Settled(code, old(refs), calls) + Emit(code, calls)
      ensures ok ==> NextRight(code, nextInstruction, calls, |code.instrs|) && (calls != [] ==> NextFor(code, nextInstruction, calls))
      ensures NextKept(old(nextInstruction), nextInstruction, calls)
      decreases Deepest(code.notes) + 1 - |calls|, 2
    {
      hide Member, Live, Start, EmitTo, SettledBy, Deepest, ReturningJsr, NextRight, Mapped, LoneRets, LoneRet, RetIn;
      ghost var before := refs;
      var caller, retOpcode := |refs| - 1, -1;
      var inumber, count := 0, 0;
      ghost var retAt: nat := 0;
      NothingYet(calls);
      assert LoneCalled(code, calls, 0);
      hide LoneCalled, RetSoFar, FirstMember;
      while inumber < |code.instrs|
        invariant inumber <= |code.instrs| && Mapped()
        invariant count == 0 <==> FirstMember(code, calls, 0) >= inumber
        invariant RetSoFar(code, |before|, calls, inumber, retOpcode, retAt)
        invariant RefsSoFar(before, calls, inumber, retOpcode)
        invariant NextRight(code, nextInstruction, calls, inumber)
        invariant NextKept(old(nextInstruction), nextInstruction, calls)
        invariant LoneCalled(code, calls, inumber)
      {
        var matches := false;
        if code.notes[inumber].Reached? && |code.notes[inumber].context| == |calls| {
          matches := MatchSubroutine(code, code.notes[inumber].context, calls);
        }
        IsMember(code, inumber, calls);
        if matches {
          count := count + 1;
          ok, retOpcode, retAt := CopyInstruction(before, calls, inumber, caller, count == 1, retOpcode, retAt);
          if !ok {
            return;
          }
        } else {
          SkipInstruction(before, calls, inumber, retOpcode, retAt);
        }
        LoneCalledNext(code, calls, inumber);
        inumber := inumber + 1;
      }
      ok := true;
      RetsAreLone(code, |before|, calls, retOpcode, retAt);
      if calls != [] {
        Finish(before, calls, retOpcode, retAt);
      }
    }

    /** The end of a subroutine: where it continues, and what becomes of its ret. */
    method Finish(ghost before: seq<CodeRef>, calls: seq<nat>, retOpcode: int, ghost retAt: nat)
      requires code.Valid() && Mapped() && Live(code, calls) && calls != [] && before != [] && |before| == Start(code, calls)
      requires RefsSoFar(before, calls, |code.instrs|, retOpcode) && NextRight(code, nextInstruction, calls, |code.instrs|)
      requires RetSoFar(code, |before|, calls, |code.instrs|, retOpcode, retAt)
      modifies this`refs, this`nextInstruction
      ensures Mapped() && refs == Settled(code, before, calls) + Emit(code, calls)
      ensures NextRight(code, nextInstruction, calls, |code.instrs|) && NextFor(code, nextInstruction, calls)
      ensures NextKept(old(nextInstruction), nextInstruction, calls)
    {
      nextInstruction := nextInstruction[calls := |refs|];
      if retOpcode != -1 {
        RetIsLast(code, calls, retAt);
        SetFlag(retOpcode, if |refs| == retOpcode + 1 then Skip else RetSimpleGoto);
      }
    }

    lemma NothingYet(calls: seq<nat>)
      requires code.Valid() && Live(code, calls) && (calls != [] ==> refs != [])
      ensures RefsSoFar(refs, calls, 0, -1) && NextRight(code, nextInstruction, calls, 0)
      ensures RetSoFar(code, |refs|, calls, 0, -1, 0)
    {
    }

    /** An instruction that is not part of the context changes nothing. */
    lemma SkipInstruction(before: seq<CodeRef>, calls: seq<nat>, n: nat, retOpcode: int, retAt: nat)
      requires code.Valid() && n < |code.instrs| && !Member(code, n, calls) && (calls != [] ==> before != [])
      requires RefsSoFar(before, calls, n, retOpcode) && RetSoFar(code, |before|, calls, n, retOpcode, retAt) && NextRight(code, nextInstruction, calls, n)
      ensures RefsSoFar(before, calls, n + 1, retOpcode) && RetSoFar(code, |before|, calls, n + 1, retOpcode, retAt)
      ensures NextRight(code, nextInstruction, calls, n + 1)
      ensures FirstMember(code, calls, 0) >= n <==> FirstMember(code, calls, 0) >= n + 1
    {
      SettledStep(code, before, calls, n);
      NextStep(code, nextInstruction, nextInstruction, calls, n);
    }

    /** Copy one instruction of the context, with the subroutine it calls. */
    method CopyInstruction(ghost before: seq<CodeRef>, calls: seq<nat>, inumber: nat, caller: int, first: bool, retOpcode: int, ghost retAt: nat)
      returns (ok: bool, newRet: int, ghost newRetAt: nat)
      requires code.Valid() && Mapped() && Live(code, calls) && |before| == Start(code, calls)
      requires inumber < |code.instrs| && Member(code, inumber, calls) && caller == |before| - 1
      requires calls != [] ==> before != []
      requires first <==> FirstMember(code, calls, 0) >= inumber
      requires RetSoFar(code, |before|, calls, inumber, retOpcode, retAt)
      requires RefsSoFar(before, calls, inumber, retOpcode) && NextRight(code, nextInstruction, calls, inumber)
      modifies this`refs, this`mapping, this`nextInstruction
      ensures Mapped()
      ensures !ok ==> !LoneRets(code, calls)
      ensures ok && ReturningJsr(code, inumber) ==> LoneRets(code, calls + [inumber])
      ensures FirstMember(code, calls, 0) < inumber + 1
      ensures ok ==> RetSoFar(code, |before|, calls, inumber + 1, newRet, newRetAt)
      ensures ok ==> RefsSoFar(before, calls, inumber + 1, newRet) && NextRight(code, nextInstruction, calls, inumber + 1)
      ensures NextKept(old(nextInstruction), nextInstruction, calls)
      decreases Deepest(code.notes) + 1 - |calls|, 1
    {
      hide Member, EmitTo, SettledBy, Mapped, ReturningJsr, NextRight, Start, Live, Pending, LoneRets, LoneRet;
      SettledStep(code, before, calls, inumber);
      RefsLength(before, calls, inumber, retOpcode);
      if retOpcode != -1 {
        MoreMembers(code, calls, retAt, inumber);
      }
      var needsGoto := first && calls != [] && inumber != JsrTarget(code, calls[|calls| - 1]);
      Enter(before, calls, inumber, retOpcode, caller, needsGoto);
      var k := |refs| - 1;
      if ReturningJsr(code, inumber) {
        newRet, newRetAt := retOpcode, retAt;
        ok := CopyCall(before, calls, inumber, retOpcode);
        if !ok {
          CallNotLone(code, calls, inumber);
        }
        CallIsNoRet(code, |before|, calls, inumber, retOpcode, retAt);
      } else {
        ok, newRet, newRetAt := CopyOne(before, calls, inumber, retOpcode, retAt);
        if !ok {
          NotLone(code, calls);
        }
        NextStep(code, nextInstruction, nextInstruction, calls, inumber);
      }
    }

    /** The flag of an instruction that calls nothing. */
    method CopyOne(ghost before: seq<CodeRef>, calls: seq<nat>, inumber: nat, retOpcode: int, ghost retAt: nat)
      returns (ok: bool, newRet: int, ghost newRetAt: nat)
      requires code.Valid() && Mapped() && inumber < |code.instrs| && Member(code, inumber, calls) && !ReturningJsr(code, inumber)
      requires calls != [] ==> before != []
      requires RetSoFar(code, |before|, calls, inumber, retOpcode, retAt) && -1 <= retOpcode < |refs| - 1
      requires refs == Pending(SettledBy(code, before, calls, inumber + 1) + EmitTo(code, calls, inumber), retOpcode) + [CodeRef(inumber, calls, Flag.Normal)]
      modifies this`refs
      ensures Mapped()
      ensures !ok ==> !LoneRet(code, calls)
      ensures ok ==> RetSoFar(code, |before|, calls, inumber + 1, newRet, newRetAt)
      ensures ok ==> RefsSoFar(before, calls, inumber + 1, newRet)
    {
      IsMember(code, inumber, calls);
      FlagCases(code, calls, inumber);
      RetStep(code, |before|, calls, inumber, retOpcode, retAt);
      hide EmitTo, EmitOne, SettledBy, Mapped, Member, FirstMember, FlagOf, RetSoFar, Pending, LoneRet;
      ghost var head := SettledBy(code, before, calls, inumber + 1) + EmitTo(code, calls, inumber);
      SettledLength(code, before, calls, inumber + 1);
      EmitStep(code, calls, inumber);
      Regroup(SettledBy(code, before, calls, inumber + 1), EmitTo(code, calls, inumber), EmitOne(code, calls, inumber));
      var k := |refs| - 1;
      ok, newRet, newRetAt := true, retOpcode, retAt;
      match code.instrs[inumber].op {
        case Jsr(_) => SetFlag(k, JsrSimpleGoto);
        case Ret(_) =>
          if retOpcode != -1 || calls == [] {
            ok := false;
            SecondRet(code, calls, inumber, retAt);
          } else {
            newRet, newRetAt := k, inumber;
          }
        case Astore(_) =>
          if StoresReturnAddress(code, inumber) {
            SetFlag(k, Skip);
          }
        case Goto(_) =>
        case Plain(_, _, _, _, _, _) =>
      }
      OneIsCopied(code, head, retOpcode, calls, inumber);
    }

    /** A jsr that returns is skipped, and the subroutine it calls follows. */
    method CopyCall(ghost before: seq<CodeRef>, calls: seq<nat>, inumber: nat, ghost retOpcode: int) returns (ok: bool)
      requires code.Valid() && Mapped() && Live(code, calls) && |before| == Start(code, calls)
      requires inumber < |code.instrs| && Member(code, inumber, calls) && ReturningJsr(code, inumber)
      requires calls != [] ==> before != []
      requires -1 <= retOpcode < |refs| - 1
      requires refs == Pending(SettledBy(code, before, calls, inumber + 1) + EmitTo(code, calls, inumber), retOpcode) + [CodeRef(inumber, calls, Flag.Normal)]
      requires NextRight(code, nextInstruction, calls, inumber)
      modifies this`refs, this`mapping, this`nextInstruction
      ensures Mapped()
      ensures ok <==> LoneRets(code, calls + [inumber])
      ensures ok ==> RefsSoFar(before, calls, inumber + 1, retOpcode) && NextRight(code, nextInstruction, calls, inumber + 1)
      ensures NextKept(old(nextInstruction), nextInstruction, calls)
      decreases Deepest(code.notes) + 1 - |calls|, 0
    {
      hide Start, EmitTo, EmitOne, Pending, SettledBy, Mapped, NextRight, NextKept, FlagOf, Emit, Settled, Member, ReturningJsr, Live, Deepest, FirstMember, LoneRets;
      ghost var head := SettledBy(code, before, calls, inumber + 1) + EmitTo(code, calls, inumber);
      DeepEnough(code, inumber, calls);
      SettledLength(code, before, calls, inumber + 1);
      SetFlag(|refs| - 1, Skip);
      LiveCall(code, calls, inumber);
      assert (calls + [inumber])[..|calls|] == calls;
      ghost var caller := refs;
      ok := RewriteOneSubroutine(calls + [inumber]);
      if ok {
        CallIsCopied(code, head, retOpcode, calls, inumber, caller);
        EmitStep(code, calls, inumber);
        Regroup(SettledBy(code, before, calls, inumber + 1), EmitTo(code, calls, inumber), EmitOne(code, calls, inumber));
        NextStep(code, old(nextInstruction), nextInstruction, calls, inumber);
      }
      KeptBelow(old(nextInstruction), nextInstruction, calls, inumber);
    }

    /** Append the copy of a matching instruction; the first one settles the calling jsr. */
    method Enter(ghost before: seq<CodeRef>, calls: seq<nat>, n: nat, ghost retOpcode: int, caller: int, needsGoto: bool)
      requires code.Valid() && Mapped() && n < |code.instrs| && Member(code, n, calls)
      requires caller == |before| - 1 && (calls != [] ==> before != [])
      requires -1 <= retOpcode < |refs| && (retOpcode >= 0 ==> retOpcode >= |before|)
      requires RefsSoFar(before, calls, n, retOpcode)
      requires needsGoto <==> calls != [] && FirstMember(code, calls, 0) == n && n != JsrTarget(code, calls[|calls| - 1])
      modifies this`refs, this`mapping
      ensures Mapped() && |refs| == old(|refs|) + 1
      ensures refs == Pending(SettledBy(code, before, calls, n + 1) + EmitTo(code, calls, n), retOpcode) + [CodeRef(n, calls, Flag.Normal)]
    {
      SettledStep(code, before, calls, n);
      Append(CodeRef(n, calls, Flag.Normal));
      if needsGoto {
        SetFlag(caller, JsrTargetedGoto);
      }
    }

    lemma RefsLength(before: seq<CodeRef>, calls: seq<nat>, n: nat, retOpcode: int)
      requires code.Valid() && n <= |code.instrs| && (calls != [] ==> before != []) && RefsSoFar(before, calls, n, retOpcode)
      ensures |refs| == |before| + |EmitTo(code, calls, n)|
    {
      SettledLength(code, before, calls, n);
    }

    ghost predicate RefsSoFar(before: seq<CodeRef>, calls: seq<nat>, n: nat, retOpcode: int)
      requires code.Valid() && n <= |code.instrs|
      requires calls != [] ==> before != []
      reads this
    {
      refs == Pending(SettledBy(code, before, calls, n) + EmitTo(code, calls, n), retOpcode)
    }
  }

  /** What is known of the ret of a context after its first n instructions. */
  predicate RetSoFar(code: Code, start: nat, calls: seq<nat>, n: nat, retOpcode: int, retAt: nat)
    requires code.Valid() && n <= |code.instrs|
  {
    if retOpcode == -1 then forall i | 0 <= i < n && Member(code, i, calls) :: !code.instrs[i].op.Ret?
    else
      && retAt < n && Member(code, retAt, calls) && ReachedRet(code, retAt) && calls != []
      && retOpcode == start + |EmitTo(code, calls, retAt)|
      && forall i | 0 <= i < n && Member(code, i, calls) && code.instrs[i].op.Ret? :: i == retAt
  }

  /** At the end of the context that is all there is. */
  lemma RetsAreLone(code: Code, start: nat, calls: seq<nat>, retOpcode: int, retAt: nat)
    requires code.Valid() && RetSoFar(code, start, calls, |code.instrs|, retOpcode, retAt)
    requires LoneCalled(code, calls, |code.instrs|)
    ensures LoneRets(code, calls)
  {
    hide Member, EmitTo, LoneRets, LoneCalled;
    assert LoneRet(code, calls);
    LoneFromCalls(code, calls);
  }

  /** The code of a context ends with a ret when no later instruction belongs to the context. */
  lemma RetIsLast(code: Code, calls: seq<nat>, i: nat)
    requires code.Valid() && Member(code, i, calls) && ReachedRet(code, i)
    ensures |EmitTo(code, calls, i)| < |Emit(code, calls)|
    ensures Emit(code, calls)[..|EmitTo(code, calls, i)|] == EmitTo(code, calls, i)
    ensures Emit(code, calls)[|EmitTo(code, calls, i)|] == Copied(code, calls, i)
    ensures |Emit(code, calls)| == |EmitTo(code, calls, i)| + 1 <==> FirstMember(code, calls, i + 1) == |code.instrs|
  {
    EmitPrefix(code, calls, i + 1, |code.instrs|);
    assert EmitTo(code, calls, i + 1) == EmitTo(code, calls, i) + [Copied(code, calls, i)];
    MoreMembers(code, calls, i + 1, |code.instrs|);
  }

  lemma {:induction false} EmitPrefix(code: Code, calls: seq<nat>, n: nat, m: nat)
    requires code.Valid() && n <= m <= |code.instrs|
    ensures EmitTo(code, calls, n) <= EmitTo(code, calls, m)
    decreases m
  {
    if n < m {
      EmitPrefix(code, calls, n, m - 1);
    }
  }

  /** Something is generated exactly when an instruction belongs to the context. */
  lemma {:induction false} MoreMembers(code: Code, calls: seq<nat>, n: nat, m: nat)
    requires code.Valid() && n <= m <= |code.instrs|
    ensures |EmitTo(code, calls, n)| <= |EmitTo(code, calls, m)|
    ensures |EmitTo(code, calls, n)| == |EmitTo(code, calls, m)| <==> forall i | n <= i < m :: !Member(code, i, calls)
    decreases m
  {
    if n < m {
      MoreMembers(code, calls, n, m - 1);
    }
  }

  lemma EmitStep(code: Code, calls: seq<nat>, i: nat)
    requires code.Valid() && i < |code.instrs|
    ensures EmitTo(code, calls, i + 1) == EmitTo(code, calls, i) + EmitOne(code, calls, i)
  {
  }

  lemma DeepEnough(code: Code, i: nat, calls: seq<nat>)
    requires code.Valid() && Member(code, i, calls)
    ensures |calls| <= Deepest(code.notes)
  {
  }

  lemma SettledLength(code: Code, refs: seq<CodeRef>, calls: seq<nat>, n: nat)
    requires code.Valid() && (calls != [] ==> refs != [])
    ensures |SettledBy(code, refs, calls, n)| == |refs|
  {
  }

  lemma KeptBelow(before: map<seq<nat>, nat>, after: map<seq<nat>, nat>, calls: seq<nat>, j: nat)
    requires NextKept(before, after, calls + [j])
    ensures NextKept(before, after, calls)
  {
  }

  /** The jsr gets the flag it has in the specification once its subroutine is copied. */
  lemma CallIsCopied(code: Code, head: seq<CodeRef>, retOpcode: int, calls: seq<nat>, j: nat, caller: seq<CodeRef>)
    requires code.Valid() && Member(code, j, calls) && ReturningJsr(code, j) && -1 <= retOpcode < |head|
    requires caller == Pending(head, retOpcode) + [CodeRef(j, calls, Skip)]
    ensures Settled(code, caller, calls + [j]) + Emit(code, calls + [j]) == Pending(head + EmitOne(code, calls, j), retOpcode)
  {
    SettledCall(code, Pending(head, retOpcode), calls, j);
    hide EmitTo, Member, SettledBy, Settled, Pending, Copied, Emit;
    var jsr, below := [Copied(code, calls, j)], Emit(code, calls + [j]);
    assert EmitOne(code, calls, j) == jsr + below;
    PendingAppend(head, jsr + below, retOpcode);
    Regroup(Pending(head, retOpcode), jsr, below);
  }

  lemma Regroup(a: seq<CodeRef>, b: seq<CodeRef>, c: seq<CodeRef>)
    ensures (a + b) + c == a + (b + c)
  {
  }

  lemma PendingAppend(head: seq<CodeRef>, tail: seq<CodeRef>, retOpcode: int)
    requires -1 <= retOpcode < |head|
    ensures Pending(head, retOpcode) + tail == Pending(head + tail, retOpcode)
  {
  }

  lemma SettledCall(code: Code, refs: seq<CodeRef>, calls: seq<nat>, j: nat)
    requires code.Valid() && ReturningJsr(code, j)
    ensures Settled(code, refs + [CodeRef(j, calls, Skip)], calls + [j]) == refs + [Copied(code, calls, j)]
  {
  }

  lemma OneIsCopied(code: Code, head: seq<CodeRef>, retOpcode: int, calls: seq<nat>, i: nat)
    requires code.Valid() && Member(code, i, calls) && !ReturningJsr(code, i) && -1 <= retOpcode < |head|
    ensures Pending(head, retOpcode) + [Copied(code, calls, i)] == Pending(head + EmitOne(code, calls, i), retOpcode)
    ensures retOpcode == -1 ==> head + [CodeRef(i, calls, Flag.Normal)] == Pending(head + EmitOne(code, calls, i), |head|)
  {
    hide Member;
  }

  lemma SecondRet(code: Code, calls: seq<nat>, i: nat, j: nat)
    requires code.Valid() && Member(code, i, calls) && ReachedRet(code, i)
    requires calls == [] || (j < i && Member(code, j, calls) && ReachedRet(code, j))
    ensures !LoneRet(code, calls)
  {
    assert RetIn(code, calls, i) && (calls != [] ==> RetIn(code, calls, j));
  }

  lemma FlagCases(code: Code, calls: seq<nat>, i: nat)
    requires code.Valid() && i < |code.instrs| && !ReturningJsr(code, i)
    ensures var op := code.instrs[i].op;
            && (op.Jsr? ==> FlagOf(code, calls, i) == JsrSimpleGoto)
            && (op.Astore? ==> FlagOf(code, calls, i) == if StoresReturnAddress(code, i) then Skip else Flag.Normal)
            && (op.Goto? || op.Plain? ==> FlagOf(code, calls, i) == Flag.Normal)
  {
  }

  lemma RetStep(code: Code, start: nat, calls: seq<nat>, i: nat, retOpcode: int, retAt: nat)
    requires code.Valid() && i < |code.instrs| && Member(code, i, calls) && RetSoFar(code, start, calls, i, retOpcode, retAt)
    ensures !code.instrs[i].op.Ret? ==> RetSoFar(code, start, calls, i + 1, retOpcode, retAt)
    ensures code.instrs[i].op.Ret? && calls != [] && retOpcode == -1 ==> RetSoFar(code, start, calls, i + 1, start + |EmitTo(code, calls, i)|, i)
    ensures code.instrs[i].op.Ret? && retOpcode != -1 ==> retAt < i && Member(code, retAt, calls) && ReachedRet(code, retAt)
  {
  }

  lemma CallIsNoRet(code: Code, start: nat, calls: seq<nat>, i: nat, retOpcode: int, retAt: nat)
    requires code.Valid() && i < |code.instrs| && ReturningJsr(code, i) && RetSoFar(code, start, calls, i, retOpcode, retAt)
    ensures RetSoFar(code, start, calls, i + 1, retOpcode, retAt)
  {
  }

  lemma IsMember(code: Code, i: nat, calls: seq<nat>)
    requires code.Valid() && i < |code.instrs|
    ensures Member(code, i, calls) <==>
            code.notes[i].Reached? && |code.notes[i].context| == |calls| && code.notes[i].context == Entries(code, calls)
  {
  }

  /** The context continues where its code ends. */
  ghost predicate NextFor(code: Code, next: map<seq<nat>, nat>, c: seq<nat>)
    requires code.Valid() && Live(code, c)
  {
    c in next && next[c] == Start(code, c) + |Emit(code, c)|
  }

  /** All contexts below that are called from an instruction before n are finished. */
  ghost predicate NextRight(code: Code, next: map<seq<nat>, nat>, calls: seq<nat>, n: nat)
    requires code.Valid()
  {
    forall c | Live(code, c) && calls < c && c[|calls|] < n :: NextFor(code, next, c)
  }

  /** Contexts other than `calls` and those below keep what they had. */
  predicate NextKept(old_: map<seq<nat>, nat>, new_: map<seq<nat>, nat>, calls: seq<nat>) {
    forall c | c in old_ && !(calls <= c) :: c in new_ && new_[c] == old_[c]
  }

  lemma NextStep(code: Code, before: map<seq<nat>, nat>, after: map<seq<nat>, nat>, calls: seq<nat>, n: nat)
    requires code.Valid() && NextRight(code, before, calls, n)
    requires NextKept(before, after, calls + [n])
    requires Member(code, n, calls) && ReturningJsr(code, n) && Live(code, calls) ==>
               NextRight(code, after, calls + [n], |code.instrs|) && Live(code, calls + [n]) && NextFor(code, after, calls + [n])
    ensures NextRight(code, after, calls, n + 1)
  {
    hide Member, ReturningJsr;
    forall c | Live(code, c) && calls < c && c[|calls|] < n + 1 ensures NextFor(code, after, c) {
      LiveAt(code, c, |calls|);
      assert c[..|calls|] == calls;
      if c[|calls|] == n {
        BelowCall(c, calls, n);
        if c != calls + [n] {
          LiveAt(code, c, |calls| + 1);
          CallInRange(code, c, |calls| + 1);
        }
      } else {
        assert (calls + [n])[|calls|] == n;
        assert !(calls + [n] <= c) && NextFor(code, before, c);
      }
    }
  }

  lemma CallInRange(code: Code, c: seq<nat>, k: nat)
    requires code.Valid() && k < |c| && ReturningJsr(code, c[k])
    ensures c[k] < |code.instrs|
  {
  }

  lemma LiveCall(code: Code, calls: seq<nat>, j: nat)
    requires code.Valid() && Live(code, calls) && Member(code, j, calls) && ReturningJsr(code, j)
    ensures Live(code, calls + [j]) && Start(code, calls + [j]) == Position(code, calls, j) + 1
  {
    assert (calls + [j])[..|calls|] == calls;
  }

  /** The flag of a ret is set last. */
  function Pending(refs: seq<CodeRef>, retOpcode: int): (r: seq<CodeRef>)
    ensures |r| == |refs|
  {
    if 0 <= retOpcode < |refs| then refs[retOpcode := refs[retOpcode].(flag := Flag.Normal)] else refs
  }

  /** The calling jsr once the first n instructions have been looked at. */
  function SettledBy(code: Code, refs: seq<CodeRef>, calls: seq<nat>, n: nat): seq<CodeRef>
    requires code.Valid() && (calls != [] ==> refs != [])
  {
    if calls == [] then refs
    else
      var first := FirstMember(code, calls, 0);
      var k := |refs| - 1;
      if first < n && first < |code.instrs| && first != JsrTarget(code, calls[|calls| - 1]) then
        refs[k := refs[k].(flag := JsrTargetedGoto)]
      else refs
  }

  function Settled(code: Code, refs: seq<CodeRef>, calls: seq<nat>): seq<CodeRef>
    requires code.Valid() && (calls != [] ==> refs != [])
  {
    SettledBy(code, refs, calls, |code.instrs|)
  }

  lemma SettledStep(code: Code, refs: seq<CodeRef>, calls: seq<nat>, n: nat)
    requires code.Valid() && (calls != [] ==> refs != []) && n < |code.instrs|
    ensures calls != [] && FirstMember(code, calls, 0) == n && n != JsrTarget(code, calls[|calls| - 1]) ==>
              SettledBy(code, refs, calls, n + 1) == refs[|refs| - 1 := refs[|refs| - 1].(flag := JsrTargetedGoto)]
              && SettledBy(code, refs, calls, n) == refs
    ensures !(calls != [] && FirstMember(code, calls, 0) == n && n != JsrTarget(code, calls[|calls| - 1])) ==>
              SettledBy(code, refs, calls, n + 1) == SettledBy(code, refs, calls, n)
    ensures FirstMember(code, calls, 0) < n ==> !(FirstMember(code, calls, 0) >= n + 1)
    ensures !Member(code, n, calls) ==> FirstMember(code, calls, 0) != n
    ensures Member(code, n, calls) ==> FirstMember(code, calls, 0) <= n
  {
  }

  /** Every call of a live chain is a returning jsr of the context it is made from. */
  lemma {:induction false} LiveAt(code: Code, calls: seq<nat>, k: nat)
    requires code.Valid() && Live(code, calls) && k < |calls|
    ensures Live(code, calls[..k]) && Member(code, calls[k], calls[..k]) && ReturningJsr(code, calls[k])
    decreases |calls|
  {
    var outer := calls[..|calls| - 1];
    if k < |outer| {
      LiveAt(code, outer, k);
      assert outer[..k] == calls[..k];
    }
  }

  lemma BelowCall(c: seq<nat>, calls: seq<nat>, j: nat)
    requires calls < c && c[|calls|] == j
    ensures calls + [j] <= c
  {
    assert c == c[..|calls|] + [c[|calls|]] + c[|calls| + 1..];
  }
}
