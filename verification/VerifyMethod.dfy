/**
 The loop of verify_method: analyse, and as long as something is unreached or a
 subroutine is called, rewrite and start again.
 */
module VerifyMethod {
  import opened Types
  import opened Bytecode
  import opened Merging
  import opened Dataflow
  import opened ReturnAddresses
  import opened RecordedNotes
  import Guarantees
  import J = JsrMachine
  import I = Inliner
  import C = InlinedCode
  import H = InlinedHandlers
  import S = InlinerSoundness
  import Ranges = HandlerRanges
  import P = InlinerPasses
  import D = Decoding
  import R = RewrittenAgain

  // ----- the method after a pass -----

  /** A branch is at most five bytes, and a jsr three; jsr_w is not part of the model. */
  predicate Sized(m: Method, lengths: seq<nat>) {
    && |lengths| == |m.code|
    && forall i | 0 <= i < |m.code| ::
         && lengths[i] > 0
         && (m.code[i].Branch? || m.code[i].Goto? ==> lengths[i] == 3 || lengths[i] == 5)
         && (m.code[i].Jsr? ==> lengths[i] == 3)
  }

  /** The instruction at a new place: its targets have new numbers, and a jsr or ret has become a goto. */
  function Renumbered(ins: Instr, op: J.Op): Instr {
    if op.Goto? then Goto(op.target)
    else if ins.Branch? && op.Plain? && |op.targets| == 1 then ins.(target := op.targets[0])
    else if ins.Switch? && op.Plain? then Switch(op.targets)
    else ins
  }

  predicate ComesFrom(m: Method, d: D.Decoded) {
    && (forall n | 0 <= n < |d.instrs| :: d.instrs[n].origin < |m.code|)
    && (forall k | 0 <= k < |d.table| :: d.table[k].catchType < |m.handlers|)
  }

  function NextMethod(m: Method, d: D.Decoded): Method
    requires ComesFrom(m, d)
  {
    m.(code := seq(|d.instrs|, n requires 0 <= n < |d.instrs| => Renumbered(m.code[d.instrs[n].origin], d.instrs[n].op)),
       handlers := seq(|d.table|, k requires 0 <= k < |d.table| =>
         Handler(d.table[k].start, d.table[k].end, d.table[k].handler, m.handlers[d.table[k].catchType].catchType)))
  }

  function LengthsOf(d: D.Decoded): seq<nat> {
    seq(|d.instrs|, n requires 0 <= n < |d.instrs| => d.instrs[n].length)
  }

  lemma SizedIsEncodable(m: Method, t: Table, lengths: seq<nat>)
    requires Sized(m, lengths) && |t| == |m.code|
    ensures Fits(m, t, lengths) && C.Encodable(CodeOf(m, t, lengths))
  {
    hide Operands, NoteOf, PopWords, PushWords;
  }

  // ----- where the instructions of the new method come from -----

  /** What a rewriting may make of an operation, targets aside. */
  predicate Becomes(a: J.Op, b: J.Op) {
    match a
    case Plain(pops, pushes, loads, stores, falls, targets) =>
      && b.Plain? && b.pops == pops && b.pushes == pushes && b.loads == loads && b.stores == stores && b.falls == falls
      && |b.targets| == |targets|
    case Goto(_) => b.Goto?
    case Jsr(_) => b.Goto?
    case Ret(_) => b.Goto?
    case Astore(_) => b == a
  }

  lemma NewOpBecomes(code: I.Code, refs: seq<I.CodeRef>, next: map<seq<nat>, nat>, k: nat, pcs: seq<nat>, op: J.Op)
    requires code.Valid() && C.Encodable(code) && C.InCode(code, refs) && k < |refs| && C.TargetsFound(code, refs, next, k)
    requires D.SameOp(pcs, C.NewPlace(code, refs, next, k).op, op)
    ensures Becomes(code.instrs[refs[k].inumber].op, op)
  {
    hide C.Jump, C.TargetRef, C.Encodable;
  }

  /** Instruction n of the new code is a copy of its origin. */
  lemma InstrComesFrom(code: I.Code, next: map<seq<nat>, nat>, end: nat, d: D.Decoded, pcs: seq<nat>, n: nat)
    requires code.Valid() && C.Encodable(code) && S.Found(code, next) && D.Decodes(S.NewProgram(code, next), end, d, pcs) && n < |d.instrs|
    ensures var i := d.instrs[n];
            && i.origin < |code.instrs| && Becomes(code.instrs[i.origin].op, i.op)
            && (!code.instrs[i.origin].isSwitch ==> i.length == if code.instrs[i.origin].op.Ret? then 3 else code.instrs[i.origin].length)
  {
    var refs, p := I.Emit(code, []), S.NewProgram(code, next);
    assert D.IsNumbered(p, pcs, n, d.instrs[n]);
    var k := P.PlacesOnly(code, refs, next, |refs|, pcs[n]);
    hide I.Emit, C.NewPlace, C.TargetsFound, D.SameOp, C.PlacesTo, D.Decodes;
    R.NextOfPlace(code, refs, next, k);
    NewOpBecomes(code, refs, next, k, pcs, d.instrs[n].op);
  }

  /** Entry k of the new table is made for one of the old entries. */
  lemma {:induction false} TableComesFrom(code: I.Code, refs: seq<I.CodeRef>, table: seq<J.Frame>, g: J.Frame)
    requires code.Valid() && C.InCode(code, refs) && g in H.NewTable(code, refs, table)
    ensures exists f :: f in table && f.catchType == g.catchType
  {
    hide H.FramesOfCopies;
    var f := table[0];
    if g in H.FramesOfCopies(code, refs, f, H.CopiesIn(refs, f.handler)) {
      FramesComeFrom(code, refs, f, H.CopiesIn(refs, f.handler), g);
      assert f in table;
    } else {
      TableComesFrom(code, refs, table[1..], g);
      var h :| h in table[1..] && h.catchType == g.catchType;
      assert h in table;
    }
  }

  lemma {:induction false} FramesComeFrom(code: I.Code, refs: seq<I.CodeRef>, f: J.Frame, copies: seq<nat>, g: J.Frame)
    requires code.Valid() && C.InCode(code, refs) && C.InBounds(copies, |refs|) && g in H.FramesOfCopies(code, refs, f, copies)
    ensures g.catchType == f.catchType
  {
    hide H.FramesFrom;
    H.FramesAgree(code, refs, f, copies[0], 0, -1);
    if g !in H.FramesFrom(code, refs, f, copies[0], 0, -1) {
      FramesComeFrom(code, refs, f, copies[1..], g);
    }
  }

  /** A program that has no other instructions than those it is made of here. */
  lemma DecodedComesFrom(m: Method, t: Table, lengths: seq<nat>, next: map<seq<nat>, nat>, end: nat, d: D.Decoded, pcs: seq<nat>)
    requires Sized(m, lengths) && Fits(m, t, lengths) && m.code != []
    requires var code := CodeOf(m, t, lengths);
             code.Valid() && C.Encodable(code) && S.Found(code, next) && D.Decodes(S.NewProgram(code, next), end, d, pcs)
    ensures ComesFrom(m, d)
    ensures forall n | 0 <= n < |d.instrs| ::
              var i := d.instrs[n];
              Becomes(OpOf(m, i.origin), i.op) && (!m.code[i.origin].Switch? ==> i.length == if m.code[i.origin].Ret? then 3 else lengths[i.origin])
  {
    var code := CodeOf(m, t, lengths);
    var refs, p := I.Emit(code, []), S.NewProgram(code, next);
    forall n | 0 <= n < |d.instrs|
      ensures var i := d.instrs[n];
              && i.origin < |m.code| && Becomes(OpOf(m, i.origin), i.op)
              && (!m.code[i.origin].Switch? ==> i.length == if m.code[i.origin].Ret? then 3 else lengths[i.origin])
    {
      InstrComesFrom(code, next, end, d, pcs, n);
      InstrOf(m, t, lengths, d.instrs[n].origin);
    }
    hide I.Emit, C.Encodable, OpOf, NoteOf, Becomes, D.Numbering, D.IsNumbered, C.PlacesTo;
    forall k | 0 <= k < |d.table| ensures d.table[k].catchType < |m.handlers| {
      assert D.SameFrame(pcs, p.table[k], d.table[k]);
      assert p.table[k] in p.table;
      TableComesFrom(code, refs, code.table, p.table[k]);
    }
  }

  lemma InstrOf(m: Method, t: Table, lengths: seq<nat>, i: nat)
    requires Fits(m, t, lengths) && i < |m.code|
    ensures i < |CodeOf(m, t, lengths).instrs| && CodeOf(m, t, lengths).instrs[i] == I.Instr(OpOf(m, i), lengths[i], m.code[i].Switch?)
    ensures m.code[i].Ret? <==> OpOf(m, i).Ret?
  {
    hide NoteOf, Operands, PopWords, PushWords;
  }

  /** The new method's instructions are those of the decoded code. */
  lemma NextOps(m: Method, d: D.Decoded, n: nat)
    requires ComesFrom(m, d) && n < |d.instrs| && Becomes(OpOf(m, d.instrs[n].origin), d.instrs[n].op)
    ensures OpOf(NextMethod(m, d), n) == d.instrs[n].op
    ensures !NextMethod(m, d).code[n].Jsr? && !NextMethod(m, d).code[n].Ret?
  {
    var ins, op, after := m.code[d.instrs[n].origin], d.instrs[n].op, NextMethod(m, d);
    assert after.code[n] == Renumbered(ins, op);
    if op.Plain? {
      SameOperands(m, after, ins, Renumbered(ins, op));
      assert |op.targets| == |OpOf(m, d.instrs[n].origin).targets|;
      if ins.Branch? {
        assert op.targets == [op.targets[0]];
      } else if !ins.Switch? {
        assert op.targets == [];
      }
    }
    hide Operands, PopWords;
  }

  lemma SameOperands(m: Method, after: Method, a: Instr, b: Instr)
    requires after == m.(code := after.code, handlers := after.handlers)
    requires b == a || (a.Branch? && b.Branch? && b == a.(target := b.target)) || (a.Switch? && b.Switch?)
    ensures Operands(after, b) == Operands(m, a)
  {
  }

  lemma NextIsSized(m: Method, lengths: seq<nat>, d: D.Decoded)
    requires Sized(m, lengths) && ComesFrom(m, d)
    requires forall n | 0 <= n < |d.instrs| ::
               var i := d.instrs[n];
               && i.length > 0 && Becomes(OpOf(m, i.origin), i.op)
               && (!m.code[i.origin].Switch? ==> i.length == if m.code[i.origin].Ret? then 3 else lengths[i.origin])
    ensures Sized(NextMethod(m, d), LengthsOf(d))
  {
    var after := NextMethod(m, d);
    forall n | 0 <= n < |after.code|
      ensures after.code[n].Branch? || after.code[n].Goto? ==> LengthsOf(d)[n] == 3 || LengthsOf(d)[n] == 5
      ensures !after.code[n].Jsr?
    {
      NextOps(m, d, n);
      BranchesStay(m, d, n);
    }
    hide Renumbered, Becomes, OpOf;
  }

  lemma BranchesStay(m: Method, d: D.Decoded, n: nat)
    requires ComesFrom(m, d) && n < |d.instrs| && Becomes(OpOf(m, d.instrs[n].origin), d.instrs[n].op)
    ensures var ins, after := m.code[d.instrs[n].origin], NextMethod(m, d).code[n];
            after.Branch? || after.Goto? ==> ins.Branch? || ins.Goto? || ins.Jsr? || ins.Ret?
  {
    hide Operands, PopWords, PushWords;
  }

  // ----- the program of a method -----

  /** What the machine with subroutines runs: neither notes nor lengths matter. */
  function ProgramFor(m: Method): J.Program {
    J.Program(map i: nat | i < |m.code| :: J.Place(i, OpOf(m, i), i + 1),
              seq(|m.handlers|, k requires 0 <= k < |m.handlers| =>
                J.Frame(m.handlers[k].start, m.handlers[k].end, m.handlers[k].handler, k)))
  }

  lemma OriginalIs(m: Method, t: Table, lengths: seq<nat>)
    requires Fits(m, t, lengths) && CodeOf(m, t, lengths).Valid()
    ensures S.Original(CodeOf(m, t, lengths)) == ProgramFor(m)
  {
    hide NoteOf, OpOf;
  }

  lemma NextProgram(m: Method, d: D.Decoded)
    requires ComesFrom(m, d) && forall n | 0 <= n < |d.instrs| :: Becomes(OpOf(m, d.instrs[n].origin), d.instrs[n].op)
    ensures ProgramFor(NextMethod(m, d)) == D.ProgramOf(d)
  {
    forall n | 0 <= n < |d.instrs| ensures OpOf(NextMethod(m, d), n) == d.instrs[n].op {
      NextOps(m, d, n);
    }
    hide OpOf, Renumbered, Becomes;
    assert ProgramFor(NextMethod(m, d)).at == D.Ops(d);
    assert ProgramFor(NextMethod(m, d)).table == D.TableOf(d.table);
  }

  // ----- the graph -----

  lemma SameSuccessors(m: Method, i: nat, j: nat)
    requires JsrFree(m) && i < |m.code|
    ensures j in Successors(m.code[i], i) <==>
            var place := J.Place(i, OpOf(m, i), i + 1);
            match place.op
            case Plain(_, _, _, _, _, _) => j in J.Successors(place)
            case Goto(t) => j == t
            case Jsr(t) => j == t
            case Ret(_) => false
            case Astore(_) => j == place.next
  {
    hide Operands, PopWords, PushWords;
  }

  /** The two control-flow graphs of code without subroutines are the same. */
  lemma SameEdges(m: Method, i: nat, j: nat)
    requires JsrFree(m)
    ensures Edge(m, i, j) <==> P.Edge(ProgramFor(m), i, j)
  {
    var p := ProgramFor(m);
    if i < |m.code| {
      SameSuccessors(m, i, j);
      CaughtAtHandler(m.handlers, i, j);
      if h :| h in m.handlers && Covers(h, i) && h.handler == j {
        var k :| 0 <= k < |m.handlers| && m.handlers[k] == h;
        assert p.table[k] in p.table && J.Covers(p.table[k], i);
      }
      if f :| f in p.table && J.Covers(f, i) && j == f.handler {
        var k :| 0 <= k < |p.table| && p.table[k] == f;
        assert m.handlers[k] in m.handlers;
      }
      assert p.at[i] == J.Place(i, OpOf(m, i), i + 1);
      hide OpOf, Successors, J.Successors, CaughtAt;
    }
  }

  lemma SameReachable(m: Method, j: nat)
    requires JsrFree(m)
    ensures Reachable(m, j) <==> P.Reachable(ProgramFor(m), j)
  {
    forall i: nat, k: nat ensures Edge(m, i, k) <==> P.Edge(ProgramFor(m), i, k) {
      SameEdges(m, i, k);
    }
    hide Edge, P.Edge, ProgramFor;
    if Reachable(m, j) {
      var p :| PathTo(m, p, j);
      assert P.IsPath(ProgramFor(m), p);
    }
    if P.Reachable(ProgramFor(m), j) {
      var p :| P.IsPath(ProgramFor(m), p) && p[|p| - 1] == j;
      assert PathTo(m, p, j);
    }
  }

  /** The analysis has marked exactly what can be reached. */
  lemma AnalysedExactly(m: Method, t: Table, lengths: seq<nat>)
    requires JsrFree(m) && PostFixpoint(m, t) && Marked(m, t) && Fits(m, t, lengths) && CodeOf(m, t, lengths).Valid()
    ensures R.ExactlyMarked(CodeOf(m, t, lengths)) && R.NoCalls(CodeOf(m, t, lengths))
  {
    var code := CodeOf(m, t, lengths);
    OriginalIs(m, t, lengths);
    forall i: nat | i < |code.instrs|
      ensures code.notes[i].Reached? <==> P.Reachable(S.Original(code), i)
      ensures !code.instrs[i].op.Jsr? && !code.instrs[i].op.Ret?
    {
      Guarantees.ReachedExactly(m, t, i);
      SameReachable(m, i);
      assert RecordOk(m, t, i);
      InstrAt(m, t, lengths, i);
      NoteReached(t, i);
      PlainKind(m, i);
      hide CodeOf, NoteOf, OpOf, Reachable, P.Reachable, PostFixpoint, S.Original, Marked;
    }
  }

  lemma PlainKind(m: Method, i: nat)
    requires i < |m.code|
    ensures OpOf(m, i).Jsr? <==> m.code[i].Jsr?
    ensures OpOf(m, i).Ret? <==> m.code[i].Ret?
  {
    hide Operands, PopWords, PushWords;
  }

  // ----- passes -----

  /** What one turn of the loop has found and made. */
  datatype Pass = Pass(before: Method, lengths: seq<nat>, table: Table, redo: bool, trace: seq<Turn>,
                       next: map<seq<nat>, nat>, decoded: D.Decoded, pcs: seq<nat>, after: Method)

  ghost predicate Verified(m: Method, lengths: seq<nat>, t: Table, redo: bool, trace: seq<Turn>) {
    && Legal(m) && Sized(m, lengths) && PostFixpoint(m, t) && Marked(m, t) && Replay(m, trace) == Running(redo, t)
    && Fits(m, t, lengths) && CodeOf(m, t, lengths).Valid() && C.Encodable(CodeOf(m, t, lengths))
  }

  function CodeIn(x: Pass): I.Code
    requires Fits(x.before, x.table, x.lengths)
  {
    CodeOf(x.before, x.table, x.lengths)
  }

  ghost predicate IsPass(x: Pass) {
    && Verified(x.before, x.lengths, x.table, x.redo, x.trace)
    && S.Continuations(CodeIn(x), x.next) && S.Found(CodeIn(x), x.next)
    && D.Decodes(S.NewProgram(CodeIn(x), x.next), EndOf(CodeIn(x)), x.decoded, x.pcs)
    && ComesFrom(x.before, x.decoded) && x.after == NextMethod(x.before, x.decoded)
    && H.RangesEndInside(CodeIn(x))
  }

  ghost function EndOf(code: I.Code): nat
    requires code.Valid() && C.InCode(code, I.Emit(code, []))
  {
    C.Offset(code, I.Emit(code, []), |I.Emit(code, [])|)
  }

  lemma VerifiedIs(m: Method, lengths: seq<nat>, t: Table, redo: bool, trace: seq<Turn>)
    requires Legal(m) && Sized(m, lengths) && PostFixpoint(m, t) && Marked(m, t) && Replay(m, trace) == Running(redo, t)
    ensures Verified(m, lengths, t, redo, trace) && C.TargetsInRange(CodeOf(m, t, lengths))
    ensures Ranges.FramesLegal(CodeOf(m, t, lengths))
  {
    SizedIsEncodable(m, t, lengths);
    TargetsAreInRange(m, t, lengths);
    forall k | 0 <= k < |m.handlers| ensures LegalHandler(m, m.handlers[k]) {}
    hide OpOf, NoteOf, PostFixpoint, C.Encodable, C.TargetsInRange, Replay, Marked, LegalOperands;
  }

  /** Code without subroutines meets the assumptions of the inliner. */
  lemma PlainPass(m: Method, lengths: seq<nat>, t: Table, redo: bool, trace: seq<Turn>)
    requires Verified(m, lengths, t, redo, trace) && JsrFree(m)
    ensures S.Inlinable(CodeOf(m, t, lengths)) && P.Flat(CodeOf(m, t, lengths)) && R.ExactlyMarked(CodeOf(m, t, lengths))
  {
    AnalysedExactly(m, t, lengths);
    AnalysedIsAccepted(m, t, redo, trace, lengths);
    hide CodeOf, PostFixpoint, S.Accepted, S.Nested, R.ExactlyMarked, P.Flat, C.Encodable, C.TargetsInRange, R.NoCalls;
    R.PlainIsNested(CodeOf(m, t, lengths));
  }

  predicate NoCallsIn(m: Method) {
    forall i | 0 <= i < |m.code| :: !m.code[i].Jsr? && !m.code[i].Ret?
  }

  /** After a pass there are no subroutines, and the lengths are again what they should be. */
  lemma AfterPass(x: Pass)
    requires IsPass(x)
    ensures NoCallsIn(x.after) && Sized(x.after, LengthsOf(x.decoded)) && ProgramFor(x.after) == D.ProgramOf(x.decoded)
    ensures |x.after.code| == |x.pcs| - 1
  {
    assert C.InCode(CodeIn(x), I.Emit(CodeIn(x), []));
    hide CodeOf, OpOf, Becomes, Renumbered, S.Found, S.Continuations, PostFixpoint, Marked, Replay, Legal, S.NewProgram, C.Encodable, EndOf;
    var p := S.NewProgram(CodeIn(x), x.next);
    NonEmpty(x.before, x.table, x.lengths);
    DecodedComesFrom(x.before, x.table, x.lengths, x.next, EndOf(CodeIn(x)), x.decoded, x.pcs);
    forall n | 0 <= n < |x.decoded.instrs| ensures x.decoded.instrs[n].length > 0 {
      assert D.IsNumbered(p, x.pcs, n, x.decoded.instrs[n]);
    }
    hide D.Decodes;
    NextIsSized(x.before, x.lengths, x.decoded);
    NextProgram(x.before, x.decoded);
    forall n | 0 <= n < |x.after.code| ensures !x.after.code[n].Jsr? && !x.after.code[n].Ret? {
      NextOps(x.before, x.decoded, n);
    }
  }

  lemma RenumberedIsLegal(m: Method, after: Method, ins: Instr, op: J.Op)
    requires after == m.(code := after.code, handlers := after.handlers) && LegalOperands(m, ins)
    requires op.Goto? ==> op.target < |after.code|
    requires op.Plain? ==> forall k | 0 <= k < |op.targets| :: op.targets[k] < |after.code|
    requires ins.Goto? || ins.Jsr? || ins.Ret? ==> op.Goto?
    requires ins.Branch? ==> op.Plain? && |op.targets| == 1
    requires ins.Switch? ==> op.Plain?
    ensures LegalOperands(after, Renumbered(ins, op))
  {
  }

  lemma KindsOfOps(m: Method, i: nat)
    requires i < |m.code|
    ensures var ins, op := m.code[i], OpOf(m, i);
            && (ins.Goto? <==> op.Goto?) && (ins.Jsr? <==> op.Jsr?) && (ins.Ret? <==> op.Ret?)
            && (ins.Branch? ==> op.Plain? && |op.targets| == 1) && (ins.Switch? ==> op.Plain?)
  {
    hide Operands, PopWords, PushWords;
  }

  /** What a pass makes is legal again: only the given method can be found illegal. */
  lemma NextIsLegal(x: Pass)
    requires IsPass(x)
    ensures Legal(x.after)
  {
    AfterPass(x);
    assert C.InCode(CodeIn(x), I.Emit(CodeIn(x), []));
    NonEmpty(x.before, x.table, x.lengths);
    hide CodeOf, OpOf, Renumbered, S.Found, S.Continuations, PostFixpoint, Marked, Replay, S.NewProgram, C.Encodable, EndOf, LegalOperands,
      ProgramFor, D.ProgramOf, H.RangesEndInside, NoCallsIn;
    var p := S.NewProgram(CodeIn(x), x.next);
    DecodedComesFrom(x.before, x.table, x.lengths, x.next, EndOf(CodeIn(x)), x.decoded, x.pcs);
    forall n | 0 <= n < |x.after.code| ensures LegalOperands(x.after, x.after.code[n]) {
      assert D.IsNumbered(p, x.pcs, n, x.decoded.instrs[n]);
      KindsOfOps(x.before, x.decoded.instrs[n].origin);
      RenumberedIsLegal(x.before, x.after, x.before.code[x.decoded.instrs[n].origin], x.decoded.instrs[n].op);
    }
    hide D.Decodes, ComesFrom, NextMethod;
    forall h | h in x.after.handlers ensures LegalHandler(x.after, h) {
      var k :| 0 <= k < |x.after.handlers| && x.after.handlers[k] == h;
      NextHandlerIsLegal(x, k);
    }
  }

  lemma NextHandlerIsLegal(x: Pass, k: nat)
    requires IsPass(x) && k < |x.after.handlers|
    ensures LegalHandler(x.after, x.after.handlers[k])
  {
    hide CodeOf, S.Found, S.Continuations, PostFixpoint, Marked, Replay, S.NewProgram, C.Encodable, EndOf, LegalOperands, Renumbered,
      H.RangesEndInside;
    assert D.SameFrame(x.pcs, S.NewProgram(CodeIn(x), x.next).table[k], x.decoded.table[k]);
    assert x.before.handlers[x.decoded.table[k].catchType] in x.before.handlers;
  }

  lemma NonEmpty(m: Method, t: Table, lengths: seq<nat>)
    requires Fits(m, t, lengths) && CodeOf(m, t, lengths).Valid()
    ensures m.code != []
  {
  }

  // ----- the second pass leaves nothing to do -----

  /** What the inliner takes for granted; without subroutines that is nothing. */
  ghost predicate Assumed(m: Method, lengths: seq<nat>, t: Table)
    requires Fits(m, t, lengths) && CodeOf(m, t, lengths).Valid()
  {
    JsrFree(m) || (CleanStacks(t) && S.Nested(CodeOf(m, t, lengths)))
  }

  lemma AssumedIsInlinable(m: Method, lengths: seq<nat>, t: Table, redo: bool, trace: seq<Turn>)
    requires Verified(m, lengths, t, redo, trace) && Assumed(m, lengths, t)
    ensures S.Inlinable(CodeOf(m, t, lengths))
  {
    hide CodeOf, S.Accepted, S.Nested, PostFixpoint, Marked, Replay, C.Encodable, C.TargetsInRange, CleanStacks;
    if JsrFree(m) {
      PlainPass(m, lengths, t, redo, trace);
    } else {
      AnalysedIsAccepted(m, t, redo, trace, lengths);
    }
  }

  lemma PassIsInlinable(x: Pass)
    requires IsPass(x) && Assumed(x.before, x.lengths, x.table)
    ensures S.Inlinable(CodeIn(x))
  {
    AssumedIsInlinable(x.before, x.lengths, x.table, x.redo, x.trace);
  }

  /** The assumptions hold, and every distance fits: no branch of the new code goes astray. */
  ghost predicate PassFits(x: Pass)
    ensures PassFits(x) ==> IsPass(x) && S.Inlinable(CodeIn(x)) && S.BranchesFit(CodeIn(x), x.next)
  {
    IsPass(x) && Assumed(x.before, x.lengths, x.table) && (PassIsInlinable(x); S.BranchesFit(CodeIn(x), x.next))
  }

  lemma SuccessorNumbered(pcs: seq<nat>, a: J.Place, b: J.Place, n: nat, to: nat) returns (k: nat)
    requires n < |pcs| - 1 && a.op.Plain? && D.SameOp(pcs, a.op, b.op) && a.next == pcs[n + 1] && b.next == n + 1 && to in J.Successors(a)
    ensures k < |pcs| && pcs[k] == to && k in J.Successors(b)
  {
    D.SuccessorsNumbered(pcs, a, b, n);
    var c :| 0 <= c < |J.Successors(a)| && J.Successors(a)[c] == to;
    k := J.Successors(b)[c];
  }

  /** An edge of the program is one of the decoded code. */
  lemma EdgeNumbered(p: J.Program, end: nat, d: D.Decoded, pcs: seq<nat>, n: nat, to: nat) returns (k: nat)
    requires D.Decodes(p, end, d, pcs) && n < |d.instrs| && P.Edge(p, pcs[n], to)
    ensures k < |pcs| && pcs[k] == to && P.Edge(D.ProgramOf(d), n, k)
  {
    D.NumberingIncreases(p, end, pcs);
    assert D.IsNumbered(p, pcs, n, d.instrs[n]);
    var a, b, q := p.at[pcs[n]], J.Place(n, d.instrs[n].op, n + 1), D.ProgramOf(d);
    assert q.at[n] == b;
    if f :| f in p.table && J.Covers(f, pcs[n]) && to == f.handler {
      var i :| 0 <= i < |p.table| && p.table[i] == f;
      assert D.SameFrame(pcs, f, d.table[i]);
      k := d.table[i].handler;
      D.OrderKept(pcs, n, d.table[i].start);
      D.OrderKept(pcs, n, d.table[i].end);
      assert q.table[i] in q.table && J.Covers(q.table[i], n);
    } else if a.op.Plain? {
      k := SuccessorNumbered(pcs, a, b, n, to);
    } else if a.op.Goto? || a.op.Jsr? {
      k := b.op.target;
    } else {
      k := n + 1;
    }
  }

  lemma {:induction false} PathNumbered(p: J.Program, end: nat, d: D.Decoded, pcs: seq<nat>, path: seq<nat>) returns (n: nat)
    requires D.Decodes(p, end, d, pcs) && end !in p.at && P.IsPath(p, path)
    ensures n < |pcs| && pcs[n] == path[|path| - 1] && P.Reachable(D.ProgramOf(d), n)
    decreases |path|
  {
    hide P.Edge, D.ProgramOf, D.IsNumbered, D.SameFrame;
    var last := |path| - 1;
    if last == 0 {
      n := 0;
      assert P.IsPath(D.ProgramOf(d), [0]);
    } else {
      assert P.Edge(p, path[last - 1], path[last]);
      forall k | 0 <= k < last - 1 ensures P.Edge(p, path[..last][k], path[..last][k + 1]) {
        assert P.Edge(p, path[k], path[k + 1]);
      }
      var before := PathNumbered(p, end, d, pcs, path[..last]);
      EdgeStarts(p, path[last - 1], path[last]);
      n := EdgeNumbered(p, end, d, pcs, before, path[last]);
      P.ReachableStep(D.ProgramOf(d), before, n);
    }
  }

  lemma EdgeStarts(p: J.Program, a: nat, b: nat)
    requires P.Edge(p, a, b)
    ensures a in p.at
  {
  }

  /** After a pass over code without subroutines every instruction can be reached, if the distances fit. */
  lemma NothingUnreached(x: Pass, n: nat)
    requires JsrFree(x.before) && PassFits(x) && n < |x.after.code|
    ensures P.Reachable(ProgramFor(x.after), n)
  {
    var code := CodeIn(x);
    var p, end := S.NewProgram(code, x.next), EndOf(code);
    PlainPass(x.before, x.lengths, x.table, x.redo, x.trace);
    AfterPass(x);
    R.RewrittenIsFlat(code, x.next);
    hide CodeOf, S.Found, S.Continuations, S.Inlinable, S.BranchesFit, PostFixpoint, Marked, Replay, Legal, P.Edge, C.Encodable, P.Flat,
      EndOf, ProgramFor, D.ProgramOf, Sized;
    assert x.pcs[n] in p.at;
    assert p == S.Rewritten(code, x.next);
    P.NothingLeftToRemove(code, x.next, x.pcs[n]);
    var path :| P.IsPath(p, path) && path[|path| - 1] == x.pcs[n];
    var k := PathNumbered(p, end, x.decoded, x.pcs, path);
    D.NumberingIncreases(p, end, x.pcs);
    D.OrderKept(x.pcs, n, k);
  }

  // ----- the loop -----

  /** The passes lead from one method to the other. */
  ghost predicate Leads(given: Method, passes: seq<Pass>, m: Method) {
    && (if passes == [] then m == given else passes[0].before == given && passes[|passes| - 1].after == m)
    && (forall k | 0 <= k < |passes| :: IsPass(passes[k]))
    && forall k | 0 <= k < |passes| - 1 :: passes[k].after == passes[k + 1].before
  }

  /** In a pass over code without subroutines some branch has become too long for its bytes. */
  ghost predicate GoesAstray(passes: seq<Pass>) {
    exists k :: 0 <= k < |passes| && JsrFree(passes[k].before) && !PassFits(passes[k])
  }

  /** All of the method can be reached. */
  ghost predicate AllReachable(m: Method) {
    forall n: nat | n < |m.code| :: P.Reachable(ProgramFor(m), n)
  }

  /** What is known of the method at the start of a turn. */
  ghost predicate Turned(given: Method, passes: seq<Pass>, m: Method, lengths: seq<nat>) {
    && Leads(given, passes, m) && Sized(m, lengths)
    && (passes != [] ==> NoCallsIn(m))
    && (passes != [] && JsrFree(passes[|passes| - 1].before) && !GoesAstray(passes) ==> AllReachable(m))
    && (|passes| >= 2 ==> JsrFree(passes[|passes| - 1].before))
    && (|passes| <= 2 || GoesAstray(passes))
  }

  lemma StartsTurned(given: Method, lengths: seq<nat>)
    requires Sized(given, lengths)
    ensures Turned(given, [], given, lengths)
  {
  }

  lemma TurnIs(given: Method, passes: seq<Pass>, m: Method, lengths: seq<nat>)
    requires Turned(given, passes, m, lengths)
    ensures Leads(given, passes, m) && Sized(m, lengths) && (passes != [] ==> NoCallsIn(m)) && (|passes| <= 2 || GoesAstray(passes))
  {
  }

  lemma LeadsOn(given: Method, passes: seq<Pass>, x: Pass)
    requires Leads(given, passes, x.before) && IsPass(x)
    ensures Leads(given, passes + [x], x.after)
  {
    hide IsPass;
  }

  lemma StillAstray(passes: seq<Pass>, x: Pass)
    ensures GoesAstray(passes) || (JsrFree(x.before) && !PassFits(x)) <==> GoesAstray(passes + [x])
  {
    hide IsPass, PassFits, JsrFree;
    var more := passes + [x];
    assert more[|passes|] == x;
    if GoesAstray(passes) {
      var k :| 0 <= k < |passes| && JsrFree(passes[k].before) && !PassFits(passes[k]);
      assert more[k] == passes[k];
    }
  }

  lemma ReachesAll(x: Pass)
    requires JsrFree(x.before) && PassFits(x)
    ensures AllReachable(x.after)
  {
    hide IsPass, PassFits, JsrFree, ProgramFor;
    forall n: nat | n < |x.after.code| ensures P.Reachable(ProgramFor(x.after), n) {
      NothingUnreached(x, n);
    }
  }

  /** One more pass, which was needed. */
  lemma OneMore(given: Method, passes: seq<Pass>, x: Pass)
    requires Turned(given, passes, x.before, x.lengths) && IsPass(x)
    requires !(forall i | 0 <= i < |x.table| :: x.table[i].flags.reached && !x.before.code[i].Jsr?)
    ensures Turned(given, passes + [x], x.after, LengthsOf(x.decoded))
    ensures NoCallsIn(x.before) ==> |x.after.code| < |x.before.code|
  {
    hide *;
    TurnIs(given, passes, x.before, x.lengths);
    LeadsOn(given, passes, x);
    StillAstray(passes, x);
    AfterPass(x);
    LegalBefore(x);
    if JsrFree(x.before) && PassFits(x) {
      ReachesAll(x);
    }
    if !GoesAstray(passes) && |passes| >= 2 {
      NotNeeded(given, passes, x);
    }
    if NoCallsIn(x.before) {
      Shorter(x);
      NextLength(x);
    }
    MakesTurn(given, passes, x);
  }

  lemma NextLength(x: Pass)
    requires IsPass(x)
    ensures |x.after.code| == |x.pcs| - 1
  {
    AfterPass(x);
  }

  lemma MakesTurn(given: Method, passes: seq<Pass>, x: Pass)
    requires Leads(given, passes + [x], x.after) && Sized(x.after, LengthsOf(x.decoded)) && NoCallsIn(x.after)
    requires GoesAstray(passes) || (JsrFree(x.before) && !PassFits(x)) <==> GoesAstray(passes + [x])
    requires JsrFree(x.before) && PassFits(x) ==> AllReachable(x.after)
    requires passes != [] ==> JsrFree(x.before)
    requires |passes| <= 1 || GoesAstray(passes)
    ensures Turned(given, passes + [x], x.after, LengthsOf(x.decoded))
  {
    hide Leads, Sized, NoCallsIn, GoesAstray, JsrFree, PassFits, AllReachable, LengthsOf;
    assert (passes + [x])[|passes|] == x;
  }

  lemma LegalBefore(x: Pass)
    requires IsPass(x)
    ensures Legal(x.before) && (NoCallsIn(x.before) ==> JsrFree(x.before))
  {
  }

  /** When everything can be reached and nothing is called there is no further pass. */
  lemma NotNeeded(given: Method, passes: seq<Pass>, x: Pass)
    requires Turned(given, passes, x.before, x.lengths) && IsPass(x) && |passes| >= 2 && !GoesAstray(passes)
    ensures forall i | 0 <= i < |x.table| :: x.table[i].flags.reached && !x.before.code[i].Jsr?
  {
    LegalBefore(x);
    hide Leads, GoesAstray, Sized;
    TableLength(x.before, x.table);
    forall i | 0 <= i < |x.table| ensures x.table[i].flags.reached && !x.before.code[i].Jsr? {
      SameReachable(x.before, i);
      Guarantees.ReachedExactly(x.before, x.table, i);
    }
  }

  lemma Shorter(x: Pass)
    requires IsPass(x) && JsrFree(x.before)
    requires !(forall i | 0 <= i < |x.table| :: x.table[i].flags.reached && !x.before.code[i].Jsr?)
    ensures |x.pcs| - 1 < |x.before.code|
  {
    var code := CodeIn(x);
    PlainPass(x.before, x.lengths, x.table, x.redo, x.trace);
    TableLength(x.before, x.table);
    var i :| 0 <= i < |x.table| && !x.table[i].flags.reached;
    assert RecordOk(x.before, x.table, i);
    InstrAt(x.before, x.table, x.lengths, i);
    NoteReached(x.table, i);
    hide CodeOf, PostFixpoint, S.Inlinable, R.ExactlyMarked, P.Flat, C.Encodable, S.Found, NoteOf, Replay, Marked;
    R.DropsTheRest(code, x.next, EndOf(code), x.pcs);
    R.ReachedBounds(code, |code.instrs|);
  }

  /** The two counts at the end of a turn. */
  method CountUnfinished(a: Analysis) returns (dead: nat, calls: nat)
    requires a.data.Length == |a.m.code|
    ensures dead == 0 <==> forall i | 0 <= i < a.data.Length :: a.data[i].flags.reached
    ensures calls == 0 <==> forall i | 0 <= i < a.data.Length && a.data[i].flags.reached :: !a.m.code[i].Jsr?
  {
    dead, calls := 0, 0;
    var i := 0;
    while i < a.data.Length
      invariant 0 <= i <= a.data.Length
      invariant dead == 0 <==> forall k | 0 <= k < i :: a.data[k].flags.reached
      invariant calls == 0 <==> forall k | 0 <= k < i && a.data[k].flags.reached :: !a.m.code[k].Jsr?
    {
      if !a.data[i].flags.reached {
        dead := dead + 1;
      } else if a.m.code[i].Jsr? {
        calls := calls + 1;
      }
      i := i + 1;
    }
  }

  /** What the loop ends with: code without subroutines that is reached in every part. */
  ghost predicate Done(m: Method) {
    JsrFree(m) && forall i: nat | i < |m.code| :: Reachable(m, i)
  }

  /** Analysed code in which everything is reached and no jsr is left has no ret either. */
  lemma Finished(m: Method, t: Table, redo: bool, trace: seq<Turn>)
    requires Legal(m) && PostFixpoint(m, t) && Marked(m, t) && Replay(m, trace) == Running(redo, t)
    requires forall i | 0 <= i < |t| :: t[i].flags.reached
    requires forall i | 0 <= i < |t| && t[i].flags.reached :: !m.code[i].Jsr?
    ensures Done(m)
  {
    ReplayGrounded(m, trace);
    TableLength(m, t);
    forall i | 0 <= i < |m.code| ensures !m.code[i].Ret? && Known(t, i) {
      assert RecordOk(m, t, i);
      NoRet(m, t, i);
    }
  }

  lemma NoRet(m: Method, t: Table, i: nat)
    requires PostFixpoint(m, t) && Grounded(m, t) && Known(t, i) && i < |m.code| == |t|
    requires forall k | 0 <= k < |t| :: !m.code[k].Jsr?
    ensures !m.code[i].Ret?
  {
    hide PostFixpoint, Grounded;
    if m.code[i].Ret? {
      var q := RetReturns(m, t, i);
      assert false;
    }
  }

  lemma AnalysedLength(m: Method, t: Table)
    requires PostFixpoint(m, t)
    ensures |t| == |m.code|
  {
  }

  lemma VerifiedParts(m: Method, lengths: seq<nat>, t: Table, redo: bool, trace: seq<Turn>)
    requires Verified(m, lengths, t, redo, trace)
    ensures Fits(m, t, lengths) && CodeOf(m, t, lengths).Valid() && C.Encodable(CodeOf(m, t, lengths))
  {
  }

  lemma MakesPass(x: Pass, program: J.Program, end: nat)
    requires Verified(x.before, x.lengths, x.table, x.redo, x.trace) && Fits(x.before, x.table, x.lengths)
    requires CodeOf(x.before, x.table, x.lengths).Valid() && C.Encodable(CodeOf(x.before, x.table, x.lengths))
    requires var code := CodeOf(x.before, x.table, x.lengths);
             && S.Continuations(code, x.next) && S.Found(code, x.next) && program == S.NewProgram(code, x.next)
             && C.InCode(code, I.Emit(code, [])) && end == C.Offset(code, I.Emit(code, []), |I.Emit(code, [])|) && H.RangesEndInside(code)
    requires D.Decodes(program, end, x.decoded, x.pcs)
    ensures ComesFrom(x.before, x.decoded) && (x.after == NextMethod(x.before, x.decoded) ==> IsPass(x))
  {
    NonEmpty(x.before, x.table, x.lengths);
    VerifiedSized(x.before, x.lengths, x.table, x.redo, x.trace);
    DecodedComesFrom(x.before, x.table, x.lengths, x.next, end, x.decoded, x.pcs);
    hide CodeOf, S.Found, S.Continuations, D.Decodes, S.NewProgram, C.Offset, I.Emit, Verified, Sized, Fits, C.Encodable, NextMethod, ComesFrom;
  }

  lemma VerifiedSized(m: Method, lengths: seq<nat>, t: Table, redo: bool, trace: seq<Turn>)
    requires Verified(m, lengths, t, redo, trace)
    ensures Sized(m, lengths)
  {
  }

  lemma FoundInCode(code: I.Code, next: map<seq<nat>, nat>)
    requires code.Valid() && S.Found(code, next)
    ensures C.InCode(code, I.Emit(code, []))
  {
  }

  /** How a turn ends, and the loop. */
  datatype Result = GoesOn | Verifies | Illegal | Rejects | Fails | ReadsBehind

  /** The inliner's assumptions do not hold, or a distance does not fit the bytes of its branch. */
  ghost predicate CannotRewrite(m: Method, lengths: seq<nat>, t: Table, redo: bool, trace: seq<Turn>) {
    && Verified(m, lengths, t, redo, trace)
    && (Assumed(m, lengths, t) ==>
          (AssumedIsInlinable(m, lengths, t, redo, trace);
           exists next :: S.Continuations(CodeOf(m, t, lengths), next) && !S.BranchesFit(CodeOf(m, t, lengths), next)))
  }

  /** What each end means for the method of the turn. */
  ghost predicate Explained(result: Result, m: Method, lengths: seq<nat>) {
    match result
    case GoesOn => true
    case Verifies => Done(m)
    case Illegal => !Legal(m)
    case Rejects => Legal(m) && exists trace :: RejectedBy(m, trace)
    case Fails => exists t, redo, trace :: CannotRewrite(m, lengths, t, redo, trace)
    case ReadsBehind => exists k :: 0 <= k < |m.handlers| && m.handlers[k].end == |m.code|
  }

  /** One turn: it reports an error, or finds nothing left to do, or makes a pass. */
  method Turn(m: Method, lengths: seq<nat>)
    returns (result: Result, after: Method, afterLengths: seq<nat>, ghost x: Pass)
    requires Sized(m, lengths)
    ensures Explained(result, m, lengths)
    ensures result.GoesOn? ==>
              && IsPass(x) && x.before == m && x.lengths == lengths && x.after == after && LengthsOf(x.decoded) == afterLengths
              && !(forall i | 0 <= i < |x.table| :: x.table[i].flags.reached && !m.code[i].Jsr?)
  {
    hide *;
    after, afterLengths := m, lengths;
    x := Pass(m, lengths, [], false, [], map[], D.Decoded([], []), [], m);
    if !Legal(m) {
      IllegalIs(m, lengths);
      return Illegal, after, afterLengths, x;
    }
    var a := new Analysis(m);
    var ok;
    ghost var trace;
    ok, trace := a.Analyse();
    if !ok {
      RejectsIs(m, lengths, trace);
      return Rejects, after, afterLengths, x;
    }
    ghost var redo :| Replay(m, trace) == Running(redo, a.data[..]);
    var t := a.data[..];
    AnalysedLength(m, t);
    var dead, calls := CountUnfinished(a);
    if dead == 0 && calls == 0 {
      Finished(m, t, redo, trace);
      VerifiesIs(m, lengths);
      return Verifies, after, afterLengths, x;
    }
    result, after, afterLengths, x := MakePass(m, lengths, t, redo, trace);
  }

  lemma IllegalIs(m: Method, lengths: seq<nat>)
    ensures !Legal(m) ==> Explained(Illegal, m, lengths)
  {
  }

  lemma RejectsIs(m: Method, lengths: seq<nat>, trace: seq<Turn>)
    requires Legal(m) && RejectedBy(m, trace)
    ensures Explained(Rejects, m, lengths)
  {
  }

  lemma VerifiesIs(m: Method, lengths: seq<nat>)
    requires Done(m)
    ensures Explained(Verifies, m, lengths)
  {
  }

  lemma FailsIs(m: Method, lengths: seq<nat>, t: Table, redo: bool, trace: seq<Turn>)
    requires CannotRewrite(m, lengths, t, redo, trace)
    ensures Explained(Fails, m, lengths)
  {
  }

  /** The inliner only panics when its assumptions do not hold. */
  lemma PanicIs(m: Method, lengths: seq<nat>, t: Table, redo: bool, trace: seq<Turn>)
    requires Verified(m, lengths, t, redo, trace) && !S.Inlinable(CodeOf(m, t, lengths))
    ensures Explained(Fails, m, lengths)
  {
    VerifiedParts(m, lengths, t, redo, trace);
    hide Verified, CodeOf, S.Inlinable, Explained;
    if Assumed(m, lengths, t) {
      AssumedIsInlinable(m, lengths, t, redo, trace);
    }
    FailsIs(m, lengths, t, redo, trace);
  }

  /** What it makes can be decoded unless a branch has become too long for its bytes. */
  lemma IllegibleIs(m: Method, lengths: seq<nat>, t: Table, redo: bool, trace: seq<Turn>, next: map<seq<nat>, nat>, program: J.Program, end: nat)
    requires Verified(m, lengths, t, redo, trace)
    requires var code := CodeOf(m, t, lengths);
             && S.Continuations(code, next) && S.Found(code, next) && program == S.NewProgram(code, next)
             && C.InCode(code, I.Emit(code, [])) && end == C.Offset(code, I.Emit(code, []), |I.Emit(code, [])|)
    requires !exists q :: D.Legible(program, end, q)
    ensures Explained(Fails, m, lengths)
  {
    var code := CodeOf(m, t, lengths);
    hide CodeOf, S.Found, S.Continuations, S.NewProgram, C.Offset, I.Emit, Explained, D.Legible, S.Inlinable, S.BranchesFit, PostFixpoint,
      Marked, Replay, Sized;
    if Assumed(m, lengths, t) {
      AssumedIsInlinable(m, lengths, t, redo, trace);
      if S.BranchesFit(code, next) {
        S.RewrittenIs(code, next);
        R.RewrittenIsLegible(code, next);
        assert false;
      }
      assert S.Continuations(code, next) && !S.BranchesFit(code, next);
    }
    FailsIs(m, lengths, t, redo, trace);
  }

  lemma ReadsBehindIs(m: Method, lengths: seq<nat>, t: Table)
    requires Legal(m) && Fits(m, t, lengths) && !H.RangesEndInside(CodeOf(m, t, lengths))
    ensures Explained(ReadsBehind, m, lengths)
  {
    hide OpOf, NoteOf;
    var code := CodeOf(m, t, lengths);
    var k :| 0 <= k < |code.table| && code.table[k].end >= |code.instrs|;
    assert m.handlers[k] in m.handlers && LegalHandler(m, m.handlers[k]);
  }

  /** rewriteCode, and the decoding of what it makes. */
  method MakePass(m: Method, lengths: seq<nat>, t: Table, ghost redo: bool, ghost trace: seq<Turn>)
    returns (result: Result, after: Method, afterLengths: seq<nat>, ghost x: Pass)
    requires Legal(m) && Sized(m, lengths) && PostFixpoint(m, t) && Marked(m, t) && Replay(m, trace) == Running(redo, t)
    ensures result in {GoesOn, Fails, ReadsBehind} && Explained(result, m, lengths)
    ensures result.GoesOn? ==>
              IsPass(x) && x.before == m && x.lengths == lengths && x.table == t && x.after == after && LengthsOf(x.decoded) == afterLengths
  {
    hide *;
    after, afterLengths := m, lengths;
    x := Pass(m, lengths, t, redo, trace, map[], D.Decoded([], []), [], m);
    VerifiedIs(m, lengths, t, redo, trace);
    VerifiedParts(m, lengths, t, redo, trace);
    var code := CodeOf(m, t, lengths);
    var outcome, program, end, ok, d;
    ghost var next, pcs;
    outcome, program, end, next := P.RewriteCode(code);
    if outcome.Panicked? {
      PanicIs(m, lengths, t, redo, trace);
      return Fails, after, afterLengths, x;
    }
    if outcome.ReadBehind? {
      ReadsBehindIs(m, lengths, t);
      return ReadsBehind, after, afterLengths, x;
    }
    FoundInCode(code, next);
    ok, d, pcs := D.Decode(program, end);
    if !ok {
      IllegibleIs(m, lengths, t, redo, trace, next, program, end);
      return Fails, after, afterLengths, x;
    }
    x := Pass(m, lengths, t, redo, trace, next, d, pcs, m);
    MakesPass(x, program, end);
    after, afterLengths := NextMethod(m, d), LengthsOf(d);
    x := x.(after := after);
    MakesPass(x, program, end);
    GoesOnIs(m, lengths);
    result := GoesOn;
  }

  lemma GoesOnIs(m: Method, lengths: seq<nat>)
    ensures Explained(GoesOn, m, lengths)
  {
  }

  /**
   The loop of verify_method.  It always ends.  On success all of the method can be reached
   and nothing in it is a jsr or a ret; and unless a branch in code without subroutines has
   become too long for its bytes, there were at most two passes.  Of a method that a pass
   has made it only fails if the analysis rejects it, a branch has become too long, or a
   range ends with the code.
   */
  method VerifyMethod(given: Method, givenLengths: seq<nat>)
    returns (result: Result, m: Method, lengths: seq<nat>, ghost passes: seq<Pass>)
    requires Sized(given, givenLengths)
    ensures Leads(given, passes, m)
    ensures |passes| <= 2 || GoesAstray(passes)
    ensures !result.GoesOn? && Explained(result, m, lengths)
    ensures passes != [] ==> JsrFree(m)
  {
    hide *;
    m, lengths, passes := given, givenLengths, [];
    StartsTurned(given, givenLengths);
    while true
      invariant Turned(given, passes, m, lengths) && (passes != [] ==> JsrFree(m))
      decreases if NoCallsIn(m) then 0 else 1, |m.code|
    {
      TurnIs(given, passes, m, lengths);
      var after, afterLengths;
      ghost var x;
      result, after, afterLengths, x := Turn(m, lengths);
      if !result.GoesOn? {
        return;
      }
      OneMore(given, passes, x);
      AfterPass(x);
      NextIsLegal(x);
      IsJsrFree(x.after);
      passes := passes + [x];
      m, lengths := after, afterLengths;
    }
  }

  lemma IsJsrFree(m: Method)
    requires Legal(m) && NoCallsIn(m)
    ensures JsrFree(m)
  {
  }

  // ----- what the passes keep -----

  /** The meaning of instructions and entries, by their numbers after some passes. */
  function SemanticsAfter(m: J.Semantics, passes: seq<Pass>): J.Semantics {
    if passes == [] then m else D.Renamed(SemanticsAfter(m, passes[..|passes| - 1]), passes[|passes| - 1].decoded)
  }

  /** The second program has the runs of the first, with the same events, and they end in the same way. */
  ghost predicate Simulates(m: J.Semantics, p: J.Program, n: J.Semantics, q: J.Program, start: J.State) {
    forall labels | !J.Run(m, p, start, labels).Stuck? ::
      exists others :: J.Events(others) == J.Events(labels) && R.SameEnd(J.Run(m, p, start, labels), J.Run(n, q, start, others))
  }

  lemma SimulatesTransitive(m: J.Semantics, p: J.Program, n: J.Semantics, q: J.Program, o: J.Semantics, r: J.Program, start: J.State)
    requires Simulates(m, p, n, q, start) && Simulates(n, q, o, r, start)
    ensures Simulates(m, p, o, r, start)
  {
    hide J.Run, J.Events;
    forall labels | !J.Run(m, p, start, labels).Stuck?
      ensures exists others :: J.Events(others) == J.Events(labels) && R.SameEnd(J.Run(m, p, start, labels), J.Run(o, r, start, others))
    {
      var some :| J.Events(some) == J.Events(labels) && R.SameEnd(J.Run(m, p, start, labels), J.Run(n, q, start, some));
      var others :| J.Events(others) == J.Events(some) && R.SameEnd(J.Run(n, q, start, some), J.Run(o, r, start, others));
    }
  }

  lemma SimulatesItself(m: J.Semantics, p: J.Program, start: J.State)
    ensures Simulates(m, p, m, p, start)
  {
    hide J.Run, J.Events;
    forall labels | !J.Run(m, p, start, labels).Stuck?
      ensures exists others :: J.Events(others) == J.Events(labels) && R.SameEnd(J.Run(m, p, start, labels), J.Run(m, p, start, others))
    {
      assert J.Events(labels) == J.Events(labels) && R.SameEnd(J.Run(m, p, start, labels), J.Run(m, p, start, labels));
    }
  }

  lemma OnePass(m: J.Semantics, x: Pass, arguments: seq<J.Value>, world: int)
    requires PassFits(x) && |arguments| == x.before.maxLocals && J.AllData(arguments)
    ensures var start := J.Running(0, [], arguments, world);
            && Simulates(m, ProgramFor(x.before), D.Renamed(m, x.decoded), ProgramFor(x.after), start)
            && Simulates(D.Renamed(m, x.decoded), ProgramFor(x.after), m, ProgramFor(x.before), start)
  {
    var code := CodeIn(x);
    AfterPass(x);
    OriginalIs(x.before, x.table, x.lengths);
    FoundInCode(code, x.next);
    assert code.nlocals == x.before.maxLocals;
    S.MadeRight(code, x.next, 0);
    assert D.Decodes(S.MadeReading(code, x.next, 0), C.Offset(code, I.Emit(code, []), |I.Emit(code, [])|), x.decoded, x.pcs);
    hide IsPass, PassFits, CodeOf, S.Inlinable, S.BranchesFit, S.Continuations, D.Decodes, ProgramFor, D.ProgramOf, D.Renamed, J.Run,
      J.Events, S.MadeReading, C.Offset, I.Emit;
    forall labels {
      R.PassPreservesBehaviour(m, code, x.next, 0, x.decoded, x.pcs, arguments, world, labels);
    }
  }

  /**
   All the passes keep the behaviour: the method the loop ends with and the one it was
   given have the same runs.
   */
  lemma {:induction false} PassesPreserveBehaviour(m: J.Semantics, given: Method, passes: seq<Pass>, last: Method,
                                                   arguments: seq<J.Value>, world: int)
    requires Leads(given, passes, last) && (forall k | 0 <= k < |passes| :: PassFits(passes[k]))
    requires |arguments| == given.maxLocals && J.AllData(arguments)
    ensures last.maxLocals == given.maxLocals
    ensures var start := J.Running(0, [], arguments, world);
            && Simulates(m, ProgramFor(given), SemanticsAfter(m, passes), ProgramFor(last), start)
            && Simulates(SemanticsAfter(m, passes), ProgramFor(last), m, ProgramFor(given), start)
    decreases |passes|
  {
    hide IsPass, PassFits, ProgramFor, Simulates;
    var start := J.Running(0, [], arguments, world);
    if passes == [] {
      SimulatesItself(m, ProgramFor(given), start);
    } else {
      var before, x := passes[..|passes| - 1], passes[|passes| - 1];
      LeadsBefore(given, passes, last);
      PassesPreserveBehaviour(m, given, before, x.before, arguments, world);
      KeepsLocals(x);
      var p, r, q := ProgramFor(given), SemanticsAfter(m, before), SemanticsAfter(m, passes);
      OnePass(r, x, arguments, world);
      SimulatesTransitive(m, p, r, ProgramFor(x.before), q, ProgramFor(last), start);
      SimulatesTransitive(q, ProgramFor(last), r, ProgramFor(x.before), m, p, start);
    }
  }

  lemma LeadsBefore(given: Method, passes: seq<Pass>, last: Method)
    requires passes != [] && Leads(given, passes, last)
    ensures passes[|passes| - 1].after == last
    ensures Leads(given, passes[..|passes| - 1], passes[|passes| - 1].before)
  {
    hide IsPass;
  }

  lemma KeepsLocals(x: Pass)
    requires PassFits(x)
    ensures x.after.maxLocals == x.before.maxLocals && IsPass(x)
  {
  }
}
