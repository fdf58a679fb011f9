/** The exception table of the rewritten code (fixupExceptionHandlers). */
module InlinedHandlers {
  import opened JsrMachine
  import opened Inliner
  import opened InlinedCode

  /** Copy k was in the range of entry f and may see copy h of its handler. */
  predicate InFrame(refs: seq<CodeRef>, f: Frame, h: nat, k: nat)
    requires h < |refs| && k < |refs|
  {
    !refs[k].flag.Skip? && f.start <= refs[k].inumber < f.end && refs[h].subroutine <= refs[k].subroutine
  }

  /** The frames that copy h of the handler gets from copy k on; `start` is that of the open frame, or -1. */
  function FramesFrom(code: Code, refs: seq<CodeRef>, f: Frame, h: nat, k: nat, start: int): seq<Frame>
    requires code.Valid() && InCode(code, refs) && h < |refs| && k <= |refs|
    decreases |refs| - k
  {
    if k == |refs| then if start >= 0 then [NewFrame(code, refs, f, h, start, k)] else []
    else if refs[k].flag.Skip? then FramesFrom(code, refs, f, h, k + 1, start)
    else if InFrame(refs, f, h, k) && start < 0 then FramesFrom(code, refs, f, h, k + 1, Offset(code, refs, k))
    else if !InFrame(refs, f, h, k) && start >= 0 then
      [NewFrame(code, refs, f, h, start, k)] + FramesFrom(code, refs, f, h, k + 1, -1)
    else FramesFrom(code, refs, f, h, k + 1, start)
  }

  function NewFrame(code: Code, refs: seq<CodeRef>, f: Frame, h: nat, start: nat, k: nat): Frame
    requires code.Valid() && InCode(code, refs) && h < |refs| && k <= |refs|
  {
    Frame(start, Offset(code, refs, k), Offset(code, refs, h), f.catchType)
  }

  /** The frames for all copies of the handler, in the order of the mapping list. */
  function FramesOfCopies(code: Code, refs: seq<CodeRef>, f: Frame, copies: seq<nat>): seq<Frame>
    requires code.Valid() && InCode(code, refs) && InBounds(copies, |refs|)
  {
    if copies == [] then []
    else FramesFrom(code, refs, f, copies[0], 0, -1) + FramesOfCopies(code, refs, f, copies[1..])
  }

  function CopiesIn(refs: seq<CodeRef>, i: nat): (r: seq<nat>)
    ensures InBounds(r, |refs|)
  {
    CopiesAre(refs, i);
    Copies(refs, i)
  }

  function NewTable(code: Code, refs: seq<CodeRef>, table: seq<Frame>): seq<Frame>
    requires code.Valid() && InCode(code, refs)
  {
    if table == [] then []
    else FramesOfCopies(code, refs, table[0], CopiesIn(refs, table[0].handler)) + NewTable(code, refs, table[1..])
  }

  /** The table as it is read when the element behind code_data is `behind`: the ends of ranges that end with the code. */
  function EndsRead(table: seq<Frame>, n: nat, behind: int): (r: seq<Frame>)
    ensures |r| == |table|
  {
    seq(|table|, i requires 0 <= i < |table| => if table[i].end < n then table[i] else table[i].(end := if behind < 0 then 0 else behind))
  }

  /** No range of the exception table ends with the code. */
  predicate RangesEndInside(code: Code) {
    forall i | 0 <= i < |code.table| :: code.table[i].end < |code.instrs|
  }

  /** The table comes out right if nothing is read behind code_data, or if what is read there is no smaller than any number. */
  predicate EndsKnown(code: Code, behind: int) {
    RangesEndInside(code) || behind >= |code.instrs|
  }

  lemma {:induction false} FramesOfEnds(code: Code, refs: seq<CodeRef>, f: Frame, g: Frame, h: nat, k: nat, start: int)
    requires code.Valid() && InCode(code, refs) && h < |refs| && k <= |refs|
    requires f.start == g.start && f.catchType == g.catchType && (f.end == g.end || (f.end >= |code.instrs| && g.end >= |code.instrs|))
    ensures FramesFrom(code, refs, f, h, k, start) == FramesFrom(code, refs, g, h, k, start)
    decreases |refs| - k
  {
    if k < |refs| {
      hide Offset;
      assert InFrame(refs, f, h, k) == InFrame(refs, g, h, k);
      FramesOfEnds(code, refs, f, g, h, k + 1, start);
      FramesOfEnds(code, refs, f, g, h, k + 1, -1);
      FramesOfEnds(code, refs, f, g, h, k + 1, Offset(code, refs, k));
    }
  }

  lemma {:induction false} CopiesOfEnds(code: Code, refs: seq<CodeRef>, f: Frame, g: Frame, copies: seq<nat>)
    requires code.Valid() && InCode(code, refs) && InBounds(copies, |refs|)
    requires f.start == g.start && f.catchType == g.catchType && (f.end == g.end || (f.end >= |code.instrs| && g.end >= |code.instrs|))
    ensures FramesOfCopies(code, refs, f, copies) == FramesOfCopies(code, refs, g, copies)
  {
    hide FramesFrom;
    if copies != [] {
      FramesOfEnds(code, refs, f, g, copies[0], 0, -1);
      CopiesOfEnds(code, refs, f, g, copies[1..]);
    }
  }

  lemma {:induction false} EndsReadRight(code: Code, refs: seq<CodeRef>, table: seq<Frame>, behind: int)
    requires code.Valid() && InCode(code, refs)
    requires forall i | 0 <= i < |table| :: table[i].end < |code.instrs| || behind >= |code.instrs|
    ensures NewTable(code, refs, EndsRead(table, |code.instrs|, behind)) == NewTable(code, refs, table)
  {
    hide FramesOfCopies, CopiesIn;
    if table != [] {
      var read := EndsRead(table, |code.instrs|, behind);
      assert read[1..] == EndsRead(table[1..], |code.instrs|, behind);
      EndsReadRight(code, refs, table[1..], behind);
      CopiesOfEnds(code, refs, read[0], table[0], CopiesIn(refs, table[0].handler));
    }
  }

  // ----- the loops -----

  method BuildFrames(code: Code, refs: seq<CodeRef>, offsets: seq<nat>, f: Frame, h: nat) returns (frames: seq<Frame>)
    requires code.Valid() && InCode(code, refs) && h < |refs| && Offsets(code, refs, offsets)
    ensures frames == FramesFrom(code, refs, f, h, 0, -1)
  {
    hide Offset;
    frames := [];
    var wasMatch, start := false, 0;
    var k := 0;
    while k < |refs|
      invariant 0 <= k <= |refs|
      invariant frames + FramesFrom(code, refs, f, h, k, if wasMatch then start else -1) == FramesFrom(code, refs, f, h, 0, -1)
    {
      if !refs[k].flag.Skip? {
        var thisMatch := false;
        if f.start <= refs[k].inumber < f.end {
          thisMatch := SubroutineGoto(refs[k].subroutine, refs[h].subroutine);
        }
        if thisMatch && !wasMatch {
          start, wasMatch := offsets[k], true;
        } else if wasMatch && !thisMatch {
          frames := frames + [Frame(start, offsets[k], offsets[h], f.catchType)];
          wasMatch := false;
        }
      }
      k := k + 1;
    }
    if wasMatch {
      frames := frames + [Frame(start, offsets[k], offsets[h], f.catchType)];
    }
  }

  method BuildFramesOfCopies(code: Code, refs: seq<CodeRef>, offsets: seq<nat>, f: Frame, copies: seq<nat>) returns (frames: seq<Frame>)
    requires code.Valid() && InCode(code, refs) && Offsets(code, refs, offsets) && copies == CopiesIn(refs, f.handler)
    ensures frames == FramesOfCopies(code, refs, f, copies)
  {
    hide Offset, FramesFrom;
    frames := [];
    var n := 0;
    while n < |copies|
      invariant 0 <= n <= |copies|
      invariant frames + FramesOfCopies(code, refs, f, copies[n..]) == FramesOfCopies(code, refs, f, copies)
    {
      var some := BuildFrames(code, refs, offsets, f, copies[n]);
      assert copies[n..][0] == copies[n] && copies[n..][1..] == copies[n + 1..];
      frames := frames + some;
      n := n + 1;
    }
  }

  // ----- what the new frames cover -----

  predicate Covered(frames: seq<Frame>, pc: nat) {
    exists i :: 0 <= i < |frames| && Covers(frames[i], pc)
  }

  lemma CoveredPlus(f: Frame, rest: seq<Frame>, pc: nat)
    ensures Covered([f] + rest, pc) <==> Covers(f, pc) || Covered(rest, pc)
  {
    var all := [f] + rest;
    assert all[0] == f;
    if Covered(rest, pc) {
      var i :| 0 <= i < |rest| && Covers(rest[i], pc);
      assert all[i + 1] == rest[i];
    }
    if Covered(all, pc) {
      var i :| 0 <= i < |all| && Covers(all[i], pc);
      assert i > 0 ==> all[i] == rest[i - 1];
    }
  }

  /** An open frame started at an earlier copy. */
  predicate OpenAt(code: Code, refs: seq<CodeRef>, k: nat, start: int)
    requires code.Valid() && InCode(code, refs) && k <= |refs|
  {
    start <= Offset(code, refs, k)
  }

  lemma {:induction false} FramesCover(code: Code, refs: seq<CodeRef>, f: Frame, h: nat, k: nat, start: int, m: nat)
    requires code.Valid() && InCode(code, refs) && h < |refs| && k <= |refs| && OpenAt(code, refs, k, start)
    requires m < |refs| && !refs[m].flag.Skip?
    ensures m >= k ==> (Covered(FramesFrom(code, refs, f, h, k, start), Offset(code, refs, m)) <==> InFrame(refs, f, h, m))
    ensures m < k ==> (Covered(FramesFrom(code, refs, f, h, k, start), Offset(code, refs, m)) <==> 0 <= start <= Offset(code, refs, m))
    decreases |refs| - k
  {
    var pc := Offset(code, refs, m);
    if m < k {
      OffsetsGrow(code, refs, m, k);
    } else if m > k {
      OffsetsGrow(code, refs, k, m);
    }
    if k < |refs| {
      OffsetsGrow(code, refs, k, k + 1);
      hide Offset, InFrame;
      if !refs[k].flag.Skip? && InFrame(refs, f, h, k) && start < 0 {
        FramesCover(code, refs, f, h, k + 1, Offset(code, refs, k), m);
      } else if !refs[k].flag.Skip? && !InFrame(refs, f, h, k) && start >= 0 {
        FramesCover(code, refs, f, h, k + 1, -1, m);
        CoveredPlus(NewFrame(code, refs, f, h, start, k), FramesFrom(code, refs, f, h, k + 1, -1), pc);
      } else {
        FramesCover(code, refs, f, h, k + 1, start, m);
      }
    } else if start >= 0 {
      CoveredPlus(NewFrame(code, refs, f, h, start, k), [], pc);
      assert [NewFrame(code, refs, f, h, start, k)] + [] == [NewFrame(code, refs, f, h, start, k)];
    }
  }

  lemma {:induction false} FramesAgree(code: Code, refs: seq<CodeRef>, f: Frame, h: nat, k: nat, start: int)
    requires code.Valid() && InCode(code, refs) && h < |refs| && k <= |refs|
    ensures forall g | g in FramesFrom(code, refs, f, h, k, start) :: g.handler == Offset(code, refs, h) && g.catchType == f.catchType
    decreases |refs| - k
  {
    hide Offset;
    if k < |refs| {
      FramesAgree(code, refs, f, h, k + 1, start);
      FramesAgree(code, refs, f, h, k + 1, -1);
      FramesAgree(code, refs, f, h, k + 1, Offset(code, refs, k));
    }
  }

  /**
   A copy is covered by a new frame of copy h of the handler exactly when the original was
   in the old range and h is visible from its context.
   */
  lemma CoveredExactly(code: Code, refs: seq<CodeRef>, f: Frame, h: nat, k: nat)
    requires code.Valid() && InCode(code, refs) && h < |refs| && k < |refs| && !refs[k].flag.Skip?
    ensures (exists g :: g in FramesFrom(code, refs, f, h, 0, -1) && Covers(g, Offset(code, refs, k))) <==>
            f.start <= refs[k].inumber < f.end && refs[h].subroutine <= refs[k].subroutine
    ensures forall g | g in FramesFrom(code, refs, f, h, 0, -1) :: g.handler == Offset(code, refs, h) && g.catchType == f.catchType
  {
    FramesCover(code, refs, f, h, 0, -1, k);
    FramesAgree(code, refs, f, h, 0, -1);
    var frames := FramesFrom(code, refs, f, h, 0, -1);
    if Covered(frames, Offset(code, refs, k)) {
      var i :| 0 <= i < |frames| && Covers(frames[i], Offset(code, refs, k));
      assert frames[i] in frames;
    }
  }

  // ----- the order of entries -----

  lemma {:induction false} HandlerOfFrames(m: Semantics, frames: seq<Frame>, rest: seq<Frame>, pc: nat, world: int, x: int, handler: nat, catchType: nat)
    requires forall g | g in frames :: g.handler == handler && g.catchType == catchType
    ensures Handler(m, frames + rest, pc, world, x) ==
            if Covered(frames, pc) && m.caught(catchType, world, x) then handler else Handler(m, rest, pc, world, x)
  {
    if frames == [] {
      assert frames + rest == rest;
    } else {
      var f := frames[0];
      assert f in frames;
      assert (frames + rest)[1..] == frames[1..] + rest;
      HandlerOfFrames(m, frames[1..], rest, pc, world, x, handler, catchType);
      assert [f] + frames[1..] == frames;
      CoveredPlus(f, frames[1..], pc);
    }
  }

  lemma {:induction false} HandlerOfCopies(m: Semantics, code: Code, refs: seq<CodeRef>, f: Frame, copies: seq<nat>, rest: seq<Frame>, k: nat, world: int, x: int)
    requires code.Valid() && InCode(code, refs) && InBounds(copies, |refs|) && k < |refs| && !refs[k].flag.Skip?
    ensures var c := FirstVisible(refs, copies, refs[k].subroutine);
            Handler(m, FramesOfCopies(code, refs, f, copies) + rest, Offset(code, refs, k), world, x) ==
            if Covers(f, refs[k].inumber) && m.caught(f.catchType, world, x) && c >= 0 then Offset(code, refs, c)
            else Handler(m, rest, Offset(code, refs, k), world, x)
  {
    hide Offset, FramesFrom;
    if copies == [] {
      assert FramesOfCopies(code, refs, f, copies) + rest == rest;
    } else {
      var h := copies[0];
      var frames, others := FramesFrom(code, refs, f, h, 0, -1), FramesOfCopies(code, refs, f, copies[1..]);
      FramesCover(code, refs, f, h, 0, -1, k);
      FramesAgree(code, refs, f, h, 0, -1);
      HandlerOfFrames(m, frames, others + rest, Offset(code, refs, k), world, x, Offset(code, refs, h), f.catchType);
      assert frames + others + rest == frames + (others + rest);
      HandlerOfCopies(m, code, refs, f, copies[1..], rest, k, world, x);
    }
  }

  /** Every handler that an instruction of the context may reach has a visible copy. */
  predicate HandlersVisible(code: Code, table: seq<Frame>, calls: seq<nat>, i: nat)
    requires code.Valid()
  {
    forall n | 0 <= n < |table| && Covers(table[n], i) :: VisibleFrom(code, calls, table[n].handler)
  }

  /** A copy finds the visible copy of the handler that the original would find: first matches stay first. */
  lemma {:induction false} HandlerKept(m: Semantics, code: Code, table: seq<Frame>, k: nat, world: int, x: int)
    requires code.Valid() && k < |Emit(code, [])| && InCode(code, Emit(code, [])) && !Emit(code, [])[k].flag.Skip?
    requires var r := Emit(code, [])[k]; HandlersVisible(code, table, r.subroutine, r.inumber)
    ensures var refs, r := Emit(code, []), Emit(code, [])[k];
            var h := Handler(m, table, r.inumber, world, x);
            && (h < 0 ==> Handler(m, NewTable(code, refs, table), Offset(code, refs, k), world, x) == -1)
            && (h >= 0 ==>
                  && VisibleFrom(code, r.subroutine, h) && TargetRef(refs, r.subroutine, h) >= 0
                  && Handler(m, NewTable(code, refs, table), Offset(code, refs, k), world, x) ==
                     Offset(code, refs, TargetRef(refs, r.subroutine, h)))
  {
    hide Offset, Emit, FramesOfCopies, VisibleFrom;
    var refs := Emit(code, []);
    var r := refs[k];
    if table != [] {
      var f := table[0];
      HandlerOfCopies(m, code, refs, f, CopiesIn(refs, f.handler), NewTable(code, refs, table[1..]), k, world, x);
      if Covers(f, r.inumber) {
        CopyAt(code, k);
        VisibleCopyIsUnique(code, r.subroutine, f.handler);
      }
      HandlerKept(m, code, table[1..], k, world, x);
    }
  }
}
