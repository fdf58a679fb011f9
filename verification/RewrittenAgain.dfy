/** The rewritten method is a method again: its places decode, and the decoded method behaves like the original. */
module RewrittenAgain {
  import opened JsrMachine
  import opened Inliner
  import opened InlinedCode
  import opened InlinedHandlers
  import opened InlinerSoundness
  import P = InlinerPasses
  import opened Decoding

  // ----- the places of the new code -----

  /** The copies that are not skipped, of the first k. */
  function KeptTo(refs: seq<CodeRef>, k: nat): (kept: seq<nat>)
    requires k <= |refs|
    ensures forall n | 0 <= n < |kept| :: kept[n] < k && !refs[kept[n]].flag.Skip?
  {
    if k == 0 then [] else KeptTo(refs, k - 1) + if refs[k - 1].flag.Skip? then [] else [k - 1]
  }

  function Places(code: Code, refs: seq<CodeRef>): (pcs: seq<nat>)
    requires code.Valid() && InCode(code, refs)
    ensures |pcs| == |KeptTo(refs, |refs|)| + 1
  {
    var kept := KeptTo(refs, |refs|);
    seq(|kept| + 1, n requires 0 <= n <= |kept| => if n < |kept| then Offset(code, refs, kept[n]) else Offset(code, refs, |refs|))
  }

  lemma {:induction false} KeptPrefix(refs: seq<CodeRef>, k: nat, m: nat)
    requires k <= m <= |refs|
    ensures KeptTo(refs, k) <= KeptTo(refs, m)
    decreases m
  {
    if k < m {
      KeptPrefix(refs, k, m - 1);
    }
  }

  lemma KeptNext(refs: seq<CodeRef>, k: nat)
    requires k < |refs|
    ensures refs[k].flag.Skip? ==> KeptTo(refs, k + 1) == KeptTo(refs, k)
    ensures !refs[k].flag.Skip? ==> |KeptTo(refs, k)| < |KeptTo(refs, |refs|)| && KeptTo(refs, |refs|)[|KeptTo(refs, k)|] == k
                                    && |KeptTo(refs, k + 1)| == |KeptTo(refs, k)| + 1
  {
    KeptPrefix(refs, k + 1, |refs|);
  }

  /** Every copy stands where the next kept one does. */
  lemma {:induction false} PlaceOf(code: Code, refs: seq<CodeRef>, k: nat)
    requires code.Valid() && InCode(code, refs) && k <= |refs|
    ensures |KeptTo(refs, k)| < |Places(code, refs)| && Places(code, refs)[|KeptTo(refs, k)|] == Offset(code, refs, k)
    decreases |refs| - k
  {
    if k < |refs| {
      KeptNext(refs, k);
      PlaceOf(code, refs, k + 1);
      OffsetsGrow(code, refs, k, k + 1);
    }
  }

  /** A kept copy comes at or behind copy k. */
  predicate KeptAhead(refs: seq<CodeRef>, k: nat) {
    exists m :: k <= m < |refs| && !refs[m].flag.Skip?
  }

  lemma StartsAt(code: Code, refs: seq<CodeRef>, k: nat)
    requires code.Valid() && InCode(code, refs) && k <= |refs| && KeptAhead(refs, k)
    ensures Starts(Places(code, refs), Offset(code, refs, k))
  {
    var m :| k <= m < |refs| && !refs[m].flag.Skip?;
    PlaceOf(code, refs, k);
    KeptNext(refs, m);
    KeptPrefix(refs, k, m);
  }

  lemma {:induction false} KeptAt(refs: seq<CodeRef>, k: nat, n: nat)
    requires k <= |refs| && n < |KeptTo(refs, k)|
    ensures var kept := KeptTo(refs, k);
            && KeptTo(refs, kept[n]) == kept[..n] && KeptTo(refs, kept[n] + 1) == kept[..n + 1]
            && (n > 0 ==> kept[n - 1] < kept[n])
    decreases k
  {
    var kept, before := KeptTo(refs, k), KeptTo(refs, k - 1);
    if n < |before| {
      KeptAt(refs, k - 1, n);
      assert kept[..n] == before[..n] && kept[..n + 1] == before[..n + 1];
    } else {
      assert kept == before + [k - 1];
    }
  }

  /** The place behind a kept copy is that of the next one. */
  lemma NextPlace(code: Code, refs: seq<CodeRef>, n: nat)
    requires code.Valid() && InCode(code, refs) && n < |KeptTo(refs, |refs|)|
    ensures var k := KeptTo(refs, |refs|)[n];
            && Places(code, refs)[n] == Offset(code, refs, k) && Places(code, refs)[n + 1] == Offset(code, refs, k + 1)
            && Offset(code, refs, k) < Offset(code, refs, k + 1)
  {
    var k := KeptTo(refs, |refs|)[n];
    KeptAt(refs, |refs|, n);
    hide Places, Offset, KeptTo;
    PlaceOf(code, refs, k);
    PlaceOf(code, refs, k + 1);
    OffsetsGrow(code, refs, k, k + 1);
  }

  /** The kept copies are the instructions of the new code. */
  lemma NewCodeIsNumbered(code: Code, next: map<seq<nat>, nat>)
    requires code.Valid() && Encodable(code) && Found(code, next) && KeptAhead(Emit(code, []), 0)
    ensures var refs := Emit(code, []);
            && Numbering(NewProgram(code, next), Offset(code, refs, |refs|), Places(code, refs))
            && forall n | 0 <= n < |KeptTo(refs, |refs|)| ::
                 NewProgram(code, next).at[Places(code, refs)[n]] == NewPlace(code, refs, next, KeptTo(refs, |refs|)[n])
  {
    var refs, p := Emit(code, []), NewProgram(code, next);
    var kept, pcs := KeptTo(refs, |refs|), Places(code, refs);
    hide NewPlace, Emit, Places, KeptTo, TargetsFound, Offset, Encodable;
    forall n | 0 <= n < |kept|
      ensures pcs[n] in p.at && p.at[pcs[n]] == NewPlace(code, refs, next, kept[n]) && p.at[pcs[n]].next == pcs[n + 1] > pcs[n]
    {
      NextPlace(code, refs, n);
      PlaceAt(code, refs, next, |refs|, kept[n]);
      NextOfPlace(code, refs, next, kept[n]);
    }
    PlaceOf(code, refs, 0);
    PlaceOf(code, refs, |refs|);
    FirstPlaces(code, refs);
  }

  lemma NextOfPlace(code: Code, refs: seq<CodeRef>, next: map<seq<nat>, nat>, k: nat)
    requires code.Valid() && Encodable(code) && InCode(code, refs) && k < |refs| && TargetsFound(code, refs, next, k)
    ensures NewPlace(code, refs, next, k).next == Offset(code, refs, k + 1) && NewPlace(code, refs, next, k).body == refs[k].inumber
  {
    hide NewOp, TargetsFound, Offset, Encodable;
  }

  lemma FirstPlaces(code: Code, refs: seq<CodeRef>)
    requires code.Valid() && InCode(code, refs) && KeptAhead(refs, 0)
    ensures |Places(code, refs)| > 1 && Places(code, refs)[0] == 0 && Places(code, refs)[|Places(code, refs)| - 1] == Offset(code, refs, |refs|)
  {
    PlaceOf(code, refs, 0);
    var m :| 0 <= m < |refs| && !refs[m].flag.Skip?;
    KeptNext(refs, m);
  }

  // ----- every place that is named is that of an instruction -----

  /** A skipped instruction is followed by another copy. */
  lemma SkippedIsFollowed(code: Code, k: nat)
    requires Inlinable(code) && k < |Emit(code, [])| && Emit(code, [])[k].flag.Skip?
    ensures k + 1 < |Emit(code, [])|
  {
    CopyAt(code, k);
    var calls, i := Emit(code, [])[k].subroutine, Emit(code, [])[k].inumber;
    CheckedAt(code, calls, i);
    SkippedKinds(code, calls, i);
    hide Emit, Inlinable, Checked, Live, Member, Position, Copied;
    if code.instrs[i].op.Jsr? {
      CallTarget(code, k, calls, i);
    } else if code.instrs[i].op.Ret? {
      ReturnIsFollowed(code, calls, i);
    } else {
      AstoreFalls(code, calls, i);
      NextCopy(code, calls, i);
    }
  }

  lemma SkippedKinds(code: Code, calls: seq<nat>, i: nat)
    requires code.Valid() && i < |code.instrs| && Copied(code, calls, i).flag.Skip?
    ensures var op := code.instrs[i].op;
            && (op.Jsr? || op.Ret? || op.Astore?) && (op.Jsr? ==> ReturningJsr(code, i)) && FlagOf(code, calls, i).Skip?
  {
  }

  lemma ReturnIsFollowed(code: Code, calls: seq<nat>, i: nat)
    requires Inlinable(code) && Live(code, calls) && Member(code, i, calls) && code.instrs[i].op.Ret? && FlagOf(code, calls, i).Skip?
    ensures Position(code, calls, i) + 1 < |Emit(code, [])|
  {
    ReturnPlace(code, calls, i);
    RetIsLast(code, calls, i);
    SegmentAt(code, calls);
    RefAt(code, calls[..|calls| - 1], calls[|calls| - 1] + 1);
    hide Emit, EmitTo, Live, Member, Inlinable;
  }

  /** The instruction a ret returns to is in the context of the call. */
  lemma ReturnPlace(code: Code, calls: seq<nat>, i: nat)
    requires Inlinable(code) && Live(code, calls) && Member(code, i, calls) && code.instrs[i].op.Ret?
    ensures calls != []
    ensures var j, outer := calls[|calls| - 1], calls[..|calls| - 1];
            Live(code, outer) && Member(code, j + 1, outer) && j + 1 < |code.instrs|
  {
    CheckedAt(code, calls, i);
    var last := |calls| - 1;
    LiveAt(code, calls, last);
    CheckedAt(code, calls[..last], calls[last]);
  }

  lemma {:induction false} SomethingAhead(code: Code, k: nat)
    requires Inlinable(code) && k < |Emit(code, [])|
    ensures KeptAhead(Emit(code, []), k)
    decreases |Emit(code, [])| - k
  {
    hide Emit, Accepted, Nested;
    if Emit(code, [])[k].flag.Skip? {
      SkippedIsFollowed(code, k);
      SomethingAhead(code, k + 1);
    }
  }

  /** Wherever the new code branches, or returns, there is a copy. */
  lemma ContinuesAt(code: Code, next: map<seq<nat>, nat>, k: nat)
    requires Inlinable(code) && Continuations(code, next) && InCode(code, Emit(code, [])) && k < |Emit(code, [])|
    requires code.instrs[Emit(code, [])[k].inumber].op.Ret?
    ensures Emit(code, [])[k].subroutine in next && next[Emit(code, [])[k].subroutine] < |Emit(code, [])|
  {
    hide Accepted, Nested, TargetsInRange, Encodable, Continuations;
    CopyAt(code, k);
    var calls, i := Emit(code, [])[k].subroutine, Emit(code, [])[k].inumber;
    hide Emit, Live, Member;
    ReturnPlace(code, calls, i);
    ContinuesBehind(code, next, calls, i);
    SegmentAt(code, calls);
    RefAt(code, calls[..|calls| - 1], calls[|calls| - 1] + 1);
  }

  lemma JumpStarts(code: Code, refs: seq<CodeRef>, k: nat, to: int, size: int)
    requires code.Valid() && InCode(code, refs) && k < |refs| && 0 <= to < |refs| && KeptAhead(refs, to) && JumpFits(code, refs, k, to, size)
    ensures Starts(Places(code, refs), Jump(code, refs, k, to, size))
  {
    JumpLands(code, refs, k, to, size);
    StartsAt(code, refs, to);
  }

  lemma NewTargetsStart(code: Code, next: map<seq<nat>, nat>, k: nat)
    requires Inlinable(code) && Continuations(code, next) && BranchesFit(code, next) && InCode(code, Emit(code, []))
    requires k < |Emit(code, [])| && !Emit(code, [])[k].flag.Skip? && TargetsFound(code, Emit(code, []), next, k)
    ensures TargetsStart(Places(code, Emit(code, [])), NewPlace(code, Emit(code, []), next, k).op)
  {
    var refs := Emit(code, []);
    assert FitsAt(code, refs, next, k);
    var instr := code.instrs[refs[k].inumber];
    forall to: nat | to < |refs| ensures KeptAhead(refs, to) {
      SomethingAhead(code, to);
    }
    if instr.op.Ret? {
      ContinuesAt(code, next, k);
    }
    hide Inlinable, Emit, KeptAhead, Places, Offset, Jump, TargetRef, BranchesFit, Continuations, Starts;
    match instr.op {
      case Plain(pops, pushes, loads, stores, falls, targets) =>
        forall n | 0 <= n < |targets| ensures Starts(Places(code, refs), Jump(code, refs, k, TargetRef(refs, refs[k].subroutine, targets[n]), DistanceSize(instr))) {
          JumpStarts(code, refs, k, TargetRef(refs, refs[k].subroutine, targets[n]), DistanceSize(instr));
        }
      case Goto(t) => JumpStarts(code, refs, k, TargetRef(refs, refs[k].subroutine, t), DistanceSize(instr));
      case Jsr(t) => JumpStarts(code, refs, k, TargetRef(refs, JsrContext(refs, k), t), 2);
      case Ret(_) => JumpStarts(code, refs, k, next[refs[k].subroutine], 2);
      case Astore(_) =>
    }
  }

  // ----- the exception table -----

  /** The frames of a table stand at copies, and their handlers before a kept one. */
  predicate FrameAt(code: Code, refs: seq<CodeRef>, g: Frame)
    requires code.Valid() && InCode(code, refs)
  {
    exists k, e, h ::
      && 0 <= k < e <= |refs| && !refs[k].flag.Skip? && (e < |refs| ==> !refs[e].flag.Skip?) && 0 <= h < |refs|
      && g.start == Offset(code, refs, k) && g.end == Offset(code, refs, e) && g.handler == Offset(code, refs, h)
  }

  predicate OpenedAt(code: Code, refs: seq<CodeRef>, k: nat, start: int)
    requires code.Valid() && InCode(code, refs) && k <= |refs|
  {
    start >= 0 ==> exists m :: 0 <= m < k && !refs[m].flag.Skip? && start == Offset(code, refs, m)
  }

  lemma {:induction false} FramesStand(code: Code, refs: seq<CodeRef>, f: Frame, h: nat, k: nat, start: int)
    requires code.Valid() && InCode(code, refs) && h < |refs| && k <= |refs| && OpenedAt(code, refs, k, start)
    ensures forall g | g in FramesFrom(code, refs, f, h, k, start) :: FrameAt(code, refs, g)
    decreases |refs| - k
  {
    hide Offset;
    if k == |refs| || (!refs[k].flag.Skip? && start >= 0 && !InFrame(refs, f, h, k)) {
      if start >= 0 {
        var m :| 0 <= m < k && !refs[m].flag.Skip? && start == Offset(code, refs, m);
        assert FrameAt(code, refs, NewFrame(code, refs, f, h, start, k));
      }
      if k < |refs| {
        FramesStand(code, refs, f, h, k + 1, -1);
      }
    } else if !refs[k].flag.Skip? && InFrame(refs, f, h, k) && start < 0 {
      assert OpenedAt(code, refs, k + 1, Offset(code, refs, k));
      FramesStand(code, refs, f, h, k + 1, Offset(code, refs, k));
    } else {
      FramesStand(code, refs, f, h, k + 1, start);
    }
  }

  lemma {:induction false} CopiesFramesStand(code: Code, refs: seq<CodeRef>, f: Frame, copies: seq<nat>)
    requires code.Valid() && InCode(code, refs) && InBounds(copies, |refs|)
    ensures forall g | g in FramesOfCopies(code, refs, f, copies) :: FrameAt(code, refs, g)
  {
    hide FrameAt, FramesFrom;
    if copies != [] {
      FramesStand(code, refs, f, copies[0], 0, -1);
      CopiesFramesStand(code, refs, f, copies[1..]);
    }
  }

  lemma {:induction false} TableStands(code: Code, refs: seq<CodeRef>, table: seq<Frame>)
    requires code.Valid() && InCode(code, refs)
    ensures forall g | g in NewTable(code, refs, table) :: FrameAt(code, refs, g)
  {
    hide FrameAt, FramesOfCopies;
    if table != [] {
      CopiesFramesStand(code, refs, table[0], CopiesIn(refs, table[0].handler));
      TableStands(code, refs, table[1..]);
    }
  }

  lemma FrameIsStarted(code: Code, refs: seq<CodeRef>, g: Frame)
    requires code.Valid() && InCode(code, refs) && FrameAt(code, refs, g)
    requires forall k: nat | k < |refs| :: KeptAhead(refs, k)
    ensures FrameStarts(Places(code, refs), g)
  {
    hide KeptAhead, Places, Offset, Starts, KeptTo;
    var k, e, h :|
      && 0 <= k < e <= |refs| && !refs[k].flag.Skip? && (e < |refs| ==> !refs[e].flag.Skip?) && 0 <= h < |refs|
      && g.start == Offset(code, refs, k) && g.end == Offset(code, refs, e) && g.handler == Offset(code, refs, h);
    OffsetsGrow(code, refs, k, e);
    StartsAt(code, refs, k);
    StartsAt(code, refs, h);
    if e < |refs| {
      StartsAt(code, refs, e);
    } else {
      FirstPlaces(code, refs);
    }
  }

  /** The rewritten method passes the first checks of the next verification. */
  lemma RewrittenIsLegible(code: Code, next: map<seq<nat>, nat>)
    requires Inlinable(code) && Continuations(code, next) && BranchesFit(code, next) && Found(code, next)
    ensures Legible(Rewritten(code, next), Offset(code, Emit(code, []), |Emit(code, [])|), Places(code, Emit(code, [])))
  {
    var refs, p := Emit(code, []), Rewritten(code, next);
    RefAtStart(code);
    forall k: nat | k < |refs| ensures KeptAhead(refs, k) {
      SomethingAhead(code, k);
    }
    NewCodeIsNumbered(code, next);
    TableStands(code, refs, code.table);
    var kept, pcs := KeptTo(refs, |refs|), Places(code, refs);
    hide Inlinable, Emit, KeptAhead, Places, Offset, KeptTo, BranchesFit, Continuations, TargetsStart, FrameAt, FrameStarts, NewPlace, NewTable, TargetsFound, PlacesTo, Numbering;
    forall n | 0 <= n < |pcs| - 1 ensures TargetsStart(pcs, p.at[pcs[n]].op) {
      NewTargetsStart(code, next, kept[n]);
    }
    forall k | 0 <= k < |p.table| ensures FrameStarts(pcs, p.table[k]) {
      FrameIsStarted(code, refs, p.table[k]);
    }
  }

  lemma RefAtStart(code: Code)
    requires Inlinable(code)
    ensures |Emit(code, [])| > 0 && code.Valid() && Encodable(code)
  {
    assert Member(code, 0, []) && Live(code, []);
    hide Accepted, Nested;
    RefAt(code, [], 0);
  }

  // ----- one pass -----

  /** Both methods are still running, or they have ended in the same way. */
  predicate SameEnd(s: State, t: State) {
    (s.Running? <==> t.Running?) && (!s.Running? ==> s == t)
  }

  lemma RewrittenIsFlat(code: Code, next: map<seq<nat>, nat>)
    requires code.Valid() && Encodable(code) && Found(code, next)
    ensures NoSubroutines(NewProgram(code, next))
    ensures Offset(code, Emit(code, []), |Emit(code, [])|) !in NewProgram(code, next).at
  {
    assert InCode(code, Emit(code, []));
    hide Found, NewProgram, Emit, Encodable, Offset;
    forall pc | pc in NewProgram(code, next).at
      ensures !NewProgram(code, next).at[pc].op.Jsr? && !NewProgram(code, next).at[pc].op.Ret? && pc != Offset(code, Emit(code, []), |Emit(code, [])|)
    {
      P.NoSubroutinesLeft(code, next, pc);
    }
  }

  /**
   One pass of the loop in verify_method, rewriting and decoding, gives a method with the
   runs of the original.  The instructions and events keep their meaning under new numbers.
   */
  lemma PassPreservesBehaviour(m: Semantics, code: Code, next: map<seq<nat>, nat>, behind: int, d: Decoded, pcs: seq<nat>,
                               arguments: seq<Value>, world: int, labels: seq<Label>)
    requires Inlinable(code) && Continuations(code, next) && BranchesFit(code, next) && Found(code, next) && EndsKnown(code, behind)
    requires Decodes(MadeReading(code, next, behind), Offset(code, Emit(code, []), |Emit(code, [])|), d, pcs)
    requires |arguments| == code.nlocals && AllData(arguments)
    ensures var start := Running(0, [], arguments, world);
            && (!Run(m, Original(code), start, labels).Stuck? ==>
                  exists others :: Events(others) == Events(labels) &&
                    SameEnd(Run(m, Original(code), start, labels), Run(Renamed(m, d), ProgramOf(d), start, others)))
            && (!Run(Renamed(m, d), ProgramOf(d), start, labels).Stuck? ==>
                  exists others :: Events(others) == Events(labels) &&
                    SameEnd(Run(m, Original(code), start, others), Run(Renamed(m, d), ProgramOf(d), start, labels)))
  {
    var start, end := Running(0, [], arguments, world), Offset(code, Emit(code, []), |Emit(code, [])|);
    var p, q := Original(code), MadeReading(code, next, behind);
    MadeRight(code, next, behind);
    RewrittenIsFlat(code, next);
    assert SameState(pcs, start, start);
    InliningPreservesBehaviour(m, code, next, behind, arguments, world, labels);
    hide Inlinable, Emit, BranchesFit, Continuations, Decodes, ProgramOf, Renamed, Run, Original, MadeReading, Offset, Found, NewProgram;
    if !Run(m, p, start, labels).Stuck? {
      var others :| Events(others) == Events(labels) && Matched(code, Run(m, p, start, labels), Run(m, q, start, others));
      RunNumbered(m, q, end, d, pcs, start, start, others);
    }
    if !Run(Renamed(m, d), ProgramOf(d), start, labels).Stuck? {
      RunNumbered(m, q, end, d, pcs, start, start, labels);
      var others :| Events(others) == Events(labels) && Matched(code, Run(m, p, start, others), Run(m, q, start, labels));
    }
  }

  // ----- code without subroutines -----

  predicate NoCalls(code: Code) {
    forall i | 0 <= i < |code.instrs| :: !code.instrs[i].op.Jsr? && !code.instrs[i].op.Ret?
  }

  /** The verifier has marked what can be reached, and nothing else. */
  ghost predicate ExactlyMarked(code: Code)
    requires code.Valid()
  {
    forall i: nat | i < |code.instrs| :: code.notes[i].Reached? <==> P.Reachable(Original(code), i)
  }

  /** A note of no subroutine, that knows of no return address. */
  predicate PlainNote(n: Note) {
    && n.Reached? && n.context == [] && (forall k | 0 <= k < |n.stack| :: n.stack[k] == Word)
    && forall r | r in n.registers :: n.registers[r] == Word
  }

  function EntrySet(context: seq<nat>): (r: set<nat>)
    ensures r == {} <==> context == []
  {
    var all := set e | e in context;
    assert context != [] ==> context[0] in all;
    all
  }

  lemma KeptEntries(context: seq<nat>, changed: seq<set<nat>>, note: Note)
    requires |context| == |changed| && note.Reached? && Kept(context, changed, note)
    ensures EntrySet(note.context) <= EntrySet(context)
  {
    forall e | e in note.context ensures e in context {
      var p :| 0 <= p < |note.context| && note.context[p] == e;
      var q :| 0 <= q < |context| && context[q] == note.context[p] && changed[q] <= note.changed[p];
    }
  }

  lemma ArrivesPlain(code: Code, out: Note, t: nat)
    requires code.Valid() && PlainNote(out) && |out.changed| == |out.context| && Arrives(code, out, t)
    ensures t < |code.notes| && PlainNote(code.notes[t])
  {
    var n := code.notes[t];
    KeptEntries(out.context, out.changed, n);
    hide EntrySet;
  }

  lemma EdgeIsPlain(code: Code, i: nat, j: nat)
    requires Accepted(code) && NoCalls(code) && i < |code.instrs| && PlainNote(code.notes[i]) && P.Edge(Original(code), i, j)
    ensures j < |code.notes| && PlainNote(code.notes[j])
  {
    assert AcceptedAt(code, i);
    OriginalAt(code, i);
    var op, n := code.instrs[i].op, code.notes[i];
    hide Original, Arrives, RetsDiffer, Accepted;
    if exists f :: f in code.table && Covers(f, i) && j == f.handler {
      var f :| f in code.table && Covers(f, i) && j == f.handler;
      var k :| 0 <= k < |code.table| && code.table[k] == f;
      ArrivesPlain(code, n.(stack := [Word]), j);
    } else if op.Plain? {
      assert PopsWords(code, i);
      var place := Place(i, op, i + 1);
      var c :| 0 <= c < |Successors(place)| && Successors(place)[c] == j;
      SuccessorAt(place, c);
      ArrivesPlain(code, PlainOut(code, i), j);
    } else if op.Goto? {
      ArrivesPlain(code, n, j);
    } else {
      ArrivesPlain(code, AstoreOut(n, op.register), j);
    }
  }

  lemma {:induction false} PathIsPlain(code: Code, path: seq<nat>)
    requires Accepted(code) && NoCalls(code) && P.IsPath(Original(code), path)
    ensures path[|path| - 1] < |code.notes| && PlainNote(code.notes[path[|path| - 1]])
    decreases |path|
  {
    hide Original, AcceptedAt, NoCalls, P.Edge;
    var last := |path| - 1;
    if last > 0 {
      assert P.Edge(Original(code), path[last - 1], path[last]);
      forall n | 0 <= n < last - 1 ensures P.Edge(Original(code), path[..last][n], path[..last][n + 1]) {
        assert P.Edge(Original(code), path[n], path[n + 1]);
      }
      PathIsPlain(code, path[..last]);
      EdgeIsPlain(code, path[last - 1], path[last]);
    }
  }

  /** Accepted code without subroutines meets what the inliner takes for granted. */
  lemma PlainIsNested(code: Code)
    requires Accepted(code) && NoCalls(code) && ExactlyMarked(code)
    ensures Nested(code) && P.Flat(code)
  {
    forall i | 0 <= i < |code.instrs| && code.notes[i].Reached? ensures PlainNote(code.notes[i]) && AcceptedAt(code, i) {
      var path :| P.IsPath(Original(code), path) && path[|path| - 1] == i;
      PathIsPlain(code, path);
    }
    hide Accepted, ExactlyMarked, Live, P.IsPath, P.Edge, Original, Arrives, HandlersArrive;
    assert AddressesOnlyStored(code);
    hide PopsWords, AddressesOnlyStored, AcceptedAt;
  }

  // ----- how long the rewritten code is -----

  function ReachedIn(code: Code, n: nat): nat
    requires code.Valid() && n <= |code.instrs|
  {
    if n == 0 then 0 else ReachedIn(code, n - 1) + if code.notes[n - 1].Reached? then 1 else 0
  }

  lemma {:induction false} FlatLength(code: Code, n: nat)
    requires code.Valid() && P.Flat(code) && n <= |code.instrs|
    ensures |EmitTo(code, [], n)| == ReachedIn(code, n)
  {
    if n > 0 {
      FlatLength(code, n - 1);
      assert Entries(code, []) == [];
      assert Member(code, n - 1, []) <==> code.notes[n - 1].Reached?;
      EmitStep(code, [], n - 1);
      hide EmitTo;
    }
  }

  lemma {:induction false} ReachedBounds(code: Code, n: nat)
    requires code.Valid() && n <= |code.instrs|
    ensures ReachedIn(code, n) <= n
    ensures ReachedIn(code, n) == n <==> forall i | 0 <= i < n :: code.notes[i].Reached?
  {
    if n > 0 {
      ReachedBounds(code, n - 1);
    }
  }

  lemma {:induction false} FewPlaces(code: Code, refs: seq<CodeRef>, next: map<seq<nat>, nat>, n: nat)
    requires code.Valid() && Encodable(code) && InCode(code, refs) && n <= |refs| && AllTargetsFound(code, refs, next, n)
    ensures |PlacesTo(code, refs, next, n)| <= n
  {
    hide NewPlace, TargetsFound, Offset, Encodable;
    if n > 0 {
      FewPlaces(code, refs, next, n - 1);
      if !refs[n - 1].flag.Skip? {
        var before := PlacesTo(code, refs, next, n - 1);
        var pc := Offset(code, refs, n - 1);
        assert before[pc := NewPlace(code, refs, next, n - 1)].Keys == before.Keys + {pc};
      }
    }
  }

  function PlacesSet(pcs: seq<nat>, n: nat): set<nat>
    requires n <= |pcs|
  {
    set k | 0 <= k < n :: pcs[k]
  }

  lemma {:induction false} NumberedPlaces(pcs: seq<nat>, n: nat)
    requires Increasing(pcs) && n <= |pcs|
    ensures |PlacesSet(pcs, n)| == n
  {
    hide Increasing;
    if n > 0 {
      NumberedPlaces(pcs, n - 1);
      forall k | 0 <= k < n - 1 ensures pcs[k] != pcs[n - 1] {
        IncreasingAll(pcs, k, n - 1);
      }
      assert PlacesSet(pcs, n) == PlacesSet(pcs, n - 1) + {pcs[n - 1]};
    }
  }

  lemma SubsetSize(a: set<nat>, b: set<nat>)
    requires a <= b
    ensures |a| <= |b|
  {
    assert b == a + (b - a);
  }

  /** A pass over code without subroutines drops every instruction that is not reached. */
  lemma DropsTheRest(code: Code, next: map<seq<nat>, nat>, end: nat, pcs: seq<nat>)
    requires code.Valid() && Encodable(code) && P.Flat(code) && Found(code, next) && Numbering(NewProgram(code, next), end, pcs)
    ensures |pcs| - 1 <= ReachedIn(code, |code.instrs|)
  {
    var refs := Emit(code, []);
    FlatLength(code, |code.instrs|);
    FewPlaces(code, refs, next, |refs|);
    NumberingIncreases(NewProgram(code, next), end, pcs);
    NumberedPlaces(pcs, |pcs| - 1);
    SubsetSize(PlacesSet(pcs, |pcs| - 1), NewProgram(code, next).at.Keys);
  }
}
