/** Layout, branch targets and exception table of the rewritten code (fixupCode and its companions). */
module InlinedCode {
  import opened JsrMachine
  import opened Inliner

  // ----- where copies stand -----

  /** The code of a called subroutine follows the jsr in the code of the caller. */
  lemma CallInside(code: Code, outer: seq<nat>, j: nat)
    requires code.Valid() && Member(code, j, outer) && ReturningJsr(code, j)
    ensures var n, inner := |EmitTo(code, outer, j)| + 1, Emit(code, outer + [j]);
            && n + |inner| == |EmitTo(code, outer, j + 1)| <= |Emit(code, outer)|
            && Emit(code, outer)[n..n + |inner|] == inner
  {
    EmitStep(code, outer, j);
    EmitPrefix(code, outer, j + 1, |code.instrs|);
    var before, jsr, inner := EmitTo(code, outer, j), Copied(code, outer, j), Emit(code, outer + [j]);
    assert EmitOne(code, outer, j) == [jsr] + inner;
    InPrefix(Emit(code, outer), EmitTo(code, outer, j + 1), before, jsr, inner);
  }

  lemma InPrefix(all: seq<CodeRef>, some: seq<CodeRef>, before: seq<CodeRef>, one: CodeRef, inner: seq<CodeRef>)
    requires some <= all && some == before + ([one] + inner)
    ensures |before| + 1 + |inner| <= |all| && all[|before| + 1..|before| + 1 + |inner|] == inner
  {
    forall i | 0 <= i < |inner| ensures all[|before| + 1 + i] == inner[i] {
      assert some[|before| + 1 + i] == inner[i] && all[..|some|][|before| + 1 + i] == some[|before| + 1 + i];
    }
  }

  /** The code of a live context is one stretch of the new code. */
  lemma {:induction false} SegmentAt(code: Code, calls: seq<nat>)
    requires code.Valid() && Live(code, calls)
    ensures Start(code, calls) + |Emit(code, calls)| <= |Emit(code, [])|
    ensures Emit(code, [])[Start(code, calls)..Start(code, calls) + |Emit(code, calls)|] == Emit(code, calls)
    ensures calls != [] ==>
              Start(code, calls) + |Emit(code, calls)| == Position(code, calls[..|calls| - 1], calls[|calls| - 1] + 1)
    decreases |calls|
  {
    if calls != [] {
      var j, outer := calls[|calls| - 1], calls[..|calls| - 1];
      assert outer + [j] == calls;
      hide Emit, EmitTo, Member, ReturningJsr;
      SegmentAt(code, outer);
      CallInside(code, outer, j);
      WithinWithin(Emit(code, []), Emit(code, outer), Emit(code, calls), Start(code, outer), |EmitTo(code, outer, j)| + 1);
    }
  }

  lemma WithinWithin(a: seq<CodeRef>, b: seq<CodeRef>, c: seq<CodeRef>, m: nat, n: nat)
    requires m + |b| <= |a| && a[m..m + |b|] == b && n + |c| <= |b| && b[n..n + |c|] == c
    ensures a[m + n..m + n + |c|] == c
  {
    forall i | 0 <= i < |c| ensures a[m + n + i] == c[i] {
      assert a[m..m + |b|][n + i] == b[n + i] && b[n..n + |c|][i] == c[i];
    }
  }

  /** Every instruction of a live context has its copy. */
  lemma RefAt(code: Code, calls: seq<nat>, i: nat)
    requires code.Valid() && Live(code, calls) && Member(code, i, calls)
    ensures Position(code, calls, i) < |Emit(code, [])|
    ensures Emit(code, [])[Position(code, calls, i)] == Copied(code, calls, i)
  {
    SegmentAt(code, calls);
    EmitPrefix(code, calls, i + 1, |code.instrs|);
    EmitStep(code, calls, i);
    hide EmitTo;
    var e, n := Emit(code, calls), |EmitTo(code, calls, i)|;
    assert EmitOne(code, calls, i)[0] == Copied(code, calls, i);
    assert e[n] == Copied(code, calls, i);
    assert Emit(code, [])[Start(code, calls)..Start(code, calls) + |e|][n] == Emit(code, [])[Start(code, calls) + n];
  }

  predicate StandsAt(code: Code, r: CodeRef, k: int)
    requires code.Valid()
  {
    && Live(code, r.subroutine) && Member(code, r.inumber, r.subroutine)
    && r == Copied(code, r.subroutine, r.inumber)
    && Position(code, r.subroutine, r.inumber) == k
  }

  /** Nothing else is generated, and nothing twice. */
  lemma {:induction false} OnlyCopies(code: Code, calls: seq<nat>, n: nat, k: nat)
    requires code.Valid() && Live(code, calls) && n <= |code.instrs| && k < |EmitTo(code, calls, n)|
    ensures StandsAt(code, EmitTo(code, calls, n)[k], Start(code, calls) + k)
    decreases Deepest(code.notes) + 1 - |calls|, n
  {
    var m := |EmitTo(code, calls, n - 1)|;
    if k < m {
      hide StandsAt, Live, Member, Start;
      OnlyCopies(code, calls, n - 1, k);
    } else if k == m {
      hide Live, EmitTo;
    } else {
      LiveCall(code, calls, n - 1);
      DeepEnough(code, n - 1, calls);
      hide StandsAt, Live, Member, Start, Copied;
      OnlyCopies(code, calls + [n - 1], |code.instrs|, k - m - 1);
    }
  }

  /** The copy at an index of the new code. */
  lemma CopyAt(code: Code, k: nat)
    requires code.Valid() && k < |Emit(code, [])|
    ensures var r := Emit(code, [])[k];
            && Live(code, r.subroutine) && Member(code, r.inumber, r.subroutine)
            && r == Copied(code, r.subroutine, r.inumber)
            && Position(code, r.subroutine, r.inumber) == k
  {
    OnlyCopies(code, [], |code.instrs|, k);
  }

  // ----- which copy a branch reaches -----

  predicate InBounds(copies: seq<nat>, n: nat) {
    forall i | 0 <= i < |copies| :: copies[i] < n
  }

  /** The first copy in a mapping list that is visible from a context; -1 if there is none. */
  function FirstVisible(refs: seq<CodeRef>, copies: seq<nat>, calls: seq<nat>): (k: int)
    requires InBounds(copies, |refs|)
    ensures -1 <= k < |refs|
  {
    if copies == [] then -1
    else if refs[copies[0]].subroutine <= calls then copies[0]
    else FirstVisible(refs, copies[1..], calls)
  }

  lemma {:induction false} CopiesAre(refs: seq<CodeRef>, i: nat)
    ensures InBounds(Copies(refs, i), |refs|)
    ensures forall k: nat :: k in Copies(refs, i) <==> k < |refs| && refs[k].inumber == i
  {
    if refs != [] {
      CopiesAre(refs[..|refs| - 1], i);
    }
  }

  /** The copy updateTarget chooses for a branch to instruction t; -1 is its panic. */
  function TargetRef(refs: seq<CodeRef>, calls: seq<nat>, t: nat): (k: int)
    ensures -1 <= k < |refs|
  {
    CopiesAre(refs, t);
    FirstVisible(refs, Copies(refs, t), calls)
  }

  lemma {:induction false} FirstVisibleIs(refs: seq<CodeRef>, copies: seq<nat>, calls: seq<nat>, k: nat)
    requires InBounds(copies, |refs|)
    requires k in copies && refs[k].subroutine <= calls
    requires forall c | c in copies && refs[c].subroutine <= calls :: c == k
    ensures FirstVisible(refs, copies, calls) == k
  {
    if copies[0] != k {
      FirstVisibleIs(refs, copies[1..], calls, k);
    }
  }

  /** t's context is that of the first calls of the chain. */
  predicate VisibleFrom(code: Code, calls: seq<nat>, t: nat)
    requires code.Valid()
  {
    t < |code.notes| && code.notes[t].Reached? && code.notes[t].context <= Entries(code, calls)
  }

  function HomeOf(code: Code, calls: seq<nat>, t: nat): (home: seq<nat>)
    requires code.Valid() && VisibleFrom(code, calls, t)
    ensures home <= calls && |home| == |code.notes[t].context|
  {
    calls[..|code.notes[t].context|]
  }

  lemma HomeIsLive(code: Code, calls: seq<nat>, t: nat)
    requires code.Valid() && Live(code, calls) && VisibleFrom(code, calls, t)
    ensures Live(code, HomeOf(code, calls, t)) && Member(code, t, HomeOf(code, calls, t))
  {
    var n := |code.notes[t].context|;
    if n < |calls| {
      LiveAt(code, calls, n);
    } else {
      assert calls[..n] == calls;
    }
    assert Entries(code, calls)[..n] == Entries(code, calls[..n]);
  }

  /** Exactly one copy of a branch target is visible from a context, and it is the one chosen. */
  lemma VisibleCopyIsUnique(code: Code, calls: seq<nat>, t: nat)
    requires code.Valid() && Live(code, calls) && VisibleFrom(code, calls, t)
    ensures var refs, home := Emit(code, []), HomeOf(code, calls, t);
            && Live(code, home) && Member(code, t, home)
            && TargetRef(refs, calls, t) == Position(code, home, t)
            && forall k | 0 <= k < |refs| && refs[k].inumber == t && refs[k].subroutine <= calls :: k == Position(code, home, t)
  {
    var refs, home := Emit(code, []), HomeOf(code, calls, t);
    HomeIsLive(code, calls, t);
    RefAt(code, home, t);
    var p := Position(code, home, t);
    forall k | 0 <= k < |refs| && refs[k].inumber == t && refs[k].subroutine <= calls ensures k == p {
      CopyAt(code, k);
      assert |Entries(code, refs[k].subroutine)| == |home|;
      assert refs[k].subroutine == home;
    }
    CopiesAre(refs, t);
    FirstVisibleIs(refs, Copies(refs, t), calls, p);
  }

  /** updateTarget's search. */
  method UpdateTarget(refs: seq<CodeRef>, copies: seq<nat>, calls: seq<nat>) returns (k: int)
    requires InBounds(copies, |refs|)
    ensures k == FirstVisible(refs, copies, calls)
  {
    var i := 0;
    while i < |copies|
      invariant i <= |copies|
      invariant FirstVisible(refs, copies, calls) == FirstVisible(refs, copies[i..], calls)
    {
      var visible := SubroutineGoto(calls, refs[copies[i]].subroutine);
      if visible {
        return copies[i];
      }
      i := i + 1;
    }
    return -1;
  }

  // ----- offsets -----

  /** Up to the next multiple of four after the opcode. */
  function SwitchStart(pc: nat): nat {
    (pc + 1 + 3) / 4 * 4
  }

  /** The bytes a copy takes when it stands at pc. */
  function Size(code: Code, ref: CodeRef, pc: nat): nat
    requires code.Valid() && ref.inumber < |code.instrs|
  {
    var instr := code.instrs[ref.inumber];
    if ref.flag.Skip? then 0
    else if instr.isSwitch then SwitchStart(pc) + (instr.length - 1) / 4 * 4 - pc
    else if instr.op.Ret? then 3
    else instr.length
  }

  /** The bytes of a switch with the given number of words, opcode and padding included. */
  function SwitchLength(pc: nat, words: nat): nat {
    SwitchStart(pc) - pc + 4 * words
  }

  /** The size computed for a moved switch is that of the same words with the padding of the new place. */
  lemma SwitchSize(code: Code, ref: CodeRef, old_pc: nat, pc: nat, words: nat)
    requires code.Valid() && ref.inumber < |code.instrs| && !ref.flag.Skip? && code.instrs[ref.inumber].isSwitch
    requires code.instrs[ref.inumber].length == SwitchLength(old_pc, words)
    ensures Size(code, ref, pc) == SwitchLength(pc, words)
  {
    assert (SwitchLength(old_pc, words) - 1) / 4 == words;
  }

  predicate InCode(code: Code, refs: seq<CodeRef>) {
    forall k | 0 <= k < |refs| :: refs[k].inumber < |code.instrs|
  }

  function Offset(code: Code, refs: seq<CodeRef>, k: nat): nat
    requires code.Valid() && InCode(code, refs) && k <= |refs|
  {
    if k == 0 then 0 else Offset(code, refs, k - 1) + Size(code, refs[k - 1], Offset(code, refs, k - 1))
  }

  /** Offsets grow, except past skipped instructions. */
  lemma {:induction false} OffsetsGrow(code: Code, refs: seq<CodeRef>, k: nat, m: nat)
    requires code.Valid() && InCode(code, refs) && k < m <= |refs|
    ensures Offset(code, refs, k) <= Offset(code, refs, m)
    ensures !refs[k].flag.Skip? ==> Offset(code, refs, k) < Offset(code, refs, m)
    ensures refs[k].flag.Skip? && m == k + 1 ==> Offset(code, refs, m) == Offset(code, refs, k)
    decreases m
  {
    if k < m - 1 {
      OffsetsGrow(code, refs, k, m - 1);
    }
  }

  /** The first loop of fixupCode. */
  method AssignOffsets(code: Code, refs: seq<CodeRef>) returns (offsets: seq<nat>, newCodeLength: nat)
    requires code.Valid() && InCode(code, refs)
    ensures |offsets| == |refs|
    ensures forall k | 0 <= k < |refs| :: offsets[k] == Offset(code, refs, k)
    ensures newCodeLength == Offset(code, refs, |refs|)
  {
    offsets := [];
    var pc, k := 0, 0;
    while k < |refs|
      invariant 0 <= k <= |refs| && |offsets| == k && pc == Offset(code, refs, k)
      invariant forall m | 0 <= m < k :: offsets[m] == Offset(code, refs, m)
    {
      var instr := code.instrs[refs[k].inumber];
      offsets := offsets + [pc];
      if refs[k].flag.Skip? {
      } else if instr.isSwitch {
        pc := SwitchStart(pc) + (instr.length - 1) / 4 * 4;
      } else if instr.op.Ret? {
        pc := pc + 3;
      } else {
        pc := pc + instr.length;
      }
      k := k + 1;
    }
    newCodeLength := pc;
  }

  // ----- branch distances -----

  /** A distance as it is stored, most significant byte first. */
  function Stored(value: int, size: nat): (bytes: seq<nat>)
    ensures |bytes| == size
    decreases size
  {
    if size == 0 then [] else Stored(value / 256, size - 1) + [value % 256]
  }

  function Unsigned(bytes: seq<nat>): nat {
    if bytes == [] then 0 else 256 * Unsigned(bytes[..|bytes| - 1]) + bytes[|bytes| - 1]
  }

  function HalfRange(size: nat): int {
    if size == 2 then 0x8000 else 0x8000_0000
  }

  /** The distance read back, sign-extended. */
  function Signed(bytes: seq<nat>): int {
    var u, half := Unsigned(bytes), HalfRange(|bytes|);
    if u >= half then u - 2 * half else u
  }

  lemma UnsignedStep(value: int, size: nat)
    requires size > 0
    ensures Unsigned(Stored(value, size)) == 256 * Unsigned(Stored(value / 256, size - 1)) + value % 256
  {
    assert Stored(value, size)[..size - 1] == Stored(value / 256, size - 1);
  }

  lemma StoredTwo(value: int)
    ensures Unsigned(Stored(value, 2)) == value % 65536
  {
    UnsignedStep(value, 2);
    UnsignedStep(value / 256, 1);
    hide Stored, Unsigned;
    NoBytes(value / 256 / 256);
  }

  lemma NoBytes(value: int)
    ensures Unsigned(Stored(value, 0)) == 0
  {
  }

  /** A distance is read back as it was stored exactly when it fits. */
  lemma DistanceFits(value: int, size: nat)
    requires size == 2 || size == 4
    ensures Signed(Stored(value, size)) == value <==> -HalfRange(size) <= value < HalfRange(size)
  {
    hide Stored, Unsigned;
    if size == 2 {
      StoredTwo(value);
    } else {
      UnsignedStep(value, 4);
      UnsignedStep(value / 256, 3);
      StoredTwo(value / 256 / 256);
    }
  }

  // ----- the new code -----

  /** The bytes of a branch distance: the operand of a branch, or a word of a switch. */
  function DistanceSize(instr: Instr): int {
    if instr.isSwitch then 4 else instr.length - 1
  }

  /** Instructions with branch targets have distances of two or four bytes; a jsr has two. */
  predicate Encodable(code: Code) {
    forall i | 0 <= i < |code.instrs| ::
      var instr := code.instrs[i];
      && (instr.op.Goto? || (instr.op.Plain? && instr.op.targets != []) ==> DistanceSize(instr) == 2 || DistanceSize(instr) == 4)
      && (instr.op.Jsr? ==> instr.length == 3)
      && (instr.isSwitch ==> instr.op.Plain?)
  }

  /** Where the branch at copy k goes when it is to reach copy `to`; a place before the code is no place at all. */
  function Jump(code: Code, refs: seq<CodeRef>, k: nat, to: nat, size: nat): nat
    requires code.Valid() && InCode(code, refs) && k < |refs| && to <= |refs|
  {
    var pc := Offset(code, refs, k);
    var target := pc + Signed(Stored(Offset(code, refs, to) - pc, size));
    if target < 0 then Offset(code, refs, |refs|) else target
  }

  /** The context whose copies the jsr at copy k may branch to. */
  function JsrContext(refs: seq<CodeRef>, k: nat): seq<nat>
    requires k < |refs|
  {
    if refs[k].flag.JsrTargetedGoto? && k + 1 < |refs| then refs[k + 1].subroutine else refs[k].subroutine
  }

  /** The instruction numbers that the copy at k branches to, and the context they are looked up from. */
  predicate TargetsFound(code: Code, refs: seq<CodeRef>, next: map<seq<nat>, nat>, k: nat)
    requires code.Valid() && InCode(code, refs) && k < |refs|
  {
    match code.instrs[refs[k].inumber].op
    case Plain(_, _, _, _, _, targets) => AllFound(refs, refs[k].subroutine, targets)
    case Goto(t) => TargetRef(refs, refs[k].subroutine, t) >= 0
    case Jsr(t) => TargetRef(refs, JsrContext(refs, k), t) >= 0
    case Ret(_) => refs[k].subroutine in next && next[refs[k].subroutine] <= |refs|
    case Astore(_) => true
  }

  predicate AllFound(refs: seq<CodeRef>, calls: seq<nat>, targets: seq<nat>) {
    forall n | 0 <= n < |targets| :: TargetRef(refs, calls, targets[n]) >= 0
  }

  function Jumps(code: Code, refs: seq<CodeRef>, k: nat, targets: seq<nat>, size: nat): (r: seq<nat>)
    requires code.Valid() && InCode(code, refs) && k < |refs| && AllFound(refs, refs[k].subroutine, targets)
    ensures |r| == |targets|
  {
    seq(|targets|, n requires 0 <= n < |targets| => Jump(code, refs, k, TargetRef(refs, refs[k].subroutine, targets[n]), size))
  }

  function NewOp(code: Code, refs: seq<CodeRef>, next: map<seq<nat>, nat>, k: nat): Op
    requires code.Valid() && Encodable(code) && InCode(code, refs) && k < |refs| && TargetsFound(code, refs, next, k)
  {
    var instr := code.instrs[refs[k].inumber];
    match instr.op
    case Plain(pops, pushes, loads, stores, falls, targets) =>
      if targets == [] then instr.op
      else Plain(pops, pushes, loads, stores, falls, Jumps(code, refs, k, targets, DistanceSize(instr)))
    case Goto(t) => Goto(Jump(code, refs, k, TargetRef(refs, refs[k].subroutine, t), DistanceSize(instr)))
    case Jsr(t) => Goto(Jump(code, refs, k, TargetRef(refs, JsrContext(refs, k), t), 2))
    case Ret(_) => Goto(Jump(code, refs, k, next[refs[k].subroutine], 2))
    case Astore(r) => instr.op
  }

  function NewPlace(code: Code, refs: seq<CodeRef>, next: map<seq<nat>, nat>, k: nat): Place
    requires code.Valid() && Encodable(code) && InCode(code, refs) && k < |refs| && TargetsFound(code, refs, next, k)
  {
    Place(refs[k].inumber, NewOp(code, refs, next, k), Offset(code, refs, k + 1))
  }

  ghost predicate AllTargetsFound(code: Code, refs: seq<CodeRef>, next: map<seq<nat>, nat>, n: nat)
    requires code.Valid() && InCode(code, refs) && n <= |refs|
  {
    forall k | 0 <= k < n && !refs[k].flag.Skip? :: TargetsFound(code, refs, next, k)
  }

  /** The code of the first n copies, by program counter. */
  ghost function PlacesTo(code: Code, refs: seq<CodeRef>, next: map<seq<nat>, nat>, n: nat): map<nat, Place>
    requires code.Valid() && Encodable(code) && InCode(code, refs) && n <= |refs| && AllTargetsFound(code, refs, next, n)
  {
    if n == 0 then map[]
    else
      var before := PlacesTo(code, refs, next, n - 1);
      if refs[n - 1].flag.Skip? then before
      else before[Offset(code, refs, n - 1) := NewPlace(code, refs, next, n - 1)]
  }

  /** Every copy that is not skipped stands at its offset. */
  lemma {:induction false} PlaceAt(code: Code, refs: seq<CodeRef>, next: map<seq<nat>, nat>, n: nat, k: nat)
    requires code.Valid() && Encodable(code) && InCode(code, refs) && n <= |refs| && AllTargetsFound(code, refs, next, n)
    requires k < n && !refs[k].flag.Skip?
    ensures Offset(code, refs, k) in PlacesTo(code, refs, next, n)
    ensures PlacesTo(code, refs, next, n)[Offset(code, refs, k)] == NewPlace(code, refs, next, k)
  {
    hide TargetsFound, NewPlace;
    if k < n - 1 {
      PlaceAt(code, refs, next, n - 1, k);
      OffsetsGrow(code, refs, k, n - 1);
    }
  }

  /** The mapping lists of the rewriter are the copies of each instruction. */
  predicate Maps(code: Code, refs: seq<CodeRef>, mapping: seq<seq<nat>>) {
    |mapping| == |code.instrs| && forall i | 0 <= i < |mapping| :: mapping[i] == Copies(refs, i)
  }

  /** The program counter a stored branch at copy k leads to. */
  function Landing(offsets: seq<nat>, k: nat, to: nat, size: nat): nat
    requires k < |offsets| && to < |offsets|
  {
    var pc: int := offsets[k];
    var landing := pc + Signed(Stored(offsets[to] - pc, size));
    if landing < 0 then offsets[|offsets| - 1] else landing
  }

  lemma JumpIs(code: Code, refs: seq<CodeRef>, offsets: seq<nat>, k: nat, to: nat, size: nat)
    requires code.Valid() && InCode(code, refs) && k < |refs| && to <= |refs| && Offsets(code, refs, offsets)
    ensures Landing(offsets, k, to, size) == Jump(code, refs, k, to, size)
  {
  }

  method BranchTo(code: Code, refs: seq<CodeRef>, mapping: seq<seq<nat>>, offsets: seq<nat>, k: nat, calls: seq<nat>, t: nat, size: nat)
    returns (ok: bool, target: nat)
    requires code.Valid() && InCode(code, refs) && k < |refs| && Maps(code, refs, mapping) && t < |code.instrs|
    requires Offsets(code, refs, offsets)
    ensures ok <==> TargetRef(refs, calls, t) >= 0
    ensures ok ==> target == Jump(code, refs, k, TargetRef(refs, calls, t), size)
  {
    CopiesAre(refs, t);
    var to := UpdateTarget(refs, mapping[t], calls);
    if to < 0 {
      return false, 0;
    }
    JumpIs(code, refs, offsets, k, to, size);
    return true, Landing(offsets, k, to, size);
  }

  /** The offsets of all copies, and the length of the code. */
  ghost predicate Offsets(code: Code, refs: seq<CodeRef>, offsets: seq<nat>)
    requires code.Valid() && InCode(code, refs)
  {
    |offsets| == |refs| + 1 && forall k | 0 <= k <= |refs| :: offsets[k] == Offset(code, refs, k)
  }

  predicate TargetsInRange(code: Code) {
    forall i | 0 <= i < |code.instrs| ::
      match code.instrs[i].op
      case Plain(_, _, _, _, _, targets) => forall n | 0 <= n < |targets| :: targets[n] < |code.instrs|
      case Goto(t) => t < |code.instrs|
      case Jsr(t) => t < |code.instrs|
      case Ret(_) => true
      case Astore(_) => true
  }

  method BranchesTo(code: Code, refs: seq<CodeRef>, mapping: seq<seq<nat>>, offsets: seq<nat>, k: nat, targets: seq<nat>, size: nat)
    returns (ok: bool, jumps: seq<nat>)
    requires code.Valid() && InCode(code, refs) && k < |refs| && Maps(code, refs, mapping) && Offsets(code, refs, offsets)
    requires forall n | 0 <= n < |targets| :: targets[n] < |code.instrs|
    ensures ok <==> AllFound(refs, refs[k].subroutine, targets)
    ensures ok ==> jumps == Jumps(code, refs, k, targets, size)
  {
    hide Jump, TargetRef, Offset, Maps;
    jumps := [];
    while |jumps| < |targets|
      invariant |jumps| <= |targets| && AllFound(refs, refs[k].subroutine, targets[..|jumps|])
      invariant forall n | 0 <= n < |jumps| :: TargetRef(refs, refs[k].subroutine, targets[n]) >= 0 &&
                  jumps[n] == Jump(code, refs, k, TargetRef(refs, refs[k].subroutine, targets[n]), size)
    {
      var target;
      ok, target := BranchTo(code, refs, mapping, offsets, k, refs[k].subroutine, targets[|jumps|], size);
      if !ok {
        return;
      }
      jumps := jumps + [target];
    }
    ok := true;
  }

  /** One copy of the new code. */
  method WriteInstruction(code: Code, refs: seq<CodeRef>, mapping: seq<seq<nat>>, next: map<seq<nat>, nat>, offsets: seq<nat>, k: nat)
    returns (ok: bool, place: Place)
    requires code.Valid() && Encodable(code) && TargetsInRange(code) && InCode(code, refs) && k < |refs|
    requires Maps(code, refs, mapping) && Offsets(code, refs, offsets)
    requires forall n | 0 <= n < |refs| && refs[n].subroutine in next :: next[refs[n].subroutine] <= |refs|
    ensures ok <==> TargetsFound(code, refs, next, k)
    ensures ok ==> place == NewPlace(code, refs, next, k)
  {
    hide Jump, TargetRef;
    var instr := code.instrs[refs[k].inumber];
    var calls := refs[k].subroutine;
    var op := instr.op;
    ok := true;
    match instr.op {
      case Plain(pops, pushes, loads, stores, falls, targets) =>
        if targets != [] {
          var jumps;
          ok, jumps := BranchesTo(code, refs, mapping, offsets, k, targets, DistanceSize(instr));
          op := Plain(pops, pushes, loads, stores, falls, jumps);
        }
      case Goto(t) =>
        var target;
        ok, target := BranchTo(code, refs, mapping, offsets, k, calls, t, DistanceSize(instr));
        op := Goto(target);
      case Jsr(t) =>
        var target;
        ok, target := BranchTo(code, refs, mapping, offsets, k, JsrContext(refs, k), t, 2);
        op := Goto(target);
      case Ret(_) =>
        ok := calls in next;
        if ok {
          op := Goto(Landing(offsets, k, next[calls], 2));
          JumpIs(code, refs, offsets, k, next[calls], 2);
        }
      case Astore(_) =>
    }
    place := Place(refs[k].inumber, op, offsets[k + 1]);
  }

  /** fixupCode; it fails, with a panic, exactly when some branch has no visible target. */
  method FixupCode(code: Code, refs: seq<CodeRef>, mapping: seq<seq<nat>>, next: map<seq<nat>, nat>)
    returns (ok: bool, newCode: map<nat, Place>, newCodeLength: nat)
    requires code.Valid() && Encodable(code) && TargetsInRange(code) && InCode(code, refs) && Maps(code, refs, mapping)
    requires forall n | 0 <= n < |refs| && refs[n].subroutine in next :: next[refs[n].subroutine] <= |refs|
    ensures ok <==> AllTargetsFound(code, refs, next, |refs|)
    ensures ok ==> newCode == PlacesTo(code, refs, next, |refs|)
    ensures newCodeLength == Offset(code, refs, |refs|)
  {
    hide TargetsFound, NewPlace, Encodable, TargetsInRange;
    var offsets;
    offsets, newCodeLength := AssignOffsets(code, refs);
    offsets := offsets + [newCodeLength];
    newCode := map[];
    var k := 0;
    while k < |refs|
      invariant 0 <= k <= |refs| && AllTargetsFound(code, refs, next, k)
      invariant newCode == PlacesTo(code, refs, next, k)
    {
      if !refs[k].flag.Skip? {
        var place;
        ok, place := WriteInstruction(code, refs, mapping, next, offsets, k);
        if !ok {
          return;
        }
        newCode := newCode[offsets[k] := place];
      }
      k := k + 1;
    }
    ok := true;
  }
}
