/**
 Numbering the instructions of a method, as every verification of it starts: from a
 program by program counter to code by instruction number, and that this changes nothing
 but the numbers.
 */
module Decoding {
  import opened JsrMachine
  import opened Inliner
  import S = InlinerSoundness

  /** pcs are the places of the instructions, one behind the other, and behind them the end of the code. */
  ghost predicate Numbering(p: Program, end: nat, pcs: seq<nat>) {
    && |pcs| > 1 && pcs[0] == 0 && pcs[|pcs| - 1] == end
    && forall n | 0 <= n < |pcs| - 1 :: pcs[n] in p.at && p.at[pcs[n]].next == pcs[n + 1] > pcs[n]
  }

  predicate Increasing(pcs: seq<nat>) {
    forall n | 0 <= n < |pcs| - 1 :: pcs[n] < pcs[n + 1]
  }

  lemma {:induction false} IncreasingAll(pcs: seq<nat>, n: nat, k: nat)
    requires Increasing(pcs) && n < k < |pcs|
    ensures pcs[n] < pcs[k]
    decreases k
  {
    if n < k - 1 {
      IncreasingAll(pcs, n, k - 1);
    }
  }

  /** An instruction starts at pc; it is number code[pc]. */
  predicate Starts(pcs: seq<nat>, pc: nat) {
    exists n :: 0 <= n < |pcs| - 1 && pcs[n] == pc
  }

  predicate AllStart(pcs: seq<nat>, targets: seq<nat>) {
    forall k | 0 <= k < |targets| :: Starts(pcs, targets[k])
  }

  /** The targets of an instruction are instructions. */
  predicate TargetsStart(pcs: seq<nat>, op: Op) {
    match op
    case Plain(_, _, _, _, _, targets) => AllStart(pcs, targets)
    case Goto(t) => Starts(pcs, t)
    case Jsr(t) => Starts(pcs, t)
    case Ret(_) => true
    case Astore(_) => true
  }

  /** An exception table entry is a range of instructions, and its handler is one. */
  predicate FrameStarts(pcs: seq<nat>, f: Frame)
    requires pcs != []
  {
    f.start < f.end && Starts(pcs, f.start) && (Starts(pcs, f.end) || f.end == pcs[|pcs| - 1]) && Starts(pcs, f.handler)
  }

  /** The method passes verify_opcode_operands and initialize_exception_table, as far as they look at places. */
  ghost predicate Legible(p: Program, end: nat, pcs: seq<nat>) {
    && Numbering(p, end, pcs)
    && (forall n | 0 <= n < |pcs| - 1 :: TargetsStart(pcs, p.at[pcs[n]].op))
    && (forall k | 0 <= k < |p.table| :: FrameStarts(pcs, p.table[k]))
  }

  // ----- the result -----

  /** The same instruction, with numbers for places. */
  predicate SameOp(pcs: seq<nat>, a: Op, b: Op) {
    match a
    case Plain(pops, pushes, loads, stores, falls, targets) =>
      && b.Plain? && b.pops == pops && b.pushes == pushes && b.loads == loads && b.stores == stores && b.falls == falls
      && |b.targets| == |targets| && forall k | 0 <= k < |targets| :: b.targets[k] < |pcs| - 1 && pcs[b.targets[k]] == targets[k]
    case Goto(t) => b.Goto? && b.target < |pcs| - 1 && pcs[b.target] == t
    case Jsr(t) => b.Jsr? && b.target < |pcs| - 1 && pcs[b.target] == t
    case Ret(_) => b == a
    case Astore(_) => b == a
  }

  predicate SameFrame(pcs: seq<nat>, a: Frame, b: Frame) {
    && b.start < b.end < |pcs| && b.handler < |pcs| - 1 && pcs[b.start] == a.start && pcs[b.end] == a.end && pcs[b.handler] == a.handler
    && b.catchType == a.catchType
  }

  /** An instruction and what it was made from. */
  datatype Numbered = Numbered(op: Op, origin: nat, length: nat)

  datatype Decoded = Decoded(instrs: seq<Numbered>, table: seq<Frame>)

  predicate IsNumbered(p: Program, pcs: seq<nat>, n: nat, i: Numbered)
    requires n < |pcs| - 1 && pcs[n] in p.at
  {
    i.origin == p.at[pcs[n]].body && pcs[n] + i.length == pcs[n + 1] && SameOp(pcs, p.at[pcs[n]].op, i.op)
  }

  ghost predicate Decodes(p: Program, end: nat, d: Decoded, pcs: seq<nat>) {
    && Numbering(p, end, pcs) && |d.instrs| == |pcs| - 1 && |d.table| == |p.table|
    && (forall n | 0 <= n < |d.instrs| :: IsNumbered(p, pcs, n, d.instrs[n]))
    && (forall k | 0 <= k < |p.table| :: SameFrame(pcs, p.table[k], d.table[k]))
  }

  // ----- the loops of verify_method -----

  /** The numbers by program counter. */
  predicate CodeData(pcs: seq<nat>, n: nat, data: map<nat, nat>)
    requires n <= |pcs|
  {
    && (forall pc | pc in data :: data[pc] < n && pcs[data[pc]] == pc)
    && (forall k | 0 <= k < n :: pcs[k] in data && data[pcs[k]] == k)
  }

  /** Places of instructions, one behind the other from the start. */
  predicate Walk(p: Program, pcs: seq<nat>) {
    && pcs != [] && pcs[0] == 0
    && forall n | 0 <= n < |pcs| - 1 :: pcs[n] in p.at && p.at[pcs[n]].next == pcs[n + 1] > pcs[n]
  }

  /** The first loop: it fails when the code stops in the middle of an instruction, or is empty. */
  method NumberInstructions(p: Program, end: nat) returns (ok: bool, pcs: seq<nat>, data: map<nat, nat>)
    ensures ok <==> exists q :: Numbering(p, end, q)
    ensures ok ==> Numbering(p, end, pcs) && CodeData(pcs, |pcs| - 1, data)
  {
    hide Numbering, CodeData;
    pcs, data := [0], map[];
    var offset := 0;
    assert CodeData(pcs, 0, data) by {
      NoData(pcs);
    }
    forall q | Numbering(p, end, q) ensures pcs <= q {
      StartOfNumbering(p, end, q);
    }
    while offset < end
      invariant 0 <= offset <= end && Walk(p, pcs) && pcs[|pcs| - 1] == offset
      invariant CodeData(pcs, |pcs| - 1, data)
      invariant forall q | Numbering(p, end, q) :: pcs <= q
      decreases end - offset
    {
      if offset !in p.at || p.at[offset].next <= offset || p.at[offset].next > end {
        ok := false;
        forall q ensures !Numbering(p, end, q) {
          NoNext(p, end, pcs, q);
        }
        return;
      }
      forall q | Numbering(p, end, q) ensures pcs + [p.at[offset].next] <= q {
        NextOfNumbering(p, end, q, |pcs| - 1);
      }
      NewData(p, pcs, data, p.at[offset].next);
      data := data[offset := |pcs| - 1];
      offset := p.at[offset].next;
      pcs := pcs + [offset];
    }
    ok := |pcs| > 1;
    WalkEnds(p, end, pcs);
  }

  lemma NoData(pcs: seq<nat>)
    ensures CodeData(pcs, 0, map[])
  {
  }

  lemma StartOfNumbering(p: Program, end: nat, q: seq<nat>)
    requires Numbering(p, end, q)
    ensures [0] <= q
  {
  }

  lemma NoNext(p: Program, end: nat, pcs: seq<nat>, q: seq<nat>)
    requires pcs != [] && (Numbering(p, end, q) ==> pcs <= q)
    requires var offset := pcs[|pcs| - 1]; offset < end && (offset !in p.at || p.at[offset].next <= offset || p.at[offset].next > end)
    ensures !Numbering(p, end, q)
  {
    var n := |pcs| - 1;
    if n < |q| && q[n] == pcs[n] {
      hide Numbering;
      GoesOn(p, end, q, n);
    }
  }

  lemma GoesOn(p: Program, end: nat, q: seq<nat>, n: nat)
    requires n < |q| && q[n] < end
    ensures Numbering(p, end, q) ==> q[n] in p.at && q[n] < p.at[q[n]].next <= end
  {
    if Numbering(p, end, q) {
      NextOfNumbering(p, end, q, n);
    }
  }

  lemma NewData(p: Program, pcs: seq<nat>, data: map<nat, nat>, next: nat)
    requires Walk(p, pcs) && CodeData(pcs, |pcs| - 1, data)
    ensures CodeData(pcs + [next], |pcs|, data[pcs[|pcs| - 1] := |pcs| - 1])
  {
    forall k | 0 <= k < |pcs| - 1 ensures pcs[k] != pcs[|pcs| - 1] {
      IncreasingAll(pcs, k, |pcs| - 1);
    }
  }

  lemma WalkEnds(p: Program, end: nat, pcs: seq<nat>)
    requires Walk(p, pcs) && pcs[|pcs| - 1] == end
    ensures |pcs| > 1 ==> Numbering(p, end, pcs)
    ensures |pcs| == 1 ==> forall q :: !Numbering(p, end, q)
  {
    if |pcs| == 1 {
      forall q: seq<nat> | Increasing(q) && |q| > 1 ensures q[0] < q[|q| - 1] {
        IncreasingAll(q, 0, |q| - 1);
      }
    }
  }

  /** Before its end a numbering goes on. */
  lemma NextOfNumbering(p: Program, end: nat, q: seq<nat>, n: nat)
    requires Numbering(p, end, q) && n < |q| && q[n] < end
    ensures n + 1 < |q| && q[n] in p.at && q[n + 1] == p.at[q[n]].next && q[n] < q[n + 1] <= end
  {
    assert Increasing(q);
    if n + 1 < |q| - 1 {
      IncreasingAll(q, n + 1, |q| - 1);
    }
  }

  lemma CodeDataStarts(pcs: seq<nat>, data: map<nat, nat>, pc: nat)
    requires pcs != [] && CodeData(pcs, |pcs| - 1, data)
    ensures Starts(pcs, pc) <==> pc in data
    ensures pc in data ==> data[pc] < |pcs| - 1 && pcs[data[pc]] == pc
  {
    if pc in data {
      assert pcs[data[pc]] == pc;
    }
  }

  method NumberTargets(targets: seq<nat>, ghost pcs: seq<nat>, data: map<nat, nat>) returns (ok: bool, numbers: seq<nat>)
    requires pcs != [] && CodeData(pcs, |pcs| - 1, data)
    ensures ok <==> AllStart(pcs, targets)
    ensures ok ==> |numbers| == |targets| && forall k | 0 <= k < |targets| :: numbers[k] < |pcs| - 1 && pcs[numbers[k]] == targets[k]
  {
    hide Starts;
    numbers := [];
    while |numbers| < |targets|
      invariant |numbers| <= |targets|
      invariant forall k | 0 <= k < |numbers| :: Starts(pcs, targets[k]) && numbers[k] < |pcs| - 1 && pcs[numbers[k]] == targets[k]
    {
      var t := targets[|numbers|];
      CodeDataStarts(pcs, data, t);
      if t !in data {
        return false, [];
      }
      numbers := numbers + [data[t]];
    }
    ok := true;
  }

  /** The places in one instruction. */
  method NumberOp(op: Op, ghost pcs: seq<nat>, data: map<nat, nat>) returns (ok: bool, numbered: Op)
    requires pcs != [] && CodeData(pcs, |pcs| - 1, data)
    ensures ok <==> TargetsStart(pcs, op)
    ensures ok ==> SameOp(pcs, op, numbered)
  {
    ok, numbered := true, op;
    match op {
      case Plain(pops, pushes, loads, stores, falls, targets) =>
        var numbers;
        ok, numbers := NumberTargets(targets, pcs, data);
        numbered := Plain(pops, pushes, loads, stores, falls, numbers);
      case Goto(t) =>
        CodeDataStarts(pcs, data, t);
        ok := t in data;
        if ok {
          numbered := Goto(data[t]);
        }
      case Jsr(t) =>
        CodeDataStarts(pcs, data, t);
        ok := t in data;
        if ok {
          numbered := Jsr(data[t]);
        }
      case Ret(_) =>
      case Astore(_) =>
    }
  }

  method NumberFrame(f: Frame, end: nat, ghost pcs: seq<nat>, data: map<nat, nat>, count: nat) returns (ok: bool, numbered: Frame)
    requires pcs != [] && CodeData(pcs, |pcs| - 1, data) && pcs[|pcs| - 1] == end && count == |pcs| - 1 && Increasing(pcs)
    ensures ok <==> FrameStarts(pcs, f)
    ensures ok ==> SameFrame(pcs, f, numbered)
  {
    numbered := f;
    CodeDataStarts(pcs, data, f.start);
    CodeDataStarts(pcs, data, f.end);
    CodeDataStarts(pcs, data, f.handler);
    ok := f.start < f.end && f.start in data && (f.end == end || f.end in data) && f.handler in data;
    if ok {
      hide Starts, CodeData;
      numbered := Frame(data[f.start], if f.end == end then count else data[f.end], data[f.handler], f.catchType);
      if numbered.end < numbered.start {
        IncreasingAll(pcs, numbered.end, numbered.start);
      }
    }
  }

  lemma NumberingIncreases(p: Program, end: nat, pcs: seq<nat>)
    requires Numbering(p, end, pcs)
    ensures Increasing(pcs) && |pcs| > 1 && pcs[|pcs| - 1] == end
  {
  }

  lemma {:induction false} NumberingIsUnique(p: Program, end: nat, q: seq<nat>, r: seq<nat>)
    requires Numbering(p, end, q) && Numbering(p, end, r)
    ensures q == r
  {
    PrefixOfNumbering(p, end, q, r, |q|);
    PrefixOfNumbering(p, end, r, q, |r|);
  }

  lemma {:induction false} PrefixOfNumbering(p: Program, end: nat, q: seq<nat>, r: seq<nat>, n: nat)
    requires Numbering(p, end, q) && Numbering(p, end, r) && n <= |q|
    ensures n <= |r| && q[..n] == r[..n]
    decreases n
  {
    if n > 0 {
      PrefixOfNumbering(p, end, q, r, n - 1);
      if n > 1 {
        assert q[n - 2] == q[..n - 1][n - 2] == r[..n - 1][n - 2] == r[n - 2];
        NumberingIncreases(p, end, q);
        IncreasingAll(q, n - 2, |q| - 1);
        NextOfNumbering(p, end, r, n - 2);
        NextOfNumbering(p, end, q, n - 2);
        assert q[n - 1] == r[n - 1];
      }
      assert q[..n] == q[..n - 1] + [q[n - 1]] && r[..n] == r[..n - 1] + [r[n - 1]];
    }
  }

  /** The loop over verify_opcode_operands. */
  method NumberOperands(p: Program, places: seq<nat>, data: map<nat, nat>, ghost end: nat) returns (ok: bool, instrs: seq<Numbered>)
    requires Numbering(p, end, places) && CodeData(places, |places| - 1, data)
    ensures ok <==> forall n | 0 <= n < |places| - 1 :: TargetsStart(places, p.at[places[n]].op)
    ensures ok ==> |instrs| == |places| - 1 && forall n | 0 <= n < |instrs| :: IsNumbered(p, places, n, instrs[n])
  {
    hide SameOp, TargetsStart, CodeData;
    instrs := [];
    var count := |places| - 1;
    while |instrs| < count
      invariant |instrs| <= count
      invariant forall n | 0 <= n < |instrs| :: TargetsStart(places, p.at[places[n]].op) && IsNumbered(p, places, n, instrs[n])
    {
      var n := |instrs|;
      var op;
      ok, op := NumberOp(p.at[places[n]].op, places, data);
      if !ok {
        return;
      }
      instrs := instrs + [Numbered(op, p.at[places[n]].body, places[n + 1] - places[n])];
    }
    ok := true;
  }

  /** initialize_exception_table. */
  method NumberTable(table: seq<Frame>, end: nat, places: seq<nat>, data: map<nat, nat>) returns (ok: bool, numbered: seq<Frame>)
    requires |places| > 1 && Increasing(places) && places[|places| - 1] == end && CodeData(places, |places| - 1, data)
    ensures ok <==> forall k | 0 <= k < |table| :: FrameStarts(places, table[k])
    ensures ok ==> |numbered| == |table| && forall k | 0 <= k < |table| :: SameFrame(places, table[k], numbered[k])
  {
    hide SameFrame, FrameStarts, CodeData, Increasing;
    numbered := [];
    while |numbered| < |table|
      invariant |numbered| <= |table|
      invariant forall k | 0 <= k < |numbered| :: FrameStarts(places, table[k]) && SameFrame(places, table[k], numbered[k])
    {
      var f;
      ok, f := NumberFrame(table[|numbered|], end, places, data, |places| - 1);
      if !ok {
        return;
      }
      numbered := numbered + [f];
    }
    ok := true;
  }

  /** The decoding of a method; it fails exactly when some place in it is none of an instruction. */
  method Decode(p: Program, end: nat) returns (ok: bool, d: Decoded, ghost pcs: seq<nat>)
    ensures ok <==> exists q :: Legible(p, end, q)
    ensures ok ==> Legible(p, end, pcs) && Decodes(p, end, d, pcs)
  {
    hide SameOp, TargetsStart, SameFrame, FrameStarts, CodeData, Numbering, Increasing;
    d := Decoded([], []);
    var data, places;
    ok, places, data := NumberInstructions(p, end);
    pcs := places;
    if !ok {
      return;
    }
    NumberingIncreases(p, end, pcs);
    forall q | Numbering(p, end, q) ensures q == pcs {
      NumberingIsUnique(p, end, q, pcs);
    }
    var instrs, table;
    ok, instrs := NumberOperands(p, places, data, end);
    if ok {
      ok, table := NumberTable(p.table, end, places, data);
      if ok {
        d := Decoded(instrs, table);
        assert Legible(p, end, pcs);
      }
    }
  }

  // ----- the numbered code behaves like the program -----

  function Ops(d: Decoded): map<nat, Place> {
    map n: nat | n < |d.instrs| :: Place(n, d.instrs[n].op, n + 1)
  }

  /** Entries name what they catch by their number. */
  function TableOf(table: seq<Frame>): seq<Frame> {
    seq(|table|, k requires 0 <= k < |table| => table[k].(catchType := k))
  }

  /** The decoded method. */
  function ProgramOf(d: Decoded): Program {
    Program(Ops(d), TableOf(d.table))
  }

  /** The meaning of instructions and entries, when they are named by their new numbers. */
  function Renamed(m: Semantics, d: Decoded): Semantics {
    Semantics((body: nat, world: int, popped: seq<int>, read: seq<int>, e: Event) =>
                body < |d.instrs| && m.allowed(d.instrs[body].origin, world, popped, read, e),
              (entry: nat, world: int, x: int) => entry < |d.table| && m.caught(d.table[entry].catchType, world, x))
  }

  /** The same state at the same instruction. */
  predicate SameState(pcs: seq<nat>, s: State, t: State) {
    if s.Running? then t.Running? && t.pc < |pcs| && pcs[t.pc] == s.pc && t == s.(pc := t.pc) else t == s
  }

  predicate NoSubroutines(p: Program) {
    forall pc | pc in p.at :: !p.at[pc].op.Jsr? && !p.at[pc].op.Ret?
  }

  lemma OrderKept(pcs: seq<nat>, n: nat, k: nat)
    requires Increasing(pcs) && n < |pcs| && k < |pcs|
    ensures n < k <==> pcs[n] < pcs[k]
    ensures n == k <==> pcs[n] == pcs[k]
  {
    if n < k {
      IncreasingAll(pcs, n, k);
    } else if k < n {
      IncreasingAll(pcs, k, n);
    }
  }

  /** The handler that is found is the same one. */
  lemma {:induction false} HandlerNumbered(m: Semantics, pcs: seq<nat>, a: seq<Frame>, b: seq<Frame>, n: nat, world: int, x: int)
    requires Increasing(pcs) && |a| == |b| && n < |pcs| && forall k | 0 <= k < |a| :: SameFrame(pcs, a[k], b[k])
    ensures var h, g := Handler(m, a, pcs[n], world, x), Handler(m, b, n, world, x);
            (h < 0 <==> g < 0) && (g >= 0 ==> g < |pcs| && pcs[g] == h)
  {
    if a != [] {
      var f, g := a[0], b[0];
      assert SameFrame(pcs, f, g);
      OrderKept(pcs, n, g.start);
      OrderKept(pcs, n, g.end);
      assert Covers(f, pcs[n]) <==> Covers(g, n);
      HandlerNumbered(m, pcs, a[1..], b[1..], n, world, x);
    }
  }

  lemma SuccessorsNumbered(pcs: seq<nat>, a: Place, b: Place, n: nat)
    requires n < |pcs| - 1 && a.op.Plain? && SameOp(pcs, a.op, b.op) && a.next == pcs[n + 1] && b.next == n + 1
    ensures |Successors(a)| == |Successors(b)|
    ensures forall c | 0 <= c < |Successors(a)| :: Successors(b)[c] < |pcs| && pcs[Successors(b)[c]] == Successors(a)[c]
  {
  }

  lemma PlainNumbered(m: Semantics, p: Program, d: Decoded, pcs: seq<nat>, s: State, t: State, e: Event)
    requires Increasing(pcs) && |d.table| == |p.table| && forall k | 0 <= k < |p.table| :: SameFrame(pcs, p.table[k], d.table[k])
    requires s.Running? && SameState(pcs, s, t) && t.pc < |d.instrs| == |pcs| - 1 && s.pc in p.at && p.at[s.pc].op.Plain?
    requires IsNumbered(p, pcs, t.pc, d.instrs[t.pc]) && p.at[s.pc].next == pcs[t.pc + 1]
    ensures SameState(pcs, Step(m, p, s, Act(e)), Step(Renamed(m, d), ProgramOf(d), t, Act(e)))
  {
    var a, b := p.at[s.pc], Place(t.pc, d.instrs[t.pc].op, t.pc + 1);
    assert ProgramOf(d).at[t.pc] == b;
    SuccessorsNumbered(pcs, a, b, t.pc);
    hide Successors, SameFrame, Increasing, Datas, Write;
    if e.Throws? {
      HandlerNumbered(m, pcs, p.table, d.table, t.pc, e.world, e.exception);
      SameHandlers(m, d, 0, t.pc, e.world, e.exception);
      assert TableOf(d.table)[0..] == TableOf(d.table) && d.table[0..] == d.table;
    }
    hide Handler;
  }

  lemma {:induction false} SameHandlers(m: Semantics, d: Decoded, k: nat, pc: nat, world: int, x: int)
    requires k <= |d.table|
    ensures Handler(Renamed(m, d), TableOf(d.table)[k..], pc, world, x) == Handler(m, d.table[k..], pc, world, x)
    decreases |d.table| - k
  {
    if k < |d.table| {
      assert TableOf(d.table)[k..][1..] == TableOf(d.table)[k + 1..] && d.table[k..][1..] == d.table[k + 1..];
      SameHandlers(m, d, k + 1, pc, world, x);
    }
  }

  lemma StepNumbered(m: Semantics, p: Program, end: nat, d: Decoded, pcs: seq<nat>, s: State, t: State, l: Label)
    requires Decodes(p, end, d, pcs) && NoSubroutines(p) && end !in p.at && SameState(pcs, s, t)
    ensures SameState(pcs, Step(m, p, s, l), Step(Renamed(m, d), ProgramOf(d), t, l))
  {
    NumberingIncreases(p, end, pcs);
    if s.Running? && t.pc < |pcs| - 1 {
      assert IsNumbered(p, pcs, t.pc, d.instrs[t.pc]);
      assert ProgramOf(d).at[t.pc] == Place(t.pc, d.instrs[t.pc].op, t.pc + 1);
      hide SameFrame, Increasing;
      if p.at[s.pc].op.Plain? && l.Act? {
        PlainNumbered(m, p, d, pcs, s, t, l.event);
      }
    }
  }

  /** Every run of the program is, label by label, a run of the decoded method, and the other way round. */
  lemma {:induction false} RunNumbered(m: Semantics, p: Program, end: nat, d: Decoded, pcs: seq<nat>, s: State, t: State, labels: seq<Label>)
    requires Decodes(p, end, d, pcs) && NoSubroutines(p) && end !in p.at && SameState(pcs, s, t)
    ensures SameState(pcs, Run(m, p, s, labels), Run(Renamed(m, d), ProgramOf(d), t, labels))
    decreases |labels|
  {
    hide Decodes, NoSubroutines, SameState, Step, ProgramOf, Renamed;
    if labels != [] {
      StepNumbered(m, p, end, d, pcs, s, t, labels[0]);
      RunNumbered(m, p, end, d, pcs, Step(m, p, s, labels[0]), Step(Renamed(m, d), ProgramOf(d), t, labels[0]), labels[1..]);
    }
  }
}
