/** Rewriting preserves behaviour: the original and the new code run in step. */
module InlinerSoundness {
  import opened JsrMachine
  import opened Inliner
  import opened InlinedCode
  import opened InlinedHandlers

  // ----- what the verifier establishes -----

  function StoredTo(stores: seq<nat>): set<nat> {
    set r | r in stores
  }

  /** The masks after an instruction that writes the given registers. */
  function Changed(changed: seq<set<nat>>, stores: seq<nat>): (r: seq<set<nat>>)
    ensures |r| == |changed|
  {
    seq(|changed|, p requires 0 <= p < |changed| => changed[p] + StoredTo(stores))
  }

  function WithWords(registers: map<nat, Kind>, stores: seq<nat>): map<nat, Kind> {
    map r | r in registers.Keys + StoredTo(stores) :: if r in stores then Word else registers[r]
  }

  function WordStack(n: nat): seq<Kind> {
    seq(n, _ => Word)
  }

  predicate Distinct(context: seq<nat>) {
    forall p, q | 0 <= p < q < |context| :: context[p] != context[q]
  }

  /** Every mask of `note` is one of the given ones, with no fewer changes. */
  predicate Kept(context: seq<nat>, changed: seq<set<nat>>, note: Note)
    requires |context| == |changed| && note.Reached?
  {
    && |note.changed| == |note.context|
    && forall p | 0 <= p < |note.context| ::
         exists q :: 0 <= q < |context| && context[q] == note.context[p] && changed[q] <= note.changed[p]
  }

  /** What the verifier's merge leaves of `out` at t. */
  predicate Arrives(code: Code, out: Note, t: nat)
    requires code.Valid() && out.Reached? && |out.changed| == |out.context|
  {
    && t < |code.notes| && code.notes[t].Reached?
    && Kept(out.context, out.changed, code.notes[t])
    && code.notes[t].stack == out.stack
    && (forall r | r in code.notes[t].registers :: r in out.registers && out.registers[r] == code.notes[t].registers[r])
  }

  /** The items an ordinary instruction pops are words. */
  predicate PopsWords(code: Code, i: nat)
    requires code.Valid() && i < |code.instrs| && code.instrs[i].op.Plain? && code.notes[i].Reached?
  {
    var op, n := code.instrs[i].op, code.notes[i];
    op.pops <= |n.stack| && forall k | |n.stack| - op.pops <= k < |n.stack| :: n.stack[k] == Word
  }

  function PlainOut(code: Code, i: nat): (out: Note)
    requires code.Valid() && i < |code.instrs| && code.instrs[i].op.Plain? && code.notes[i].Reached?
    requires code.instrs[i].op.pops <= |code.notes[i].stack|
    ensures out.Reached? && out.context == code.notes[i].context && |out.changed| == |code.notes[i].changed|
  {
    var op, n := code.instrs[i].op, code.notes[i];
    n.(stack := n.stack[..|n.stack| - op.pops] + WordStack(op.pushes),
       registers := WithWords(n.registers, op.stores), changed := Changed(n.changed, op.stores))
  }

  predicate PlainAccepted(code: Code, i: nat)
    requires code.Valid() && i < |code.instrs| && code.instrs[i].op.Plain? && code.notes[i].Reached?
    requires |code.notes[i].changed| == |code.notes[i].context|
  {
    var op, n := code.instrs[i].op, code.notes[i];
    && op.pops <= |n.stack|
    && (forall k | 0 <= k < |op.loads| :: op.loads[k] in n.registers && n.registers[op.loads[k]] == Word)
    && (forall k | 0 <= k < |op.stores| :: op.stores[k] < code.nlocals)
    && (PopsWords(code, i) ==>
          && (op.falls ==> Arrives(code, PlainOut(code, i), i + 1))
          && (forall k | 0 <= k < |op.targets| :: Arrives(code, PlainOut(code, i), op.targets[k])))
  }

  /** What an exception thrown at i brings arrives at its handlers. */
  predicate HandlersArrive(code: Code, i: nat)
    requires code.Valid() && i < |code.instrs| && code.notes[i].Reached? && |code.notes[i].changed| == |code.notes[i].context|
  {
    forall k | 0 <= k < |code.table| && Covers(code.table[k], i) ::
      Arrives(code, code.notes[i].(stack := [Word]), code.table[k].handler)
  }

  function AstoreOut(n: Note, r: nat): Note
    requires n.Reached? && n.stack != []
  {
    n.(stack := n.stack[..|n.stack| - 1], registers := n.registers[r := n.stack[|n.stack| - 1]], changed := Changed(n.changed, [r]))
  }

  /** What a jsr to t sends there; one whose subroutine does not return adds no mask. */
  function JsrOut(n: Note, t: nat): Note
    requires n.Reached?
  {
    var pushed := n.(stack := n.stack + [ReturnTo(t)]);
    if n.hasRet then pushed.(context := n.context + [t], changed := n.changed + [{}]) else pushed
  }

  /** A call: there is no older return address of the same subroutine, and there is a place to return to. */
  predicate JsrAccepted(code: Code, i: nat)
    requires code.Valid() && i < |code.instrs| && code.instrs[i].op.Jsr? && code.notes[i].Reached?
    requires |code.notes[i].changed| == |code.notes[i].context|
  {
    var t, n := code.instrs[i].op.target, code.notes[i];
    && t !in n.context && Arrives(code, JsrOut(n, t), t)
    && (n.hasRet ==>
          && ReturnTo(t) !in n.stack && (forall r | r in code.notes[t].registers :: code.notes[t].registers[r] != ReturnTo(t))
          && i + 1 < |code.notes| && code.notes[i + 1].Reached?)
  }

  /**
   Where the ret at i returns to from its k-th mask: registers that the subroutine has not
   changed are those of the jsr.  The ret's own register counts as changed.
   */
  predicate ReturnArrives(code: Code, i: nat, j: nat, k: nat)
    requires code.Valid() && i < |code.instrs| && j < |code.instrs| && code.notes[i].Reached? && code.notes[j].Reached?
    requires code.instrs[i].op.Ret? && k < |code.notes[i].changed| == |code.notes[i].context|
  {
    var n, jsr := code.notes[i], code.notes[j];
    var top := n.changed[k] + {code.instrs[i].op.register};
    && j + 1 < |code.notes| && code.notes[j + 1].Reached?
    && code.notes[j + 1].stack == n.stack
    && Kept(n.context[..k], n.changed[..k], code.notes[j + 1])
    && (forall r | r in code.notes[j + 1].registers ::
          var from := if r in top then n.registers else jsr.registers;
          r in from && from[r] == code.notes[j + 1].registers[r])
  }

  /** The register holds a return address of one of the recorded subroutines. */
  predicate ReturnsFrom(code: Code, i: nat, k: nat)
    requires code.Valid() && i < |code.instrs| && code.instrs[i].op.Ret? && code.notes[i].Reached?
  {
    var r, n := code.instrs[i].op.register, code.notes[i];
    k < |n.context| && r in n.registers && n.registers[r] == ReturnTo(n.context[k])
  }

  ghost predicate RetAccepted(code: Code, i: nat)
    requires code.Valid() && i < |code.instrs| && code.instrs[i].op.Ret? && code.notes[i].Reached?
    requires |code.notes[i].changed| == |code.notes[i].context|
  {
    exists k: nat :: ReturnsFrom(code, i, k)
      && forall j | 0 <= j < |code.instrs| && ReturningJsr(code, j) && JsrTarget(code, j) == code.notes[i].context[k] ::
           ReturnArrives(code, i, j, k)
  }

  /** The recorded notes are a fixed point of the verifier's analysis at i. */
  ghost predicate AcceptedAt(code: Code, i: nat)
    requires code.Valid() && i < |code.instrs|
  {
    code.notes[i].Reached? ==>
      var n := code.notes[i];
      && |n.changed| == |n.context| && Distinct(n.context)
      && (forall r | r in n.registers :: r < code.nlocals)
      && HandlersArrive(code, i)
      && match code.instrs[i].op
         case Plain(_, _, _, _, _, _) => PlainAccepted(code, i)
         case Goto(t) => Arrives(code, n, t)
         case Astore(r) => n.stack != [] && r < code.nlocals && Arrives(code, AstoreOut(n, r), i + 1)
         case Jsr(_) => JsrAccepted(code, i)
         case Ret(_) => RetAccepted(code, i)
  }

  /** No subroutine has two rets. */
  ghost predicate RetsDiffer(code: Code)
    requires code.Valid()
  {
    forall i, j, k: nat, l: nat |
        && 0 <= i < |code.instrs| && 0 <= j < |code.instrs| && ReachedRet(code, i) && ReachedRet(code, j)
        && ReturnsFrom(code, i, k) && ReturnsFrom(code, j, l) && code.notes[i].context[k] == code.notes[j].context[l] ::
      i == j
  }

  /** Code with notes as the verifier leaves them. */
  ghost predicate Accepted(code: Code) {
    && code.Valid()
    && (forall i | 0 <= i < |code.instrs| :: AcceptedAt(code, i))
    && RetsDiffer(code)
    && code.notes[0].Reached? && code.notes[0].context == [] && code.notes[0].stack == []
    && (forall r | r in code.notes[0].registers :: code.notes[0].registers[r] == Word)
  }

  // ----- what the inliner takes for granted, and the verifier does not establish -----

  /** The masks at the entry of the called subroutine are those of the caller and its own. */
  predicate CallNested(code: Code, i: nat)
    requires code.Valid() && ReturningJsr(code, i)
  {
    var t := JsrTarget(code, i);
    t < |code.notes| && code.notes[t].Reached? && code.notes[t].context == code.notes[i].context + [t]
  }

  /** So for every call that is made from a context for which code is generated. */
  ghost predicate CallsNested(code: Code)
    requires code.Valid()
  {
    forall calls, i | Live(code, calls) && Member(code, i, calls) && ReturningJsr(code, i) :: CallNested(code, i)
  }

  /** The instruction may go to the next one, on its own or by a ret. */
  predicate FallsThrough(code: Code, i: nat)
    requires code.Valid() && i < |code.instrs|
  {
    var op := code.instrs[i].op;
    (op.Plain? && op.falls) || op.Astore? || ReturningJsr(code, i)
  }

  /** Nothing falls out of a subroutine into code that is also reached from outside. */
  predicate FallsNested(code: Code)
    requires code.Valid()
  {
    forall i | 0 <= i < |code.instrs| - 1 && code.notes[i].Reached? && FallsThrough(code, i) && code.notes[i + 1].Reached? ::
      code.notes[i + 1].context == code.notes[i].context
  }

  /** The instruction branches to t, or may throw an exception that is handled there. */
  predicate Branches(code: Code, i: nat, t: nat)
    requires code.Valid() && i < |code.instrs|
  {
    match code.instrs[i].op
    case Plain(_, _, _, _, _, targets) =>
      t in targets || exists k :: 0 <= k < |code.table| && Covers(code.table[k], i) && code.table[k].handler == t
    case Goto(target) => t == target
    case Jsr(target) => t == target && !ReturningJsr(code, i)
    case _ => false
  }

  /** A branch goes to the same subroutine or to one around it. */
  predicate BranchesNested(code: Code)
    requires code.Valid()
  {
    forall i: nat, t: nat |
        i < |code.instrs| && code.notes[i].Reached? && t < |code.notes| && code.notes[t].Reached? && Branches(code, i, t) ::
      code.notes[t].context <= code.notes[i].context
  }

  /** A ret leaves the innermost subroutine only. */
  ghost predicate RetsInnermost(code: Code)
    requires code.Valid()
  {
    forall i: nat, k: nat | ReachedRet(code, i) && ReturnsFrom(code, i, k) :: k == |code.notes[i].context| - 1
  }

  /** Return addresses are popped by astore instructions only. */
  predicate AddressesOnlyStored(code: Code)
    requires code.Valid()
  {
    forall i | 0 <= i < |code.instrs| && code.instrs[i].op.Plain? && code.notes[i].Reached? :: PopsWords(code, i)
  }

  ghost predicate Nested(code: Code)
    requires code.Valid()
  {
    CallsNested(code) && FallsNested(code) && BranchesNested(code) && RetsInnermost(code) && AddressesOnlyStored(code)
  }

  /** Accepted code that meets what the inliner takes for granted. */
  ghost predicate Inlinable(code: Code) {
    code.Valid() && Accepted(code) && Encodable(code) && TargetsInRange(code) && Nested(code)
  }

  // ----- what the copies of an instruction rely on: see CheckedAt -----

  /** The recorded state at t describes every state that the note `out` describes. */
  predicate Flows(code: Code, out: Note, t: nat)
    requires code.Valid() && out.Reached? && |out.changed| == |out.context|
  {
    && t < |code.notes| && code.notes[t].Reached?
    && code.notes[t].context <= out.context && |code.notes[t].changed| == |code.notes[t].context|
    && (forall p | 0 <= p < |code.notes[t].changed| :: out.changed[p] <= code.notes[t].changed[p])
    && code.notes[t].stack == out.stack
    && (forall r | r in code.notes[t].registers :: r in out.registers && out.registers[r] == code.notes[t].registers[r])
  }

  /** Falling through stays in the same subroutine. */
  predicate FallsTo(code: Code, out: Note, t: nat)
    requires code.Valid() && out.Reached? && |out.changed| == |out.context|
  {
    Flows(code, out, t) && code.notes[t].context == out.context
  }

  predicate PlainChecked(code: Code, i: nat)
    requires code.Valid() && i < |code.instrs| && code.instrs[i].op.Plain? && code.notes[i].Reached?
    requires |code.notes[i].changed| == |code.notes[i].context|
  {
    var op, n := code.instrs[i].op, code.notes[i];
    && op.pops <= |n.stack|
    && (forall k | |n.stack| - op.pops <= k < |n.stack| :: n.stack[k] == Word)
    && (forall k | 0 <= k < |op.loads| :: op.loads[k] in n.registers && n.registers[op.loads[k]] == Word)
    && (forall k | 0 <= k < |op.stores| :: op.stores[k] < code.nlocals)
    && (op.falls ==> FallsTo(code, PlainOut(code, i), i + 1))
    && (forall k | 0 <= k < |op.targets| :: Flows(code, PlainOut(code, i), op.targets[k]))
    && (forall k | 0 <= k < |code.table| && Covers(code.table[k], i) :: Flows(code, n.(stack := [Word]), code.table[k].handler))
  }

  predicate JsrChecked(code: Code, i: nat)
    requires code.Valid() && i < |code.instrs| && code.instrs[i].op.Jsr? && code.notes[i].Reached?
    requires |code.notes[i].changed| == |code.notes[i].context|
  {
    var t, n := code.instrs[i].op.target, code.notes[i];
    && t !in n.context
    && if n.hasRet then
         && t < |code.notes| && code.notes[t].Reached?
         && code.notes[t].context == n.context + [t] && |code.notes[t].changed| == |code.notes[t].context|
         && (forall p | 0 <= p < |n.changed| :: n.changed[p] <= code.notes[t].changed[p])
         && code.notes[t].stack == n.stack + [ReturnTo(t)] && ReturnTo(t) !in n.stack
         && (forall r | r in code.notes[t].registers ::
               r in n.registers && n.registers[r] == code.notes[t].registers[r] != ReturnTo(t))
         && i + 1 < |code.notes| && code.notes[i + 1].Reached? && code.notes[i + 1].context == n.context
       else Flows(code, n.(stack := n.stack + [ReturnTo(t)]), t)
  }

  predicate ReturnFlows(code: Code, i: nat, j: nat)
    requires code.Valid() && i < |code.instrs| && j < |code.instrs| && code.notes[i].Reached? && code.notes[j].Reached?
    requires code.instrs[i].op.Ret? && |code.notes[i].changed| == |code.notes[i].context| > 0
  {
    var n, jsr := code.notes[i], code.notes[j];
    var top := n.changed[|n.changed| - 1] + {code.instrs[i].op.register};
    && j + 1 < |code.notes| && code.notes[j + 1].Reached?
    && code.notes[j + 1].stack == n.stack
    && |code.notes[j + 1].changed| == |code.notes[j + 1].context| == |n.context| - 1
    && (forall p | 0 <= p < |code.notes[j + 1].changed| :: n.changed[p] <= code.notes[j + 1].changed[p])
    && (forall r | r in code.notes[j + 1].registers ::
          var from := if r in top then n.registers else jsr.registers;
          r in from && from[r] == code.notes[j + 1].registers[r])
  }

  predicate RetChecked(code: Code, i: nat)
    requires code.Valid() && i < |code.instrs| && code.instrs[i].op.Ret? && code.notes[i].Reached?
    requires |code.notes[i].changed| == |code.notes[i].context|
  {
    var r, n := code.instrs[i].op.register, code.notes[i];
    && n.context != []
    && r in n.registers && n.registers[r] == ReturnTo(n.context[|n.context| - 1])
    && (forall j | 0 <= j < |code.instrs| && ReturningJsr(code, j) && code.notes[j].context + [JsrTarget(code, j)] == n.context ::
          ReturnFlows(code, i, j))
  }

  predicate Checked(code: Code, i: nat)
    requires code.Valid() && i < |code.instrs|
  {
    code.notes[i].Reached? ==>
      var n := code.notes[i];
      && |n.changed| == |n.context|
      && (forall r | r in n.registers :: r < code.nlocals)
      && match code.instrs[i].op
         case Plain(_, _, _, _, _, _) => PlainChecked(code, i)
         case Goto(t) => Flows(code, n, t)
         case Astore(r) => n.stack != [] && r < code.nlocals && FallsTo(code, AstoreOut(n, r), i + 1)
         case Jsr(_) => JsrChecked(code, i)
         case Ret(_) => RetChecked(code, i)
  }

  /** Where masks are only taken from the inside, the pointwise comparison is that of the merge. */
  lemma ArrivesFlows(code: Code, out: Note, t: nat)
    requires code.Valid() && out.Reached? && |out.changed| == |out.context| && Distinct(out.context)
    requires Arrives(code, out, t) && code.notes[t].context <= out.context
    ensures Flows(code, out, t)
  {
    KeptPointwise(out.context, out.changed, code.notes[t]);
  }

  lemma KeptPointwise(context: seq<nat>, changed: seq<set<nat>>, note: Note)
    requires |context| == |changed| && Distinct(context) && note.Reached? && Kept(context, changed, note) && note.context <= context
    ensures forall p | 0 <= p < |note.changed| :: changed[p] <= note.changed[p]
  {
    forall p | 0 <= p < |note.changed| ensures changed[p] <= note.changed[p] {
      var q :| 0 <= q < |context| && context[q] == note.context[p] && changed[q] <= note.changed[p];
      assert note.context[p] == context[p];
      assert q == p;
    }
  }

  /** Wherever code is generated for an instruction, what its copies rely on holds. */
  lemma CheckedAt(code: Code, calls: seq<nat>, i: nat)
    requires Inlinable(code) && Live(code, calls) && Member(code, i, calls)
    ensures Checked(code, i) && |code.notes[i].changed| == |code.notes[i].context|
  {
    assert AcceptedAt(code, i);
    hide Live, Member, Arrives, Flows, RetsDiffer, CallsNested, FallsNested, BranchesNested, RetsInnermost, AddressesOnlyStored, Accepted,
         Encodable, TargetsInRange, JsrAccepted, JsrChecked, RetAccepted, RetChecked, PlainAccepted, PlainChecked, HandlersArrive;
    match code.instrs[i].op {
      case Plain(_, _, _, _, _, _) => PlainIsChecked(code, i);
      case Goto(t) => BranchFlows(code, i, code.notes[i], t);
      case Astore(r) => FallFlows(code, i, AstoreOut(code.notes[i], r));
      case Jsr(_) => JsrIsChecked(code, calls, i);
      case Ret(_) => RetIsChecked(code, i);
    }
  }

  lemma BranchFlows(code: Code, i: nat, out: Note, t: nat)
    requires code.Valid() && BranchesNested(code) && i < |code.instrs| && code.notes[i].Reached? && Branches(code, i, t)
    requires out.Reached? && |out.changed| == |out.context| && out.context == code.notes[i].context && Distinct(out.context)
    requires Arrives(code, out, t)
    ensures Flows(code, out, t)
  {
    ArrivesFlows(code, out, t);
  }

  lemma FallFlows(code: Code, i: nat, out: Note)
    requires code.Valid() && FallsNested(code) && i < |code.instrs| && code.notes[i].Reached? && FallsThrough(code, i)
    requires out.Reached? && |out.changed| == |out.context| && out.context == code.notes[i].context && Distinct(out.context)
    requires Arrives(code, out, i + 1)
    ensures FallsTo(code, out, i + 1)
  {
    ArrivesFlows(code, out, i + 1);
  }

  lemma PlainIsChecked(code: Code, i: nat)
    requires code.Valid() && AddressesOnlyStored(code) && FallsNested(code) && BranchesNested(code)
    requires i < |code.instrs| && code.instrs[i].op.Plain? && code.notes[i].Reached?
    requires |code.notes[i].changed| == |code.notes[i].context| && Distinct(code.notes[i].context)
    requires PlainAccepted(code, i) && HandlersArrive(code, i)
    ensures PlainChecked(code, i)
  {
    var op, n := code.instrs[i].op, code.notes[i];
    assert PopsWords(code, i);
    hide Arrives, Flows, AddressesOnlyStored, BranchesNested, FallsNested;
    if op.falls {
      FallFlows(code, i, PlainOut(code, i));
    }
    forall k | 0 <= k < |op.targets| ensures Flows(code, PlainOut(code, i), op.targets[k]) {
      BranchFlows(code, i, PlainOut(code, i), op.targets[k]);
    }
    forall k | 0 <= k < |code.table| && Covers(code.table[k], i) ensures Flows(code, n.(stack := [Word]), code.table[k].handler) {
      BranchFlows(code, i, n.(stack := [Word]), code.table[k].handler);
    }
  }

  lemma JsrIsChecked(code: Code, calls: seq<nat>, i: nat)
    requires code.Valid() && Nested(code) && Live(code, calls) && Member(code, i, calls)
    requires i < |code.instrs| && code.instrs[i].op.Jsr?
    requires |code.notes[i].changed| == |code.notes[i].context| && Distinct(code.notes[i].context) && JsrAccepted(code, i)
    ensures JsrChecked(code, i)
  {
    var t, n := code.instrs[i].op.target, code.notes[i];
    if n.hasRet {
      assert CallNested(code, i);
      assert FallsThrough(code, i);
      assert code.notes[i + 1].context == n.context;
      hide *;
      CallIsChecked(code, i);
    } else {
      assert Branches(code, i, t);
      hide Live, CallsNested, FallsNested, RetsInnermost, AddressesOnlyStored;
      ArrivesFlows(code, JsrOut(n, t), t);
    }
  }

  lemma CallIsChecked(code: Code, i: nat)
    requires code.Valid() && i < |code.instrs| && code.instrs[i].op.Jsr? && code.notes[i].Reached? && code.notes[i].hasRet
    requires |code.notes[i].changed| == |code.notes[i].context| && Distinct(code.notes[i].context) && JsrAccepted(code, i)
    requires ReturningJsr(code, i) && CallNested(code, i) && code.notes[i + 1].context == code.notes[i].context
    ensures JsrChecked(code, i)
  {
    var t, n := code.instrs[i].op.target, code.notes[i];
    var out := JsrOut(n, t);
    assert Distinct(out.context);
    KeptPointwise(out.context, out.changed, code.notes[t]);
    forall p | 0 <= p < |n.changed| ensures n.changed[p] <= code.notes[t].changed[p] {
      assert out.changed[p] == n.changed[p];
    }
  }

  lemma RetIsChecked(code: Code, i: nat)
    requires code.Valid() && RetsInnermost(code) && FallsNested(code)
    requires i < |code.instrs| && code.instrs[i].op.Ret? && code.notes[i].Reached?
    requires |code.notes[i].changed| == |code.notes[i].context| && Distinct(code.notes[i].context) && RetAccepted(code, i)
    ensures RetChecked(code, i)
  {
    hide ReturnArrives, ReturnFlows, FallsNested, Distinct, FallsThrough;
    var n := code.notes[i];
    var k: nat :| ReturnsFrom(code, i, k)
      && forall j | 0 <= j < |code.instrs| && ReturningJsr(code, j) && JsrTarget(code, j) == n.context[k] :: ReturnArrives(code, i, j, k);
    assert ReachedRet(code, i) && k == |n.context| - 1;
    forall j | 0 <= j < |code.instrs| && ReturningJsr(code, j) && code.notes[j].context + [JsrTarget(code, j)] == n.context
      ensures ReturnFlows(code, i, j)
    {
      assert n.context[k] == (code.notes[j].context + [JsrTarget(code, j)])[k] == JsrTarget(code, j);
      assert ReturnArrives(code, i, j, k);
      JsrFallsThrough(code, j);
      hide *;
      InnermostReturn(code, i, j);
    }
  }

  lemma JsrFallsThrough(code: Code, j: nat)
    requires code.Valid() && ReturningJsr(code, j)
    ensures FallsThrough(code, j)
  {
  }

  lemma InnermostReturn(code: Code, i: nat, j: nat)
    requires code.Valid() && i < |code.instrs| && j < |code.instrs| && code.notes[i].Reached? && code.notes[j].Reached?
    requires code.instrs[i].op.Ret? && |code.notes[i].changed| == |code.notes[i].context| && Distinct(code.notes[i].context)
    requires code.notes[i].context == code.notes[j].context + [JsrTarget(code, j)] && FallsNested(code) && FallsThrough(code, j)
    requires ReturnArrives(code, i, j, |code.notes[i].context| - 1)
    ensures ReturnFlows(code, i, j)
  {
    hide FallsThrough, JsrTarget;
    var n := code.notes[i];
    var k := |n.context| - 1;
    assert code.notes[j + 1].context == code.notes[j].context == n.context[..k];
    assert Distinct(n.context[..k]);
    KeptPointwise(n.context[..k], n.changed[..k], code.notes[j + 1]);
  }

  /** A subroutine context has one ret. */
  lemma InlinableHasOneRet(code: Code)
    requires Inlinable(code)
    ensures OneRet(code)
  {
    hide Encodable, TargetsInRange, CallsNested, FallsNested, BranchesNested, AddressesOnlyStored;
    forall i: nat | ReachedRet(code, i) ensures code.notes[i].context != [] && ReturnsFrom(code, i, |code.notes[i].context| - 1) {
      assert AcceptedAt(code, i) && RetAccepted(code, i);
      hide AcceptedAt, Arrives, ReturnArrives;
      var k: nat :| ReturnsFrom(code, i, k);
    }
  }

  // ----- the two programs -----

  function Original(code: Code): Program
    requires code.Valid()
  {
    Program(map i: nat | i < |code.instrs| :: Place(i, code.instrs[i].op, i + 1), code.table)
  }

  lemma RefsInCode(code: Code)
    requires code.Valid()
    ensures InCode(code, Emit(code, []))
  {
    forall k | 0 <= k < |Emit(code, [])| ensures Emit(code, [])[k].inumber < |code.instrs| {
      CopyAt(code, k);
    }
  }

  ghost predicate Continuations(code: Code, next: map<seq<nat>, nat>)
    requires code.Valid()
  {
    NextRight(code, next, [], |code.instrs|)
  }

  /** No branch panics: the copy it needs is there. */
  lemma NoPanic(code: Code, next: map<seq<nat>, nat>)
    requires Inlinable(code) && Continuations(code, next)
    ensures InCode(code, Emit(code, [])) && AllTargetsFound(code, Emit(code, []), next, |Emit(code, [])|)
  {
    RefsInCode(code);
    var refs := Emit(code, []);
    forall k | 0 <= k < |refs| && !refs[k].flag.Skip? ensures TargetsFound(code, refs, next, k) {
      CopyAt(code, k);
      FindTargets(code, next, k, refs[k].subroutine, refs[k].inumber);
    }
  }

  lemma FlowIsVisible(code: Code, out: Note, calls: seq<nat>, t: nat)
    requires code.Valid() && out.Reached? && |out.changed| == |out.context| && out.context == Entries(code, calls) && Live(code, calls)
    requires Flows(code, out, t)
    ensures VisibleFrom(code, calls, t) && TargetRef(Emit(code, []), calls, t) >= 0
  {
    hide Emit, Live;
    VisibleCopyIsUnique(code, calls, t);
  }

  lemma FindTargets(code: Code, next: map<seq<nat>, nat>, k: nat, calls: seq<nat>, i: nat)
    requires Inlinable(code) && Continuations(code, next) && InCode(code, Emit(code, []))
    requires Live(code, calls) && Member(code, i, calls) && Position(code, calls, i) == k
    requires k < |Emit(code, [])| && Emit(code, [])[k] == Copied(code, calls, i) && !FlagOf(code, calls, i).Skip?
    ensures TargetsFound(code, Emit(code, []), next, k)
  {
    hide Accepted, Nested, TargetsInRange;
    CheckedAt(code, calls, i);
    var n := code.notes[i];
    var refs := Emit(code, []);
    match code.instrs[i].op {
      case Plain(pops, pushes, loads, stores, falls, targets) =>
        forall m | 0 <= m < |targets| ensures TargetRef(refs, calls, targets[m]) >= 0 {
          FlowIsVisible(code, PlainOut(code, i), calls, targets[m]);
        }
      case Goto(t) => FlowIsVisible(code, n, calls, t);
      case Astore(r) =>
      case Jsr(t) =>
        if n.hasRet {
          CallTarget(code, k, calls, i);
        } else {
          FlowIsVisible(code, n.(stack := n.stack + [ReturnTo(t)]), calls, t);
        }
      case Ret(_) =>
        assert calls != [];
        SegmentAt(code, calls);
        LiveAt(code, calls, 0);
        assert NextFor(code, next, calls);
    }
  }

  lemma EntryIsMember(code: Code, calls: seq<nat>, i: nat)
    requires Inlinable(code) && Live(code, calls) && Member(code, i, calls) && ReturningJsr(code, i)
    ensures Member(code, JsrTarget(code, i), calls + [i])
    ensures code.notes[JsrTarget(code, i)].context == Entries(code, calls) + [JsrTarget(code, i)]
  {
    hide Accepted, Nested, Live, TargetsInRange, Encodable;
    CheckedAt(code, calls, i);
    assert Entries(code, calls + [i]) == Entries(code, calls) + [JsrTarget(code, i)];
  }

  lemma MemberSees(code: Code, calls: seq<nat>, i: nat)
    requires code.Valid() && Member(code, i, calls)
    ensures VisibleFrom(code, calls, i) && HomeOf(code, calls, i) == calls
  {
    assert calls[..|calls|] == calls;
  }

  /** The copy of the subroutine directly follows the jsr, and contains its entry. */
  lemma CallTarget(code: Code, k: nat, calls: seq<nat>, i: nat)
    requires Inlinable(code) && Live(code, calls) && Member(code, i, calls) && ReturningJsr(code, i)
    requires k < |Emit(code, [])| && Emit(code, [])[k] == Copied(code, calls, i) && Position(code, calls, i) == k
    ensures var t, inner := JsrTarget(code, i), calls + [i];
            && Live(code, inner) && Member(code, t, inner) && Start(code, inner) == k + 1
            && FirstMember(code, inner, 0) < |code.instrs|
            && k + 1 < |Emit(code, [])| && Emit(code, [])[k + 1] == Copied(code, inner, FirstMember(code, inner, 0))
            && Position(code, inner, FirstMember(code, inner, 0)) == k + 1
            && TargetRef(Emit(code, []), inner, t) == Position(code, inner, t)
  {
    var t, inner := JsrTarget(code, i), calls + [i];
    EntryIsMember(code, calls, i);
    LiveCall(code, calls, i);
    MemberSees(code, inner, t);
    VisibleCopyIsUnique(code, inner, t);
    hide Inlinable, Emit, Live, Entries, Copied, TargetRef;
    CallStart(code, inner, t);
  }

  lemma CallStart(code: Code, inner: seq<nat>, t: nat)
    requires code.Valid() && Live(code, inner) && Member(code, t, inner)
    ensures FirstMember(code, inner, 0) <= t && Position(code, inner, FirstMember(code, inner, 0)) == Start(code, inner)
    ensures Start(code, inner) < |Emit(code, [])|
    ensures Emit(code, [])[Start(code, inner)] == Copied(code, inner, FirstMember(code, inner, 0))
  {
    hide Live;
    var f := FirstMember(code, inner, 0);
    MoreMembers(code, inner, 0, f);
    RefAt(code, inner, f);
  }

  // ----- what a state of the original machine looks like -----

  /** A return address of a subroutine that is active is that of its call. */
  predicate Typed(code: Code, calls: seq<nat>, v: Value, kind: Kind) {
    match kind
    case Word => v.Data?
    case ReturnTo(e) => v.Address? && forall p | 0 <= p < |calls| && JsrTarget(code, calls[p]) == e :: v.jsr == calls[p]
  }

  predicate RegistersTyped(code: Code, calls: seq<nat>, locals: seq<Value>, registers: map<nat, Kind>) {
    forall r | r in registers :: r < |locals| && Typed(code, calls, locals[r], registers[r])
  }

  predicate StackTyped(code: Code, calls: seq<nat>, stack: seq<Value>, kinds: seq<Kind>) {
    |stack| == |kinds| && forall k | 0 <= k < |stack| :: Typed(code, calls, stack[k], kinds[k])
  }

  /** What is known of an active call: the registers it was made with, and which of them are still the same. */
  predicate CallKept(code: Code, calls: seq<nat>, p: nat, before: seq<Value>, locals: seq<Value>, changed: set<nat>)
    requires code.Valid() && p < |calls|
  {
    && |before| == |locals|
    && calls[p] < |code.notes| && code.notes[calls[p]].Reached?
    && RegistersTyped(code, calls[..p], before, code.notes[calls[p]].registers)
    && forall r | 0 <= r < |locals| && r !in changed :: locals[r] == before[r]
  }

  predicate CallsKept(code: Code, calls: seq<nat>, saved: seq<seq<Value>>, locals: seq<Value>, changed: seq<set<nat>>)
    requires code.Valid()
  {
    |saved| == |calls| == |changed| && forall p | 0 <= p < |calls| :: CallKept(code, calls, p, saved[p], locals, changed[p])
  }

  /** The state is described by a note for the given chain of active calls. */
  predicate Described(code: Code, stack: seq<Value>, locals: seq<Value>, note: Note, calls: seq<nat>, saved: seq<seq<Value>>)
    requires code.Valid()
  {
    && note.Reached? && note.context == Entries(code, calls) && |locals| == code.nlocals
    && StackTyped(code, calls, stack, note.stack)
    && RegistersTyped(code, calls, locals, note.registers)
    && CallsKept(code, calls, saved, locals, note.changed)
  }

  lemma TypedUnderPrefix(code: Code, calls: seq<nat>, n: nat, v: Value, kind: Kind)
    requires n <= |calls| && Typed(code, calls, v, kind)
    ensures Typed(code, calls[..n], v, kind)
  {
  }

  /** A state described on leaving an instruction is described where it goes. */
  lemma FlowKeeps(code: Code, stack: seq<Value>, locals: seq<Value>, out: Note, calls: seq<nat>, saved: seq<seq<Value>>, t: nat)
    requires code.Valid() && out.Reached? && |out.changed| == |out.context| && Flows(code, out, t)
    requires Described(code, stack, locals, out, calls, saved)
    ensures VisibleFrom(code, calls, t)
    ensures Described(code, stack, locals, code.notes[t], HomeOf(code, calls, t), saved[..|HomeOf(code, calls, t)|])
  {
    var note := code.notes[t];
    var home := HomeOf(code, calls, t);
    var n := |home|;
    assert Entries(code, home) == note.context;
    hide Typed;
    forall k | 0 <= k < |stack| ensures Typed(code, home, stack[k], note.stack[k]) {
      TypedUnderPrefix(code, calls, n, stack[k], note.stack[k]);
    }
    forall r | r in note.registers ensures r < |locals| && Typed(code, home, locals[r], note.registers[r]) {
      TypedUnderPrefix(code, calls, n, locals[r], note.registers[r]);
    }
    forall p | 0 <= p < n ensures CallKept(code, home, p, saved[..n][p], locals, note.changed[p]) {
      assert CallKept(code, calls, p, saved[p], locals, out.changed[p]);
      assert home[..p] == calls[..p] && home[p] == calls[p];
    }
  }

  // ----- the erasure of return addresses -----

  function Erased(stack: seq<Value>): (r: seq<Value>)
    ensures AllData(r)
  {
    if stack == [] then []
    else Erased(stack[..|stack| - 1]) + if stack[|stack| - 1].Data? then [stack[|stack| - 1]] else []
  }

  lemma {:induction false} ErasedPlus(a: seq<Value>, b: seq<Value>)
    requires AllData(b)
    ensures Erased(a + b) == Erased(a) + b
  {
    if b == [] {
      assert a + b == a;
    } else {
      var last := b[|b| - 1];
      assert (a + b)[..|a + b| - 1] == a + b[..|b| - 1];
      ErasedPlus(a, b[..|b| - 1]);
      assert b == b[..|b| - 1] + [last];
    }
  }

  predicate LocalsAgree(a: seq<Value>, b: seq<Value>) {
    |a| == |b| && forall r | 0 <= r < |a| && a[r].Data? :: b[r] == a[r]
  }

  /**
   The new code is at the copy of the same instruction in the context of the active calls,
   and its state is the same but for return addresses.
   */
  predicate Match(code: Code, s: State, t: State, calls: seq<nat>, saved: seq<seq<Value>>)
    requires code.Valid() && InCode(code, Emit(code, []))
  {
    && s.Running? && t.Running? && Live(code, calls) && Member(code, s.pc, calls)
    && Described(code, s.stack, s.locals, code.notes[s.pc], calls, saved)
    && Position(code, calls, s.pc) < |Emit(code, [])|
    && t.pc == Offset(code, Emit(code, []), Position(code, calls, s.pc))
    && t.stack == Erased(s.stack) && LocalsAgree(s.locals, t.locals) && t.world == s.world
  }

  ghost predicate Matched(code: Code, s: State, t: State)
    requires code.Valid() && InCode(code, Emit(code, []))
  {
    if s.Running? then exists calls, saved :: Match(code, s, t, calls, saved) else s == t
  }

  // ----- what one instruction does to a described state -----

  /** Everything an instruction may write: some registers get words. */
  lemma {:induction false} WriteIs(locals: seq<Value>, stores: seq<nat>, words: seq<int>, r: nat)
    requires Writable(locals, stores) && |words| == |stores| && r < |locals|
    ensures r in stores ==> Write(locals, stores, words)[r].Data?
    ensures r !in stores ==> Write(locals, stores, words)[r] == locals[r]
    decreases |stores|
  {
    if stores != [] {
      WriteIs(locals[stores[0] := Data(words[0])], stores[1..], words[1..], r);
      if r in stores[1..] {
      } else if r == stores[0] {
        assert Write(locals, stores, words)[r] == Data(words[0]);
      }
    }
  }

  lemma {:induction false} WritesAgree(a: seq<Value>, b: seq<Value>, stores: seq<nat>, words: seq<int>)
    requires LocalsAgree(a, b) && Writable(a, stores) && |words| == |stores|
    ensures Writable(b, stores) && LocalsAgree(Write(a, stores, words), Write(b, stores, words))
    decreases |stores|
  {
    if stores != [] {
      WritesAgree(a[stores[0] := Data(words[0])], b[stores[0] := Data(words[0])], stores[1..], words[1..]);
    }
  }

  /** New registers and masks describe new locals that differ only in the registers written. */
  lemma StoresKeep(code: Code, locals: seq<Value>, after: seq<Value>, n: Note, calls: seq<nat>, saved: seq<seq<Value>>, stores: seq<nat>)
    requires code.Valid() && n.Reached? && |after| == |locals| && CallsKept(code, calls, saved, locals, n.changed)
    requires forall r | 0 <= r < |locals| && r !in stores :: after[r] == locals[r]
    ensures CallsKept(code, calls, saved, after, Changed(n.changed, stores))
  {
    hide RegistersTyped;
    forall p | 0 <= p < |calls| ensures CallKept(code, calls, p, saved[p], after, Changed(n.changed, stores)[p]) {
      assert CallKept(code, calls, p, saved[p], locals, n.changed[p]);
      forall r | 0 <= r < |after| && r !in Changed(n.changed, stores)[p] ensures after[r] == saved[p][r] {
        assert r !in StoredTo(stores) && r !in n.changed[p];
      }
    }
  }

  lemma PlainKeeps(code: Code, i: nat, stack: seq<Value>, locals: seq<Value>, calls: seq<nat>, saved: seq<seq<Value>>, pushed: seq<int>, written: seq<int>)
    requires code.Valid() && i < |code.instrs| && code.instrs[i].op.Plain? && code.notes[i].Reached?
    requires |code.notes[i].changed| == |code.notes[i].context| && PlainChecked(code, i)
    requires Described(code, stack, locals, code.notes[i], calls, saved)
    requires |pushed| == code.instrs[i].op.pushes && |written| == |code.instrs[i].op.stores|
    requires Writable(locals, code.instrs[i].op.stores)
    ensures Described(code, stack[..|stack| - code.instrs[i].op.pops] + Datas(pushed), Write(locals, code.instrs[i].op.stores, written),
                      PlainOut(code, i), calls, saved)
  {
    var op, n := code.instrs[i].op, code.notes[i];
    var after := Write(locals, op.stores, written);
    forall r: nat | r < |locals|
      ensures r in op.stores ==> after[r].Data?
      ensures r !in op.stores ==> after[r] == locals[r]
    {
      WriteIs(locals, op.stores, written, r);
    }
    hide Write;
    StoresKeep(code, locals, after, n, calls, saved, op.stores);
    hide CallsKept;
    var out := PlainOut(code, i);
    assert RegistersTyped(code, calls, after, out.registers);
    assert StackTyped(code, calls, stack[..|stack| - op.pops] + Datas(pushed), out.stack);
  }

  lemma AstoreKeeps(code: Code, i: nat, stack: seq<Value>, locals: seq<Value>, calls: seq<nat>, saved: seq<seq<Value>>, r: nat)
    requires code.Valid() && i < |code.instrs| && code.notes[i].Reached?
    requires Described(code, stack, locals, code.notes[i], calls, saved)
    requires stack != [] && r < code.nlocals
    ensures Described(code, stack[..|stack| - 1], locals[r := stack[|stack| - 1]], AstoreOut(code.notes[i], r), calls, saved)
  {
    StoresKeep(code, locals, locals[r := stack[|stack| - 1]], code.notes[i], calls, saved, [r]);
    hide CallsKept;
  }

  /** A call: the new mask's registers are those of the caller. */
  lemma CallKeeps(code: Code, i: nat, stack: seq<Value>, locals: seq<Value>, calls: seq<nat>, saved: seq<seq<Value>>)
    requires Inlinable(code) && Live(code, calls) && Member(code, i, calls) && ReturningJsr(code, i)
    requires Described(code, stack, locals, code.notes[i], calls, saved)
    ensures Described(code, stack + [Address(i)], locals, code.notes[JsrTarget(code, i)], calls + [i], saved + [locals])
  {
    CheckedAt(code, calls, i);
    var t, inner, n := JsrTarget(code, i), calls + [i], code.notes[i];
    var note := code.notes[t];
    EntryIsMember(code, calls, i);
    hide Inlinable, Checked;
    forall v: Value, kind: Kind | kind != ReturnTo(t) && Typed(code, calls, v, kind) ensures Typed(code, inner, v, kind) {
    }
    assert Typed(code, inner, Address(i), ReturnTo(t)) by {
      forall p | 0 <= p < |calls| ensures JsrTarget(code, inner[p]) != t {
        assert inner[p] == calls[p] && JsrTarget(code, calls[p]) == n.context[p] && n.context[p] in n.context;
      }
    }
    assert StackTyped(code, inner, stack + [Address(i)], note.stack);
    assert RegistersTyped(code, inner, locals, note.registers);
    forall p | 0 <= p < |inner| ensures CallKept(code, inner, p, (saved + [locals])[p], locals, note.changed[p]) {
      if p < |calls| {
        assert CallKept(code, calls, p, saved[p], locals, n.changed[p]);
        assert inner[..p] == calls[..p];
      } else {
        assert inner[..p] == calls;
      }
    }
  }

  /** A return: the return address is that of the innermost call, and its registers come back. */
  lemma ReturnKeeps(code: Code, i: nat, stack: seq<Value>, locals: seq<Value>, calls: seq<nat>, saved: seq<seq<Value>>)
    requires Inlinable(code) && Live(code, calls) && Member(code, i, calls) && code.instrs[i].op.Ret?
    requires Described(code, stack, locals, code.notes[i], calls, saved)
    ensures calls != [] && code.instrs[i].op.register < |locals|
    ensures var j, outer := calls[|calls| - 1], calls[..|calls| - 1];
            && locals[code.instrs[i].op.register] == Address(j)
            && j + 1 < |code.notes| && Member(code, j + 1, outer) && ReturningJsr(code, j)
            && Described(code, stack, locals, code.notes[j + 1], outer, saved[..|outer|])
  {
    hide Accepted, Nested, TargetsInRange;
    CheckedAt(code, calls, i);
    var n := code.notes[i];
    var last := |calls| - 1;
    assert n.context[last] == Entries(code, calls)[last];
    var j, outer := calls[last], calls[..last];
    LiveAt(code, calls, last);
    CheckedAt(code, outer, j);
    assert Entries(code, calls) == Entries(code, outer) + [JsrTarget(code, j)];
    assert ReturnFlows(code, i, j);
    hide Inlinable, Checked, RetChecked, JsrChecked, Live;
    assert Typed(code, calls, locals[code.instrs[i].op.register], ReturnTo(JsrTarget(code, j)));
    ReturnDescribed(code, i, j, stack, locals, calls, saved);
  }

  lemma ReturnDescribed(code: Code, i: nat, j: nat, stack: seq<Value>, locals: seq<Value>, calls: seq<nat>, saved: seq<seq<Value>>)
    requires code.Valid() && i < |code.instrs| && j < |code.instrs| && code.notes[i].Reached? && code.notes[j].Reached?
    requires Described(code, stack, locals, code.notes[i], calls, saved) && calls != [] && calls[|calls| - 1] == j
    requires code.instrs[i].op.Ret? && |code.notes[i].changed| == |code.notes[i].context| && ReturnFlows(code, i, j)
    requires j + 1 < |code.notes| && code.notes[j + 1].Reached? && code.notes[j + 1].context == Entries(code, calls[..|calls| - 1])
    ensures Described(code, stack, locals, code.notes[j + 1], calls[..|calls| - 1], saved[..|calls| - 1])
  {
    var n, note, last := code.notes[i], code.notes[j + 1], |calls| - 1;
    var outer := calls[..last];
    assert CallKept(code, calls, last, saved[last], locals, n.changed[last]);
    hide Typed;
    forall v: Value, kind: Kind | Typed(code, calls, v, kind) ensures Typed(code, outer, v, kind) {
      TypedUnderPrefix(code, calls, last, v, kind);
    }
    forall r | r in note.registers ensures r < |locals| && Typed(code, outer, locals[r], note.registers[r]) {
      if r in n.changed[last] + {code.instrs[i].op.register} {
        assert Typed(code, calls, locals[r], n.registers[r]);
      } else {
        assert r in code.notes[j].registers;
        assert Typed(code, outer, saved[last][r], code.notes[j].registers[r]);
      }
    }
    hide ReturnFlows;
    assert StackTyped(code, outer, stack, note.stack) by {
      assert ReturnFlows(code, i, j);
      SameStack(code, i, j);
    }
    OuterKept(code, i, j, locals, calls, saved);
  }

  lemma SameStack(code: Code, i: nat, j: nat)
    requires code.Valid() && i < |code.instrs| && j < |code.instrs| && code.notes[i].Reached? && code.notes[j].Reached?
    requires code.instrs[i].op.Ret? && |code.notes[i].changed| == |code.notes[i].context| > 0 && ReturnFlows(code, i, j)
    ensures code.notes[j + 1].stack == code.notes[i].stack
  {
  }

  /** The calls further out are still as the masks say. */
  lemma OuterKept(code: Code, i: nat, j: nat, locals: seq<Value>, calls: seq<nat>, saved: seq<seq<Value>>)
    requires code.Valid() && i < |code.instrs| && j < |code.instrs| && code.notes[i].Reached? && code.notes[j].Reached?
    requires code.instrs[i].op.Ret? && |code.notes[i].changed| == |code.notes[i].context| == |calls| > 0 && ReturnFlows(code, i, j)
    requires CallsKept(code, calls, saved, locals, code.notes[i].changed)
    ensures CallsKept(code, calls[..|calls| - 1], saved[..|calls| - 1], locals, code.notes[j + 1].changed)
  {
    var n, note, last := code.notes[i], code.notes[j + 1], |calls| - 1;
    var outer := calls[..last];
    hide RegistersTyped;
    forall p | 0 <= p < last ensures CallKept(code, outer, p, saved[..last][p], locals, note.changed[p]) {
      assert CallKept(code, calls, p, saved[p], locals, n.changed[p]);
      assert outer[..p] == calls[..p];
    }
  }

  // ----- running in step -----

  predicate JumpFits(code: Code, refs: seq<CodeRef>, k: nat, to: int, size: int)
    requires code.Valid() && InCode(code, refs) && k < |refs|
  {
    0 <= to <= |refs| && (size == 2 || size == 4) &&
    -HalfRange(size) <= Offset(code, refs, to) - Offset(code, refs, k) < HalfRange(size)
  }

  predicate AllFit(code: Code, refs: seq<CodeRef>, k: nat, targets: seq<nat>, size: int)
    requires code.Valid() && InCode(code, refs) && k < |refs|
  {
    forall n | 0 <= n < |targets| :: JumpFits(code, refs, k, TargetRef(refs, refs[k].subroutine, targets[n]), size)
  }

  /** The distance of the branch at copy k, if it is one, fits its bytes. */
  predicate FitsAt(code: Code, refs: seq<CodeRef>, next: map<seq<nat>, nat>, k: nat)
    requires code.Valid() && InCode(code, refs) && k < |refs| && TargetsFound(code, refs, next, k)
  {
    var instr := code.instrs[refs[k].inumber];
    match instr.op
    case Plain(_, _, _, _, _, targets) => AllFit(code, refs, k, targets, DistanceSize(instr))
    case Goto(t) => JumpFits(code, refs, k, TargetRef(refs, refs[k].subroutine, t), DistanceSize(instr))
    case Jsr(t) => JumpFits(code, refs, k, TargetRef(refs, JsrContext(refs, k), t), 2)
    case Ret(_) => JumpFits(code, refs, k, next[refs[k].subroutine], 2)
    case Astore(_) => true
  }

  ghost predicate BranchesFit(code: Code, next: map<seq<nat>, nat>)
    requires Inlinable(code) && Continuations(code, next)
  {
    NoPanic(code, next);
    forall k | 0 <= k < |Emit(code, [])| && !Emit(code, [])[k].flag.Skip? :: FitsAt(code, Emit(code, []), next, k)
  }

  lemma JumpLands(code: Code, refs: seq<CodeRef>, k: nat, to: nat, size: nat)
    requires code.Valid() && InCode(code, refs) && k < |refs| && to <= |refs| && JumpFits(code, refs, k, to, size)
    ensures Jump(code, refs, k, to, size) == Offset(code, refs, to)
  {
    DistanceFits(Offset(code, refs, to) - Offset(code, refs, k), size);
  }

  /** No branch of the new code panics. */
  ghost predicate Found(code: Code, next: map<seq<nat>, nat>)
    requires code.Valid()
  {
    InCode(code, Emit(code, [])) && AllTargetsFound(code, Emit(code, []), next, |Emit(code, [])|)
  }

  /** The method that rewriteCode makes when it finds the end of every range. */
  ghost function NewProgram(code: Code, next: map<seq<nat>, nat>): Program
    requires code.Valid() && Encodable(code) && Found(code, next)
  {
    var refs := Emit(code, []);
    Program(PlacesTo(code, refs, next, |refs|), NewTable(code, refs, code.table))
  }

  /** What rewriteCode makes when the element behind code_data is `behind`. */
  ghost function MadeReading(code: Code, next: map<seq<nat>, nat>, behind: int): Program
    requires code.Valid() && Encodable(code) && Found(code, next)
  {
    NewProgram(code, next).(table := NewTable(code, Emit(code, []), EndsRead(code.table, |code.instrs|, behind)))
  }

  lemma MadeRight(code: Code, next: map<seq<nat>, nat>, behind: int)
    requires code.Valid() && Encodable(code) && Found(code, next) && EndsKnown(code, behind)
    ensures MadeReading(code, next, behind) == NewProgram(code, next)
  {
    hide Emit, PlacesTo, NewTable, Encodable;
    EndsReadRight(code, Emit(code, []), code.table, behind);
  }

  ghost function Rewritten(code: Code, next: map<seq<nat>, nat>): Program
    requires Inlinable(code) && Continuations(code, next)
  {
    NoPanic(code, next);
    NewProgram(code, next)
  }

  /** What the copy of the current instruction is in the new code. */
  lemma AtCopy(code: Code, next: map<seq<nat>, nat>, s: State, t: State, calls: seq<nat>, saved: seq<seq<Value>>)
    requires Inlinable(code) && Continuations(code, next) && BranchesFit(code, next) && InCode(code, Emit(code, []))
    requires Match(code, s, t, calls, saved)
    ensures var refs, k := Emit(code, []), Position(code, calls, s.pc);
            && k < |refs| && refs[k] == Copied(code, calls, s.pc)
            && (!refs[k].flag.Skip? ==>
                  && TargetsFound(code, refs, next, k) && FitsAt(code, refs, next, k)
                  && t.pc in Rewritten(code, next).at && Rewritten(code, next).at[t.pc] == NewPlace(code, refs, next, k))
  {
    hide Described, Emit, FitsAt, NewPlace, TargetsFound;
    var refs, k := Emit(code, []), Position(code, calls, s.pc);
    RefAt(code, calls, s.pc);
    NoPanic(code, next);
    if !refs[k].flag.Skip? {
      PlaceAt(code, refs, next, |refs|, k);
    }
  }

  /** The new machine has arrived at the copy that is visible for the target of a branch. */
  lemma Arrive(code: Code, s: State, t: State, calls: seq<nat>, saved: seq<seq<Value>>)
    requires code.Valid() && InCode(code, Emit(code, [])) && Live(code, calls)
    requires s.Running? && t.Running? && VisibleFrom(code, calls, s.pc) && |saved| == |calls|
    requires Described(code, s.stack, s.locals, code.notes[s.pc], HomeOf(code, calls, s.pc), saved[..|HomeOf(code, calls, s.pc)|])
    requires var to := TargetRef(Emit(code, []), calls, s.pc); to >= 0 && t.pc == Offset(code, Emit(code, []), to)
    requires t.stack == Erased(s.stack) && LocalsAgree(s.locals, t.locals) && t.world == s.world
    ensures Matched(code, s, t)
  {
    var home := HomeOf(code, calls, s.pc);
    VisibleCopyIsUnique(code, calls, s.pc);
    RefAt(code, home, s.pc);
    hide Described, Emit, Live, Member, Offset, VisibleFrom, HomeOf;
    assert Match(code, s, t, home, saved[..|home|]);
  }

  // ----- ordinary instructions -----

  /** Operands and registers an ordinary instruction uses are words, the same ones in both machines. */
  lemma SameOperands(code: Code, s: State, t: State, calls: seq<nat>, saved: seq<seq<Value>>)
    requires Inlinable(code) && InCode(code, Emit(code, [])) && Match(code, s, t, calls, saved) && code.instrs[s.pc].op.Plain?
    ensures var op := code.instrs[s.pc].op;
            && op.pops <= |s.stack| && op.pops <= |t.stack|
            && AllData(s.stack[|s.stack| - op.pops..])
            && t.stack[|t.stack| - op.pops..] == s.stack[|s.stack| - op.pops..]
            && t.stack[..|t.stack| - op.pops] == Erased(s.stack[..|s.stack| - op.pops])
            && Readable(s.locals, op.loads) && Readable(t.locals, op.loads)
            && Read(t.locals, op.loads) == Read(s.locals, op.loads)
            && Writable(s.locals, op.stores) && Writable(t.locals, op.stores)
  {
    hide *;
    MatchParts(code, s, t, calls, saved);
    MatchPlace(code, s, t, calls, saved);
    PlainReady(code, calls, s.pc);
    PlainUses(code, s.pc);
    var op, n := code.instrs[s.pc].op, code.notes[s.pc];
    WordsOnTop(code, calls, s.stack, n.stack, op.pops);
    WordsRead(code, calls, s.locals, n.registers, op.loads);
    SameReads(s.locals, t.locals, op.loads, op.stores);
  }

  lemma MatchParts(code: Code, s: State, t: State, calls: seq<nat>, saved: seq<seq<Value>>)
    requires Inlinable(code) && InCode(code, Emit(code, [])) && Match(code, s, t, calls, saved)
    ensures code.Valid() && s.Running? && t.Running? && s.pc < |code.instrs| && code.notes[s.pc].Reached? && s.world == t.world
    ensures |s.locals| == code.nlocals && t.stack == Erased(s.stack) && LocalsAgree(s.locals, t.locals)
    ensures |s.stack| == |code.notes[s.pc].stack| && StackTyped(code, calls, s.stack, code.notes[s.pc].stack)
    ensures RegistersTyped(code, calls, s.locals, code.notes[s.pc].registers)
  {
  }

  lemma PlainUses(code: Code, i: nat)
    requires code.Valid() && i < |code.instrs| && code.instrs[i].op.Plain? && code.notes[i].Reached?
    requires |code.notes[i].changed| == |code.notes[i].context| && PlainChecked(code, i)
    ensures var op, n := code.instrs[i].op, code.notes[i];
            && op.pops <= |n.stack|
            && (forall k | |n.stack| - op.pops <= k < |n.stack| :: n.stack[k] == Word)
            && (forall k | 0 <= k < |op.loads| :: op.loads[k] in n.registers && n.registers[op.loads[k]] == Word)
            && (forall k | 0 <= k < |op.stores| :: op.stores[k] < code.nlocals)
  {
    hide Flows, FallsTo;
  }

  lemma SameReads(a: seq<Value>, b: seq<Value>, loads: seq<nat>, stores: seq<nat>)
    requires LocalsAgree(a, b) && Readable(a, loads) && forall k | 0 <= k < |stores| :: stores[k] < |a|
    ensures Readable(b, loads) && Read(b, loads) == Read(a, loads) && Writable(a, stores) && Writable(b, stores)
  {
  }

  lemma WordsOnTop(code: Code, calls: seq<nat>, stack: seq<Value>, kinds: seq<Kind>, pops: nat)
    requires StackTyped(code, calls, stack, kinds) && pops <= |kinds|
    requires forall k | |kinds| - pops <= k < |kinds| :: kinds[k] == Word
    ensures var n, erased := |stack| - pops, Erased(stack);
            && AllData(stack[n..]) && pops <= |erased|
            && erased[|erased| - pops..] == stack[n..] && erased[..|erased| - pops] == Erased(stack[..n])
  {
    var n := |stack| - pops;
    forall k | n <= k < |stack| ensures stack[k].Data? {
      assert Typed(code, calls, stack[k], kinds[k]);
    }
    assert stack == stack[..n] + stack[n..];
    ErasedPlus(stack[..n], stack[n..]);
  }

  lemma WordsRead(code: Code, calls: seq<nat>, locals: seq<Value>, registers: map<nat, Kind>, loads: seq<nat>)
    requires RegistersTyped(code, calls, locals, registers)
    requires forall k | 0 <= k < |loads| :: loads[k] in registers && registers[loads[k]] == Word
    ensures Readable(locals, loads)
  {
    forall k | 0 <= k < |loads| ensures loads[k] < |locals| && locals[loads[k]].Data? {
      assert Typed(code, calls, locals[loads[k]], registers[loads[k]]);
    }
  }

  lemma PlainReady(code: Code, calls: seq<nat>, i: nat)
    requires Inlinable(code) && Live(code, calls) && Member(code, i, calls) && code.instrs[i].op.Plain?
    ensures |code.notes[i].changed| == |code.notes[i].context| && PlainChecked(code, i)
  {
    CheckedAt(code, calls, i);
  }

  /** One successor and the place the new code continues at. */
  predicate SuccessorMatches(code: Code, calls: seq<nat>, i: nat, to: nat, pc: nat)
    requires code.Valid() && InCode(code, Emit(code, []))
    requires i < |code.instrs| && code.instrs[i].op.Plain? && code.notes[i].Reached?
    requires |code.notes[i].changed| == |code.notes[i].context| && code.instrs[i].op.pops <= |code.notes[i].stack|
  {
    && Flows(code, PlainOut(code, i), to) && TargetRef(Emit(code, []), calls, to) >= 0
    && pc == Offset(code, Emit(code, []), TargetRef(Emit(code, []), calls, to))
  }

  /** The two ordinary instructions differ at most in where they branch to. */
  predicate SameShape(a: Op, b: Op) {
    && a.Plain? && b.Plain? && a.pops == b.pops && a.pushes == b.pushes && a.loads == b.loads && a.stores == b.stores
    && a.falls == b.falls && |a.targets| == |b.targets|
  }

  lemma SuccessorAt(place: Place, c: nat)
    requires place.op.Plain?
    ensures |Successors(place)| == |place.op.targets| + if place.op.falls then 1 else 0
    ensures c < |Successors(place)| ==>
              Successors(place)[c] == if !place.op.falls then place.op.targets[c] else if c == 0 then place.next else place.op.targets[c - 1]
  {
  }

  /** The successors of a copy are the visible copies of the successors. */
  predicate SameSuccessors(code: Code, calls: seq<nat>, i: nat, before: Place, after: Place)
    requires code.Valid() && InCode(code, Emit(code, []))
    requires i < |code.instrs| && code.instrs[i].op.Plain? && code.notes[i].Reached?
    requires |code.notes[i].changed| == |code.notes[i].context| && code.instrs[i].op.pops <= |code.notes[i].stack|
  {
    && before.op == code.instrs[i].op && SameShape(before.op, after.op)
    && |Successors(after)| == |Successors(before)|
    && forall c | 0 <= c < |Successors(before)| :: SuccessorMatches(code, calls, i, Successors(before)[c], Successors(after)[c])
  }

  lemma NewPlainIs(code: Code, next: map<seq<nat>, nat>, k: nat)
    requires code.Valid() && Encodable(code) && InCode(code, Emit(code, []))
    requires k < |Emit(code, [])| && TargetsFound(code, Emit(code, []), next, k)
    requires code.instrs[Emit(code, [])[k].inumber].op.Plain?
    ensures var refs := Emit(code, []);
            var op, place := code.instrs[refs[k].inumber].op, NewPlace(code, refs, next, k);
            && place.body == refs[k].inumber && SameShape(op, place.op) && place.next == Offset(code, refs, k + 1)
            && forall n | 0 <= n < |op.targets| ::
                 && TargetRef(refs, refs[k].subroutine, op.targets[n]) >= 0
                 && place.op.targets[n] == Jump(code, refs, k, TargetRef(refs, refs[k].subroutine, op.targets[n]), DistanceSize(code.instrs[refs[k].inumber]))
  {
    hide Emit, Jump, TargetRef, Offset;
  }

  lemma TargetLands(code: Code, next: map<seq<nat>, nat>, calls: seq<nat>, i: nat, k: nat, n: nat)
    requires Inlinable(code) && InCode(code, Emit(code, []))
    requires i < |code.instrs| && code.instrs[i].op.Plain? && code.notes[i].Reached?
    requires |code.notes[i].changed| == |code.notes[i].context| && PlainChecked(code, i)
    requires k < |Emit(code, [])| && Emit(code, [])[k] == Copied(code, calls, i)
    requires TargetsFound(code, Emit(code, []), next, k) && FitsAt(code, Emit(code, []), next, k)
    requires n < |code.instrs[i].op.targets|
    ensures var op := NewPlace(code, Emit(code, []), next, k).op;
            op.Plain? && n < |op.targets| && SuccessorMatches(code, calls, i, code.instrs[i].op.targets[n], op.targets[n])
  {
    var refs, op := Emit(code, []), code.instrs[i].op;
    NewPlainIs(code, next, k);
    hide Inlinable, Flows, Emit, Offset, TargetRef, PlainOut, NewPlace, TargetsFound, Jump;
    JumpLands(code, refs, k, TargetRef(refs, calls, op.targets[n]), DistanceSize(code.instrs[i]));
  }

  lemma FallLands(code: Code, next: map<seq<nat>, nat>, calls: seq<nat>, i: nat, k: nat)
    requires Inlinable(code) && InCode(code, Emit(code, []))
    requires Live(code, calls) && Member(code, i, calls) && code.instrs[i].op.Plain? && Position(code, calls, i) == k
    requires |code.notes[i].changed| == |code.notes[i].context| && PlainChecked(code, i) && code.instrs[i].op.falls
    requires k < |Emit(code, [])|
    ensures SuccessorMatches(code, calls, i, i + 1, Offset(code, Emit(code, []), k + 1))
  {
    FallsToMember(code, calls, i);
    NextCopy(code, calls, i);
  }

  lemma CopyHasSameSuccessors(code: Code, next: map<seq<nat>, nat>, calls: seq<nat>, i: nat, k: nat)
    requires Inlinable(code) && InCode(code, Emit(code, []))
    requires Live(code, calls) && Member(code, i, calls) && code.instrs[i].op.Plain? && Position(code, calls, i) == k
    requires |code.notes[i].changed| == |code.notes[i].context| && PlainChecked(code, i)
    requires k < |Emit(code, [])| && Emit(code, [])[k] == Copied(code, calls, i)
    requires TargetsFound(code, Emit(code, []), next, k) && FitsAt(code, Emit(code, []), next, k)
    ensures SameSuccessors(code, calls, i, Place(i, code.instrs[i].op, i + 1), NewPlace(code, Emit(code, []), next, k))
  {
    hide Accepted, Nested, TargetsInRange, TargetRef, Offset, Live, Start, Flows, FallsTo;
    var refs, op := Emit(code, []), code.instrs[i].op;
    assert code.Valid() && Encodable(code) && code.notes[i].Reached? && op.pops <= |code.notes[i].stack| && i < |code.instrs|;
    assert refs[k].inumber == i;
    var before, after := Place(i, op, i + 1), NewPlace(code, refs, next, k);
    forall c | 0 <= c < |Successors(before)|
      ensures c < |Successors(after)| && SuccessorMatches(code, calls, i, Successors(before)[c], Successors(after)[c])
    {
      hide *;
      NewPlainIs(code, next, k);
      SuccessorAt(before, c);
      SuccessorAt(after, c);
      if op.falls && c == 0 {
        FallLands(code, next, calls, i, k);
      } else {
        TargetLands(code, next, calls, i, k, if op.falls then c - 1 else c);
      }
    }
    hide Inlinable, Emit, NewPlace, SuccessorMatches, TargetsFound, FitsAt, PlainChecked, Successors, Live, Member, Position;
    NewPlainIs(code, next, k);
    SuccessorAt(before, 0);
    SuccessorAt(after, 0);
  }

  lemma FallsToMember(code: Code, calls: seq<nat>, i: nat)
    requires code.Valid() && Member(code, i, calls) && i < |code.instrs| && code.instrs[i].op.Plain?
    requires |code.notes[i].changed| == |code.notes[i].context| && PlainChecked(code, i) && code.instrs[i].op.falls
    ensures Member(code, i + 1, calls) && !ReturningJsr(code, i)
  {
  }

  /** An instruction that falls through is followed by the copy of the next one. */
  lemma NextCopy(code: Code, calls: seq<nat>, i: nat)
    requires code.Valid() && Live(code, calls) && Member(code, i, calls) && Member(code, i + 1, calls) && !ReturningJsr(code, i)
    ensures Position(code, calls, i + 1) == Position(code, calls, i) + 1 < |Emit(code, [])|
    ensures TargetRef(Emit(code, []), calls, i + 1) == Position(code, calls, i + 1)
    ensures Emit(code, [])[Position(code, calls, i + 1)] == Copied(code, calls, i + 1)
  {
    EmitStep(code, calls, i);
    RefAt(code, calls, i + 1);
    MemberSees(code, calls, i + 1);
    VisibleCopyIsUnique(code, calls, i + 1);
  }

  /** A handler that is found is that of a covering entry. */
  lemma {:induction false} HandlerCovers(m: Semantics, table: seq<Frame>, pc: nat, world: int, x: int) returns (n: nat)
    requires Handler(m, table, pc, world, x) >= 0
    ensures n < |table| && Covers(table[n], pc) && table[n].handler == Handler(m, table, pc, world, x)
  {
    if Covers(table[0], pc) && m.caught(table[0].catchType, world, x) {
      n := 0;
    } else {
      n := HandlerCovers(m, table[1..], pc, world, x);
      n := n + 1;
    }
  }

  function Thrower(h: int, x: int, locals: seq<Value>, world: int): State {
    if h < 0 then Thrown(x, world) else Running(h, [Data(x)], locals, world)
  }

  lemma ThrowsInStep(m: Semantics, code: Code, s: State, t: State, calls: seq<nat>, saved: seq<seq<Value>>, world: int, x: int)
    requires Inlinable(code) && InCode(code, Emit(code, [])) && Match(code, s, t, calls, saved) && code.instrs[s.pc].op.Plain?
    requires Emit(code, [])[Position(code, calls, s.pc)] == Copied(code, calls, s.pc)
    ensures Matched(code, Thrower(Handler(m, code.table, s.pc, world, x), x, s.locals, world),
                    Thrower(Handler(m, NewTable(code, Emit(code, []), code.table), t.pc, world, x), x, t.locals, world))
  {
    PlainReady(code, calls, s.pc);
    hide Inlinable, Live, Emit, Offset, TargetRef, NewTable, Handler, CallsKept, Position;
    var refs, i, k := Emit(code, []), s.pc, Position(code, calls, s.pc);
    var out := code.notes[i].(stack := [Word]);
    forall n | 0 <= n < |code.table| && Covers(code.table[n], i) ensures VisibleFrom(code, calls, code.table[n].handler) {
      assert Flows(code, out, code.table[n].handler);
    }
    HandlerKept(m, code, code.table, k, world, x);
    var h := Handler(m, code.table, i, world, x);
    if h >= 0 {
      var n := HandlerCovers(m, code.table, i, world, x);
      ThrownTo(code, s, t, calls, saved, h, x, world);
    }
  }

  lemma ThrownTo(code: Code, s: State, t: State, calls: seq<nat>, saved: seq<seq<Value>>, h: nat, x: int, world: int)
    requires code.Valid() && InCode(code, Emit(code, [])) && Match(code, s, t, calls, saved)
    requires |code.notes[s.pc].changed| == |code.notes[s.pc].context| && Flows(code, code.notes[s.pc].(stack := [Word]), h)
    requires TargetRef(Emit(code, []), calls, h) >= 0
    ensures Matched(code, Running(h, [Data(x)], s.locals, world),
                    Running(Offset(code, Emit(code, []), TargetRef(Emit(code, []), calls, h)), [Data(x)], t.locals, world))
  {
    var out := code.notes[s.pc].(stack := [Word]);
    hide Live, Emit, Offset, TargetRef, Flows, CallsKept, Position;
    assert Described(code, [Data(x)], s.locals, out, calls, saved);
    FlowKeeps(code, [Data(x)], s.locals, out, calls, saved, h);
    assert Erased([Data(x)]) == [Data(x)] by { ErasedPlus([], [Data(x)]); assert [] + [Data(x)] == [Data(x)]; }
    hide Described, Erased, LocalsAgree;
    Arrive(code, Running(h, [Data(x)], s.locals, world),
           Running(Offset(code, Emit(code, []), TargetRef(Emit(code, []), calls, h)), [Data(x)], t.locals, world), calls, saved);
  }

  lemma EndsInStep(code: Code, s: State, t: State, calls: seq<nat>, saved: seq<seq<Value>>,
                   world: int, pushed: seq<int>, written: seq<int>, to: nat)
    requires Inlinable(code) && InCode(code, Emit(code, [])) && Match(code, s, t, calls, saved) && code.instrs[s.pc].op.Plain?
    requires |code.notes[s.pc].changed| == |code.notes[s.pc].context| && PlainChecked(code, s.pc) && Flows(code, PlainOut(code, s.pc), to)
    requires TargetRef(Emit(code, []), calls, to) >= 0
    requires |pushed| == code.instrs[s.pc].op.pushes && |written| == |code.instrs[s.pc].op.stores|
    ensures var op := code.instrs[s.pc].op;
            && op.pops <= |s.stack| && op.pops <= |t.stack| && Writable(s.locals, op.stores) && Writable(t.locals, op.stores)
            && Matched(code,
                 Running(to, s.stack[..|s.stack| - op.pops] + Datas(pushed), Write(s.locals, op.stores, written), world),
                 Running(Offset(code, Emit(code, []), TargetRef(Emit(code, []), calls, to)),
                         t.stack[..|t.stack| - op.pops] + Datas(pushed), Write(t.locals, op.stores, written), world))
  {
    SameOperands(code, s, t, calls, saved);
    hide Inlinable, Live, Emit, Offset, TargetRef, Flows, Position, PlainChecked, Described, PlainOut, Write, Erased;
    var op := code.instrs[s.pc].op;
    PlainKeeps(code, s.pc, s.stack, s.locals, calls, saved, pushed, written);
    var stack, locals := s.stack[..|s.stack| - op.pops] + Datas(pushed), Write(s.locals, op.stores, written);
    FlowKeeps(code, stack, locals, PlainOut(code, s.pc), calls, saved, to);
    ErasedPlus(s.stack[..|s.stack| - op.pops], Datas(pushed));
    WritesAgree(s.locals, t.locals, op.stores, written);
    SavedLength(code, s.stack, s.locals, code.notes[s.pc], calls, saved);
    Arrive(code, Running(to, stack, locals, world),
           Running(Offset(code, Emit(code, []), TargetRef(Emit(code, []), calls, to)),
                   t.stack[..|t.stack| - op.pops] + Datas(pushed), Write(t.locals, op.stores, written), world), calls, saved);
  }

  lemma SavedLength(code: Code, stack: seq<Value>, locals: seq<Value>, note: Note, calls: seq<nat>, saved: seq<seq<Value>>)
    requires code.Valid() && Described(code, stack, locals, note, calls, saved)
    ensures |saved| == |calls|
  {
  }

  /** An ordinary step when operands and registers are as they should be. */
  lemma PlainStepIs(m: Semantics, p: Program, s: State, e: Event)
    requires s.Running? && s.pc in p.at && p.at[s.pc].op.Plain?
    requires var op := p.at[s.pc].op;
             op.pops <= |s.stack| && AllData(s.stack[|s.stack| - op.pops..]) && Readable(s.locals, op.loads) && Writable(s.locals, op.stores)
    ensures var op := p.at[s.pc].op;
            Step(m, p, s, Act(e)) ==
            if m.allowed(p.at[s.pc].body, s.world, Words(s.stack[|s.stack| - op.pops..]), Read(s.locals, op.loads), e) then
              Outcome(m, p, s, p.at[s.pc], e, s.stack[..|s.stack| - op.pops], Words(s.stack[|s.stack| - op.pops..]))
            else Stuck
  {
  }

  lemma OutcomeInStep(m: Semantics, code: Code, p: Program, q: Program, s: State, t: State, calls: seq<nat>, saved: seq<seq<Value>>,
                      e: Event, before: Place, after: Place, popped: seq<int>)
    requires Inlinable(code) && InCode(code, Emit(code, [])) && Match(code, s, t, calls, saved) && code.instrs[s.pc].op.Plain?
    requires |code.notes[s.pc].changed| == |code.notes[s.pc].context| && PlainChecked(code, s.pc)
    requires Emit(code, [])[Position(code, calls, s.pc)] == Copied(code, calls, s.pc)
    requires p.table == code.table && q.table == NewTable(code, Emit(code, []), code.table)
    requires SameSuccessors(code, calls, s.pc, before, after)
    ensures var op := code.instrs[s.pc].op;
            && op.pops <= |s.stack| && op.pops <= |t.stack| && Writable(s.locals, op.stores) && Writable(t.locals, op.stores)
            && Matched(code, Outcome(m, p, s, before, e, s.stack[..|s.stack| - op.pops], popped),
                       Outcome(m, q, t, after, e, t.stack[..|t.stack| - op.pops], popped))
  {
    hide Accepted, Nested, TargetsInRange, Emit, Flows, PlainOut, Offset, TargetRef, Erased;
    SameOperands(code, s, t, calls, saved);
    var op := code.instrs[s.pc].op;
    if e.Throws? {
      ThrowsInStep(m, code, s, t, calls, saved, e.world, e.exception);
    } else if |e.pushed| == op.pushes && |e.written| == |op.stores| && e.choice < |Successors(before)| {
      assert SuccessorMatches(code, calls, s.pc, Successors(before)[e.choice], Successors(after)[e.choice]);
      hide Inlinable, Emit, PlainChecked, Successors, Flows, Match, Matched, PlainOut, Offset, TargetRef, Erased, Readable, AllData;
      EndsInStep(code, s, t, calls, saved, e.world, e.pushed, e.written, Successors(before)[e.choice]);
    }
  }

  lemma OriginalAt(code: Code, i: nat)
    requires code.Valid() && i < |code.instrs|
    ensures i in Original(code).at && Original(code).at[i] == Place(i, code.instrs[i].op, i + 1)
    ensures Original(code).table == code.table
  {
  }

  lemma RewrittenTable(code: Code, next: map<seq<nat>, nat>)
    requires Inlinable(code) && Continuations(code, next)
    ensures InCode(code, Emit(code, [])) && Rewritten(code, next).table == NewTable(code, Emit(code, []), code.table)
  {
    RefsInCode(code);
  }

  /** The two instructions a pair of matching states is at. */
  lemma PlainPlaces(code: Code, next: map<seq<nat>, nat>, s: State, t: State, calls: seq<nat>, saved: seq<seq<Value>>)
    requires Inlinable(code) && Continuations(code, next) && BranchesFit(code, next) && InCode(code, Emit(code, []))
    requires Match(code, s, t, calls, saved) && code.instrs[s.pc].op.Plain?
    ensures |code.notes[s.pc].changed| == |code.notes[s.pc].context| && PlainChecked(code, s.pc)
    ensures Emit(code, [])[Position(code, calls, s.pc)] == Copied(code, calls, s.pc)
    ensures s.pc in Original(code).at && t.pc in Rewritten(code, next).at
    ensures var before, after := Original(code).at[s.pc], Rewritten(code, next).at[t.pc];
            && before.body == after.body == s.pc && before.op == code.instrs[s.pc].op && SameShape(before.op, after.op)
            && SameSuccessors(code, calls, s.pc, before, after)
  {
    hide *;
    MatchParts(code, s, t, calls, saved);
    MatchPlace(code, s, t, calls, saved);
    AtCopy(code, next, s, t, calls, saved);
    PlainReady(code, calls, s.pc);
    OriginalAt(code, s.pc);
    CopiedPlain(code, calls, s.pc);
    var k := Position(code, calls, s.pc);
    CopyHasSameSuccessors(code, next, calls, s.pc, k);
    NewPlainIs(code, next, k);
  }

  lemma MatchPlace(code: Code, s: State, t: State, calls: seq<nat>, saved: seq<seq<Value>>)
    requires code.Valid() && InCode(code, Emit(code, [])) && Match(code, s, t, calls, saved)
    ensures s.Running? && Live(code, calls) && Member(code, s.pc, calls)
  {
  }

  lemma CopiedPlain(code: Code, calls: seq<nat>, i: nat)
    requires Inlinable(code) && i < |code.instrs| && code.instrs[i].op.Plain?
    ensures Encodable(code) && Copied(code, calls, i).inumber == i && !Copied(code, calls, i).flag.Skip?
  {
  }

  lemma PlainInStep(m: Semantics, code: Code, next: map<seq<nat>, nat>, s: State, t: State, calls: seq<nat>, saved: seq<seq<Value>>, e: Event)
    requires Inlinable(code) && Continuations(code, next) && BranchesFit(code, next) && InCode(code, Emit(code, []))
    requires Match(code, s, t, calls, saved) && code.instrs[s.pc].op.Plain?
    ensures Matched(code, Step(m, Original(code), s, Act(e)), Step(m, Rewritten(code, next), t, Act(e)))
  {
    hide *;
    MatchParts(code, s, t, calls, saved);
    OriginalAt(code, s.pc);
    PlainPlaces(code, next, s, t, calls, saved);
    RewrittenTable(code, next);
    SameOperands(code, s, t, calls, saved);
    ShapeParts(Original(code).at[s.pc].op, Rewritten(code, next).at[t.pc].op);
    var op, p, q := code.instrs[s.pc].op, Original(code), Rewritten(code, next);
    OutcomeInStep(m, code, p, q, s, t, calls, saved, e, p.at[s.pc], q.at[t.pc], Words(s.stack[|s.stack| - op.pops..]));
    StuckMatches(code);
    PlainStepIs(m, p, s, e);
    PlainStepIs(m, q, t, e);
  }

  lemma ShapeParts(a: Op, b: Op)
    requires SameShape(a, b)
    ensures a.Plain? && b.Plain? && a.pops == b.pops && a.loads == b.loads && a.stores == b.stores
  {
  }

  lemma MatchRuns(code: Code, s: State, t: State, calls: seq<nat>, saved: seq<seq<Value>>)
    requires Inlinable(code) && InCode(code, Emit(code, [])) && Match(code, s, t, calls, saved)
    ensures code.Valid() && s.Running? && t.Running? && s.world == t.world && s.pc < |code.instrs|
  {
  }

  lemma StuckMatches(code: Code)
    requires code.Valid() && InCode(code, Emit(code, []))
    ensures Matched(code, Stuck, Stuck)
  {
  }

  // ----- the other instructions -----

  lemma ErasedAddress(stack: seq<Value>, j: nat)
    ensures Erased(stack + [Address(j)]) == Erased(stack)
  {
    assert (stack + [Address(j)])[..|stack|] == stack;
  }

  /** A step of the original that goes to `to` with a described state, and a goto of the new code to the visible copy. */
  lemma GotoMatches(code: Code, s: State, t: State, calls: seq<nat>, saved: seq<seq<Value>>, out: Note, stack: seq<Value>, to: nat)
    requires code.Valid() && InCode(code, Emit(code, [])) && Match(code, s, t, calls, saved)
    requires out.Reached? && |out.changed| == |out.context| && Flows(code, out, to)
    requires Described(code, stack, s.locals, out, calls, saved) && Erased(stack) == Erased(s.stack)
    ensures TargetRef(Emit(code, []), calls, to) >= 0
    ensures Matched(code, s.(pc := to, stack := stack),
                    t.(pc := Offset(code, Emit(code, []), TargetRef(Emit(code, []), calls, to))))
  {
    FlowIsVisible(code, out, calls, to);
    FlowKeeps(code, stack, s.locals, out, calls, saved, to);
    SavedLength(code, stack, s.locals, out, calls, saved);
    hide Described, Flows, Emit, Live, Offset, TargetRef, Erased, LocalsAgree;
    Arrive(code, s.(pc := to, stack := stack), t.(pc := Offset(code, Emit(code, []), TargetRef(Emit(code, []), calls, to))), calls, saved);
  }

  lemma GotoInStep(m: Semantics, code: Code, next: map<seq<nat>, nat>, s: State, t: State, calls: seq<nat>, saved: seq<seq<Value>>)
    requires Inlinable(code) && Continuations(code, next) && BranchesFit(code, next) && InCode(code, Emit(code, []))
    requires Match(code, s, t, calls, saved) && code.instrs[s.pc].op.Goto?
    ensures Matched(code, Step(m, Original(code), s, Silent), Step(m, Rewritten(code, next), t, Silent))
  {
    AtCopy(code, next, s, t, calls, saved);
    CheckedAt(code, calls, s.pc);
    OriginalAt(code, s.pc);
    var refs, k, to := Emit(code, []), Position(code, calls, s.pc), code.instrs[s.pc].op.target;
    hide Described, Rewritten, Emit, Live, Offset, Jump, TargetRef, Erased, LocalsAgree, Original, Inlinable, Flows, Matched, BranchesFit, Continuations;
    GotoMatches(code, s, t, calls, saved, code.notes[s.pc], s.stack, to);
    JumpLands(code, refs, k, TargetRef(refs, calls, to), DistanceSize(code.instrs[s.pc]));
  }

  /** A jsr to a subroutine that does not return. */
  lemma SimpleJsrInStep(m: Semantics, code: Code, next: map<seq<nat>, nat>, s: State, t: State, calls: seq<nat>, saved: seq<seq<Value>>)
    requires Inlinable(code) && Continuations(code, next) && BranchesFit(code, next) && InCode(code, Emit(code, []))
    requires Match(code, s, t, calls, saved) && code.instrs[s.pc].op.Jsr? && !ReturningJsr(code, s.pc)
    ensures Matched(code, Step(m, Original(code), s, Silent), Step(m, Rewritten(code, next), t, Silent))
  {
    hide Accepted, Nested, TargetsInRange;
    AtCopy(code, next, s, t, calls, saved);
    CheckedAt(code, calls, s.pc);
    OriginalAt(code, s.pc);
    var refs, k, to := Emit(code, []), Position(code, calls, s.pc), code.instrs[s.pc].op.target;
    var n := code.notes[s.pc];
    var out, stack := n.(stack := n.stack + [ReturnTo(to)]), s.stack + [Address(s.pc)];
    hide Rewritten, Emit, Live, Offset, Jump, TargetRef, Erased, LocalsAgree, Original, Inlinable, Flows, Matched, BranchesFit, Continuations, Described;
    PushedAddress(code, s.stack, s.locals, n, calls, saved, s.pc, to);
    ErasedAddress(s.stack, s.pc);
    GotoMatches(code, s, t, calls, saved, out, stack, to);
    JumpLands(code, refs, k, TargetRef(refs, calls, to), 2);
  }

  lemma PushedAddress(code: Code, stack: seq<Value>, locals: seq<Value>, n: Note, calls: seq<nat>, saved: seq<seq<Value>>, i: nat, to: nat)
    requires code.Valid() && Described(code, stack, locals, n, calls, saved) && to !in n.context
    ensures Described(code, stack + [Address(i)], locals, n.(stack := n.stack + [ReturnTo(to)]), calls, saved)
  {
    InactiveAddress(code, calls, i, to);
    hide CallsKept, Typed, RegistersTyped;
  }

  lemma InactiveAddress(code: Code, calls: seq<nat>, i: nat, to: nat)
    requires to !in Entries(code, calls)
    ensures Typed(code, calls, Address(i), ReturnTo(to))
  {
    forall p | 0 <= p < |calls| ensures JsrTarget(code, calls[p]) != to {
      assert Entries(code, calls)[p] == JsrTarget(code, calls[p]);
    }
  }

  /** The state after a call matches any state of the new code that stands at the entry of the copied subroutine. */
  lemma CallMatches(m: Semantics, code: Code, s: State, t: State, calls: seq<nat>, saved: seq<seq<Value>>)
    requires Inlinable(code) && InCode(code, Emit(code, [])) && Match(code, s, t, calls, saved) && ReturningJsr(code, s.pc)
    ensures var to, inner := JsrTarget(code, s.pc), calls + [s.pc];
            && Live(code, inner) && Member(code, to, inner) && Position(code, inner, to) <= |Emit(code, [])|
            && Match(code, Step(m, Original(code), s, Silent), t.(pc := Offset(code, Emit(code, []), Position(code, inner, to))),
                     inner, saved + [s.locals])
  {
    var to, inner := JsrTarget(code, s.pc), calls + [s.pc];
    OriginalAt(code, s.pc);
    LiveCall(code, calls, s.pc);
    EntryIsMember(code, calls, s.pc);
    RefAt(code, inner, to);
    CallKeeps(code, s.pc, s.stack, s.locals, calls, saved);
    ErasedAddress(s.stack, s.pc);
    hide Described, Emit, Live, Offset, Erased, LocalsAgree, Original, Inlinable, Position;
  }

  /** The state after a return matches any state of the new code that stands behind the copied subroutine. */
  lemma ReturnMatches(m: Semantics, code: Code, s: State, t: State, calls: seq<nat>, saved: seq<seq<Value>>)
    requires Inlinable(code) && InCode(code, Emit(code, [])) && Match(code, s, t, calls, saved) && code.instrs[s.pc].op.Ret?
    ensures calls != [] && |saved| == |calls|
    ensures var j, outer := calls[|calls| - 1], calls[..|calls| - 1];
            && Live(code, outer) && Member(code, j + 1, outer)
            && Position(code, outer, j + 1) == Start(code, calls) + |Emit(code, calls)| <= |Emit(code, [])|
            && Match(code, Step(m, Original(code), s, Silent), t.(pc := Offset(code, Emit(code, []), Position(code, outer, j + 1))),
                     outer, saved[..|outer|])
  {
    hide Accepted, Nested, TargetsInRange;
    ReturnKeeps(code, s.pc, s.stack, s.locals, calls, saved);
    var j, outer := calls[|calls| - 1], calls[..|calls| - 1];
    LiveAt(code, calls, |calls| - 1);
    OriginalAt(code, s.pc);
    OriginalAt(code, j);
    SegmentAt(code, calls);
    RefAt(code, outer, j + 1);
    hide Described, Emit, Live, Offset, Erased, LocalsAgree, Original, Inlinable, Position;
  }

  /** A jsr whose subroutine does not start with its entry is copied as a goto to the entry. */
  lemma TargetedJsrPlace(code: Code, next: map<seq<nat>, nat>, s: State, t: State, calls: seq<nat>, saved: seq<seq<Value>>)
    requires Inlinable(code) && Continuations(code, next) && BranchesFit(code, next) && InCode(code, Emit(code, []))
    requires Match(code, s, t, calls, saved) && ReturningJsr(code, s.pc) && !FlagOf(code, calls, s.pc).Skip?
    ensures var inner := calls + [s.pc];
            && Live(code, inner) && Member(code, JsrTarget(code, s.pc), inner) && JsrTarget(code, s.pc) < |code.instrs|
            && Position(code, inner, JsrTarget(code, s.pc)) <= |Emit(code, [])|
            && t.pc in Rewritten(code, next).at
            && Rewritten(code, next).at[t.pc].op == Goto(Offset(code, Emit(code, []), Position(code, inner, JsrTarget(code, s.pc))))
  {
    hide Accepted, Nested, TargetsInRange;
    AtCopy(code, next, s, t, calls, saved);
    var refs, k, to := Emit(code, []), Position(code, calls, s.pc), JsrTarget(code, s.pc);
    CallTarget(code, k, calls, s.pc);
    assert JsrContext(refs, k) == calls + [s.pc];
    hide Described, Emit, Live, Offset, Jump, TargetRef, Erased, LocalsAgree, Inlinable, Rewritten, BranchesFit, Continuations, Position;
    JumpLands(code, refs, k, TargetRef(refs, calls + [s.pc], to), 2);
  }

  lemma TargetedJsrInStep(m: Semantics, code: Code, next: map<seq<nat>, nat>, s: State, t: State, calls: seq<nat>, saved: seq<seq<Value>>)
    requires Inlinable(code) && Continuations(code, next) && BranchesFit(code, next) && InCode(code, Emit(code, []))
    requires Match(code, s, t, calls, saved) && ReturningJsr(code, s.pc) && !FlagOf(code, calls, s.pc).Skip?
    ensures Matched(code, Step(m, Original(code), s, Silent), Step(m, Rewritten(code, next), t, Silent))
  {
    hide *;
    TargetedJsrPlace(code, next, s, t, calls, saved);
    CallMatches(m, code, s, t, calls, saved);
    MatchRuns(code, s, t, calls, saved);
    var inner := calls + [s.pc];
    JumpTo(m, code, next, t, Position(code, inner, JsrTarget(code, s.pc)));
    MatchesMatched(code, Step(m, Original(code), s, Silent), Step(m, Rewritten(code, next), t, Silent), inner, saved + [s.locals]);
  }

  /** A ret that is not the last instruction of its subroutine is copied as a goto behind the subroutine. */
  lemma RetPlace(code: Code, next: map<seq<nat>, nat>, s: State, t: State, calls: seq<nat>, saved: seq<seq<Value>>)
    requires Inlinable(code) && Continuations(code, next) && BranchesFit(code, next) && InCode(code, Emit(code, []))
    requires Match(code, s, t, calls, saved) && code.instrs[s.pc].op.Ret? && !FlagOf(code, calls, s.pc).Skip?
    ensures Start(code, calls) + |Emit(code, calls)| <= |Emit(code, [])|
    ensures t.pc in Rewritten(code, next).at
    ensures Rewritten(code, next).at[t.pc].op == Goto(Offset(code, Emit(code, []), Start(code, calls) + |Emit(code, calls)|))
  {
    hide *;
    MatchParts(code, s, t, calls, saved);
    MatchPlace(code, s, t, calls, saved);
    AtCopy(code, next, s, t, calls, saved);
    SegmentAt(code, calls);
    ContinuesBehind(code, next, calls, s.pc);
    CopiedRet(code, calls, s.pc);
    NewRetIs(code, next, Position(code, calls, s.pc));
    JumpLands(code, Emit(code, []), Position(code, calls, s.pc), next[calls], 2);
  }

  lemma ContinuesBehind(code: Code, next: map<seq<nat>, nat>, calls: seq<nat>, i: nat)
    requires Inlinable(code) && Continuations(code, next) && Live(code, calls) && Member(code, i, calls) && code.instrs[i].op.Ret?
    ensures calls in next && next[calls] == Start(code, calls) + |Emit(code, calls)|
  {
    CheckedAt(code, calls, i);
    LiveAt(code, calls, 0);
    hide Emit, Start, Live, Member;
    assert NextFor(code, next, calls);
  }

  lemma CopiedRet(code: Code, calls: seq<nat>, i: nat)
    requires Inlinable(code) && i < |code.instrs|
    ensures Encodable(code) && Copied(code, calls, i).inumber == i && Copied(code, calls, i).subroutine == calls
    ensures Copied(code, calls, i).flag == FlagOf(code, calls, i)
  {
  }

  lemma NewRetIs(code: Code, next: map<seq<nat>, nat>, k: nat)
    requires code.Valid() && Encodable(code) && InCode(code, Emit(code, []))
    requires k < |Emit(code, [])| && TargetsFound(code, Emit(code, []), next, k) && FitsAt(code, Emit(code, []), next, k)
    requires code.instrs[Emit(code, [])[k].inumber].op.Ret?
    ensures var refs := Emit(code, []);
            var calls := refs[k].subroutine;
            && calls in next && next[calls] <= |refs| && JumpFits(code, refs, k, next[calls], 2)
            && NewPlace(code, refs, next, k).op == Goto(Jump(code, refs, k, next[calls], 2))
  {
    hide Emit, Jump, Offset;
  }

  lemma RetInStep(m: Semantics, code: Code, next: map<seq<nat>, nat>, s: State, t: State, calls: seq<nat>, saved: seq<seq<Value>>)
    requires Inlinable(code) && Continuations(code, next) && BranchesFit(code, next) && InCode(code, Emit(code, []))
    requires Match(code, s, t, calls, saved) && code.instrs[s.pc].op.Ret? && !FlagOf(code, calls, s.pc).Skip?
    ensures Matched(code, Step(m, Original(code), s, Silent), Step(m, Rewritten(code, next), t, Silent))
  {
    hide *;
    MatchParts(code, s, t, calls, saved);
    MatchPlace(code, s, t, calls, saved);
    RetPlace(code, next, s, t, calls, saved);
    ReturnMatches(m, code, s, t, calls, saved);
    MatchRuns(code, s, t, calls, saved);
    JumpTo(m, code, next, t, Start(code, calls) + |Emit(code, calls)|);
    var outer := calls[..|calls| - 1];
    MatchesMatched(code, Step(m, Original(code), s, Silent), Step(m, Rewritten(code, next), t, Silent), outer, saved[..|outer|]);
  }

  lemma MatchesMatched(code: Code, s: State, t: State, calls: seq<nat>, saved: seq<seq<Value>>)
    requires code.Valid() && InCode(code, Emit(code, [])) && Match(code, s, t, calls, saved)
    ensures Matched(code, s, t)
  {
  }

  lemma JumpTo(m: Semantics, code: Code, next: map<seq<nat>, nat>, t: State, to: nat)
    requires Inlinable(code) && Continuations(code, next) && InCode(code, Emit(code, [])) && t.Running?
    requires to <= |Emit(code, [])| && t.pc in Rewritten(code, next).at
    requires Rewritten(code, next).at[t.pc].op == Goto(Offset(code, Emit(code, []), to))
    ensures Step(m, Rewritten(code, next), t, Silent) == t.(pc := Offset(code, Emit(code, []), to))
  {
    hide Rewritten, Offset, Emit;
  }

  /** What an astore stores, and that its result is described for the next instruction. */
  lemma AstoreDescribed(code: Code, s: State, calls: seq<nat>, saved: seq<seq<Value>>)
    requires Inlinable(code) && s.Running? && Live(code, calls) && Member(code, s.pc, calls) && code.instrs[s.pc].op.Astore?
    requires Described(code, s.stack, s.locals, code.notes[s.pc], calls, saved)
    ensures s.stack != [] && code.instrs[s.pc].op.register < |s.locals|
    ensures s.stack[|s.stack| - 1].Address? <==> StoresReturnAddress(code, s.pc)
    ensures Member(code, s.pc + 1, calls)
    ensures Described(code, s.stack[..|s.stack| - 1], s.locals[code.instrs[s.pc].op.register := s.stack[|s.stack| - 1]],
                      code.notes[s.pc + 1], calls, saved)
  {
    var r, last := code.instrs[s.pc].op.register, |s.stack| - 1;
    AstoreFalls(code, calls, s.pc);
    assert Typed(code, calls, s.stack[last], code.notes[s.pc].stack[last]);
    AstoreKeeps(code, s.pc, s.stack, s.locals, calls, saved, r);
  }

  /** An astore of a word leads to the copy of the next instruction. */
  lemma AstoreMatches(code: Code, s: State, t: State, calls: seq<nat>, saved: seq<seq<Value>>)
    requires Inlinable(code) && InCode(code, Emit(code, []))
    requires Match(code, s, t, calls, saved) && code.instrs[s.pc].op.Astore? && !StoresReturnAddress(code, s.pc)
    ensures s.stack != [] && t.stack != [] && t.stack[|t.stack| - 1] == s.stack[|s.stack| - 1]
    ensures code.instrs[s.pc].op.register < |s.locals| == |t.locals|
    ensures Position(code, calls, s.pc) < |Emit(code, [])|
    ensures var r, last := code.instrs[s.pc].op.register, |s.stack| - 1;
            Match(code, Running(s.pc + 1, s.stack[..last], s.locals[r := s.stack[last]], s.world),
                  Running(Offset(code, Emit(code, []), Position(code, calls, s.pc) + 1), t.stack[..|t.stack| - 1],
                          t.locals[r := s.stack[last]], t.world), calls, saved)
  {
    hide Accepted, Nested, TargetsInRange, TargetRef;
    AstoreDescribed(code, s, calls, saved);
    AstoreIsNoCall(code, s.pc);
    NextCopy(code, calls, s.pc);
    hide Described, Emit, Live, Offset, TargetRef, Inlinable, Position, StoresReturnAddress;
    var last := |s.stack| - 1;
    assert s.stack == s.stack[..last] + [s.stack[last]];
    ErasedPlus(s.stack[..last], [s.stack[last]]);
    hide Erased;
  }

  /** An astore of a word is copied. */
  lemma AstoreInStep(m: Semantics, code: Code, next: map<seq<nat>, nat>, s: State, t: State, calls: seq<nat>, saved: seq<seq<Value>>)
    requires Inlinable(code) && Continuations(code, next) && BranchesFit(code, next) && InCode(code, Emit(code, []))
    requires Match(code, s, t, calls, saved) && code.instrs[s.pc].op.Astore? && !StoresReturnAddress(code, s.pc)
    ensures Matched(code, Step(m, Original(code), s, Silent), Step(m, Rewritten(code, next), t, Silent))
  {
    AtCopy(code, next, s, t, calls, saved);
    OriginalAt(code, s.pc);
    AstoreMatches(code, s, t, calls, saved);
    hide Match, Emit, Live, Offset, TargetRef, Inlinable, BranchesFit, Continuations, Rewritten, Original, StoresReturnAddress, Position;
    AstoreStep(m, Original(code), s);
    AstoreStep(m, Rewritten(code, next), t);
  }

  lemma AstoreStep(m: Semantics, p: Program, s: State)
    requires s.Running? && s.pc in p.at && p.at[s.pc].op.Astore?
    requires s.stack != [] && p.at[s.pc].op.register < |s.locals|
    ensures var last, r := |s.stack| - 1, p.at[s.pc].op.register;
            Step(m, p, s, Silent) == Running(p.at[s.pc].next, s.stack[..last], s.locals[r := s.stack[last]], s.world)
  {
  }

  /** After an astore the next instruction is in the same context, and its note describes the result. */
  lemma AstoreFalls(code: Code, calls: seq<nat>, i: nat)
    requires Inlinable(code) && Live(code, calls) && Member(code, i, calls) && code.instrs[i].op.Astore?
    ensures Member(code, i + 1, calls) && !ReturningJsr(code, i) && code.notes[i].stack != []
    ensures code.instrs[i].op.register < code.nlocals
    ensures forall stack, locals, saved ::
              Described(code, stack, locals, AstoreOut(code.notes[i], code.instrs[i].op.register), calls, saved) ==>
              Described(code, stack, locals, code.notes[i + 1], calls, saved)
  {
    CheckedAt(code, calls, i);
    var out := AstoreOut(code.notes[i], code.instrs[i].op.register);
    forall stack, locals, saved | Described(code, stack, locals, out, calls, saved)
      ensures Described(code, stack, locals, code.notes[i + 1], calls, saved)
    {
      FlowKeeps(code, stack, locals, out, calls, saved, i + 1);
      SavedLength(code, stack, locals, out, calls, saved);
      assert calls[..|calls|] == calls && saved[..|saved|] == saved;
    }
  }

  // ----- skipped instructions -----

  /** The copy behind a skipped one stands at the same offset. */
  lemma SkippedOffset(code: Code, s: State, t: State, calls: seq<nat>, saved: seq<seq<Value>>)
    requires code.Valid() && InCode(code, Emit(code, [])) && Match(code, s, t, calls, saved) && FlagOf(code, calls, s.pc).Skip?
    ensures Position(code, calls, s.pc) + 1 <= |Emit(code, [])|
    ensures t.pc == Offset(code, Emit(code, []), Position(code, calls, s.pc) + 1)
  {
    var k := Position(code, calls, s.pc);
    RefAt(code, calls, s.pc);
    OffsetsGrow(code, Emit(code, []), k, k + 1);
  }

  lemma SkippedJsr(m: Semantics, code: Code, s: State, t: State, calls: seq<nat>, saved: seq<seq<Value>>)
    requires Inlinable(code) && InCode(code, Emit(code, [])) && Match(code, s, t, calls, saved)
    requires ReturningJsr(code, s.pc) && FlagOf(code, calls, s.pc).Skip?
    ensures Match(code, Step(m, Original(code), s, Silent), t, calls + [s.pc], saved + [s.locals])
    ensures Position(code, calls + [s.pc], JsrTarget(code, s.pc)) == Position(code, calls, s.pc) + 1
  {
    hide Accepted, Nested, TargetsInRange;
    RefAt(code, calls, s.pc);
    SkippedOffset(code, s, t, calls, saved);
    CallTarget(code, Position(code, calls, s.pc), calls, s.pc);
    CallMatches(m, code, s, t, calls, saved);
    assert t.(pc := t.pc) == t;
  }

  lemma SkippedRet(m: Semantics, code: Code, s: State, t: State, calls: seq<nat>, saved: seq<seq<Value>>)
    requires Inlinable(code) && InCode(code, Emit(code, [])) && Match(code, s, t, calls, saved)
    requires code.instrs[s.pc].op.Ret? && FlagOf(code, calls, s.pc).Skip?
    ensures calls != []
    ensures var j, outer := calls[|calls| - 1], calls[..|calls| - 1];
            && Live(code, outer) && Member(code, j + 1, outer)
            && Match(code, Step(m, Original(code), s, Silent), t, outer, saved[..|outer|])
            && Position(code, outer, j + 1) == Position(code, calls, s.pc) + 1
  {
    hide Accepted, Nested, TargetsInRange;
    SkippedOffset(code, s, t, calls, saved);
    RetIsLast(code, calls, s.pc);
    ReturnMatches(m, code, s, t, calls, saved);
    assert t.(pc := t.pc) == t;
  }

  lemma StepsTo(m: Semantics, code: Code, s: State, calls: seq<nat>, saved: seq<seq<Value>>)
    requires Inlinable(code) && s.Running? && Live(code, calls) && Member(code, s.pc, calls)
    requires Described(code, s.stack, s.locals, code.notes[s.pc], calls, saved)
    ensures ReturningJsr(code, s.pc) ==> Step(m, Original(code), s, Silent).Running? && Step(m, Original(code), s, Silent).pc == JsrTarget(code, s.pc)
    ensures code.instrs[s.pc].op.Ret? ==>
              calls != [] && Step(m, Original(code), s, Silent).Running? && Step(m, Original(code), s, Silent).pc == calls[|calls| - 1] + 1
  {
    OriginalAt(code, s.pc);
    if code.instrs[s.pc].op.Ret? {
      ReturnKeeps(code, s.pc, s.stack, s.locals, calls, saved);
      OriginalAt(code, calls[|calls| - 1]);
    }
    hide Inlinable, Live, Described, Original;
  }

  /** A skipped instruction changes nothing the new code knows of; the new code is already at the next copy. */
  lemma SkipStep(m: Semantics, code: Code, s: State, t: State, calls: seq<nat>, saved: seq<seq<Value>>)
    returns (inner: seq<nat>, kept: seq<seq<Value>>)
    requires Inlinable(code) && InCode(code, Emit(code, [])) && Match(code, s, t, calls, saved) && FlagOf(code, calls, s.pc).Skip?
    ensures Match(code, Step(m, Original(code), s, Silent), t, inner, kept)
    ensures Position(code, inner, Step(m, Original(code), s, Silent).pc) == Position(code, calls, s.pc) + 1
  {
    StepsFrom(m, code, s, t, calls, saved);
    hide *;
    if code.instrs[s.pc].op.Jsr? {
      inner, kept := calls + [s.pc], saved + [s.locals];
      SkippedJsr(m, code, s, t, calls, saved);
    } else if code.instrs[s.pc].op.Ret? {
      SkippedRet(m, code, s, t, calls, saved);
      inner, kept := calls[..|calls| - 1], saved[..|calls| - 1];
    } else {
      inner, kept := calls, saved;
      SkippedAstore(code, s, t, calls, saved);
      AstoreStep(m, Original(code), s);
    }
  }

  /** Where a skipped instruction goes. */
  lemma StepsFrom(m: Semantics, code: Code, s: State, t: State, calls: seq<nat>, saved: seq<seq<Value>>)
    requires Inlinable(code) && InCode(code, Emit(code, [])) && Match(code, s, t, calls, saved) && FlagOf(code, calls, s.pc).Skip?
    ensures s.Running? && s.pc < |code.instrs| && |saved| == |calls| && s.pc in Original(code).at
    ensures Original(code).at[s.pc] == Place(s.pc, code.instrs[s.pc].op, s.pc + 1)
    ensures code.instrs[s.pc].op.Jsr? ==> ReturningJsr(code, s.pc) && Step(m, Original(code), s, Silent).Running?
                                            && Step(m, Original(code), s, Silent).pc == JsrTarget(code, s.pc)
    ensures code.instrs[s.pc].op.Ret? ==>
              calls != [] && Step(m, Original(code), s, Silent).Running? && Step(m, Original(code), s, Silent).pc == calls[|calls| - 1] + 1
    ensures !code.instrs[s.pc].op.Jsr? && !code.instrs[s.pc].op.Ret? ==> code.instrs[s.pc].op.Astore? && StoresReturnAddress(code, s.pc)
  {
    hide Accepted, Nested, TargetsInRange, Encodable;
    StepsTo(m, code, s, calls, saved);
    OriginalAt(code, s.pc);
    hide Step, Original, Live, Emit, Position, Offset;
  }

  lemma SkippedAstore(code: Code, s: State, t: State, calls: seq<nat>, saved: seq<seq<Value>>)
    requires Inlinable(code) && InCode(code, Emit(code, []))
    requires Match(code, s, t, calls, saved) && code.instrs[s.pc].op.Astore? && StoresReturnAddress(code, s.pc)
    ensures s.stack != [] && code.instrs[s.pc].op.register < |s.locals|
    ensures Position(code, calls, s.pc + 1) == Position(code, calls, s.pc) + 1
    ensures var r, last := code.instrs[s.pc].op.register, |s.stack| - 1;
            Match(code, Running(s.pc + 1, s.stack[..last], s.locals[r := s.stack[last]], s.world), t, calls, saved)
  {
    AstoreDescribed(code, s, calls, saved);
    AstoreIsNoCall(code, s.pc);
    NextCopy(code, calls, s.pc);
    SkippedOffset(code, s, t, calls, saved);
    hide Described, Emit, Live, Offset, TargetRef, Inlinable, Position, StoresReturnAddress;
    var last := |s.stack| - 1;
    assert s.stack == s.stack[..last] + [Address(s.stack[last].jsr)];
    ErasedAddress(s.stack[..last], s.stack[last].jsr);
    hide Erased;
  }

  lemma AstoreIsNoCall(code: Code, i: nat)
    requires code.Valid() && i < |code.instrs| && code.instrs[i].op.Astore?
    ensures !ReturningJsr(code, i) && forall calls :: FlagOf(code, calls, i) == if StoresReturnAddress(code, i) then Skip else Flag.Normal
  {
  }

  // ----- whole runs -----

  /** Outside skipped instructions the two machines can do the same and stay in step. */
  lemma InStep(m: Semantics, code: Code, next: map<seq<nat>, nat>, s: State, t: State, calls: seq<nat>, saved: seq<seq<Value>>, l: Label)
    requires Inlinable(code) && Continuations(code, next) && BranchesFit(code, next) && InCode(code, Emit(code, []))
    requires Match(code, s, t, calls, saved) && !FlagOf(code, calls, s.pc).Skip?
    ensures Matched(code, Step(m, Original(code), s, l), Step(m, Rewritten(code, next), t, l))
  {
    var op := code.instrs[s.pc].op;
    if op.Plain? == l.Act? {
      if op.Plain? {
        PlainInStep(m, code, next, s, t, calls, saved, l.event);
      } else if op.Goto? {
        GotoInStep(m, code, next, s, t, calls, saved);
      } else if op.Ret? {
        RetInStep(m, code, next, s, t, calls, saved);
      } else if op.Astore? {
        AstoreInStep(m, code, next, s, t, calls, saved);
      } else if ReturningJsr(code, s.pc) {
        TargetedJsrInStep(m, code, next, s, t, calls, saved);
      } else {
        SimpleJsrInStep(m, code, next, s, t, calls, saved);
      }
    } else {
      AtCopy(code, next, s, t, calls, saved);
      OriginalAt(code, s.pc);
      KindKept(code, next, Position(code, calls, s.pc));
      hide Rewritten, Original, NewPlace, Emit, Inlinable, Continuations, BranchesFit, Match;
      WrongLabel(m, Original(code), s, l);
      WrongLabel(m, Rewritten(code, next), t, l);
      StuckMatches(code);
    }
  }

  lemma KindKept(code: Code, next: map<seq<nat>, nat>, k: nat)
    requires code.Valid() && Encodable(code) && InCode(code, Emit(code, []))
    requires k < |Emit(code, [])| && TargetsFound(code, Emit(code, []), next, k)
    ensures NewPlace(code, Emit(code, []), next, k).op.Plain? <==> code.instrs[Emit(code, [])[k].inumber].op.Plain?
  {
    hide Emit;
  }

  lemma WrongLabel(m: Semantics, p: Program, s: State, l: Label)
    requires s.Running? && s.pc in p.at && p.at[s.pc].op.Plain? != l.Act?
    ensures Step(m, p, s, l) == Stuck
  {
  }

  lemma {:induction false} StuckStays(m: Semantics, p: Program, s: State, labels: seq<Label>)
    requires !s.Running? && labels != []
    ensures Run(m, p, s, labels) == Stuck
    decreases |labels|
  {
    if |labels| > 1 {
      StuckStays(m, p, Stuck, labels[1..]);
    }
  }

  lemma RunStep(m: Semantics, p: Program, s: State, l: Label, labels: seq<Label>)
    ensures Run(m, p, s, [l] + labels) == Run(m, p, Step(m, p, s, l), labels)
    ensures Events([l] + labels) == (if l.Act? then [l.event] else []) + Events(labels)
  {
    assert ([l] + labels)[1..] == labels;
  }

  /** Every run of the original is a run of the new code with the same events. */
  lemma {:induction false} Forward(m: Semantics, code: Code, next: map<seq<nat>, nat>, s: State, t: State, calls: seq<nat>, saved: seq<seq<Value>>, labels: seq<Label>)
    returns (others: seq<Label>)
    requires Inlinable(code) && Continuations(code, next) && BranchesFit(code, next) && InCode(code, Emit(code, []))
    requires Match(code, s, t, calls, saved) && !Run(m, Original(code), s, labels).Stuck?
    ensures Events(others) == Events(labels)
    ensures Matched(code, Run(m, Original(code), s, labels), Run(m, Rewritten(code, next), t, others))
    decreases |labels|
  {
    others := [];
    if labels != [] {
      var l, rest, p, q := labels[0], labels[1..], Original(code), Rewritten(code, next);
      assert labels == [l] + rest;
      OriginalAt(code, s.pc);
      RunStep(m, p, s, l, rest);
      var s' := Step(m, p, s, l);
      if FlagOf(code, calls, s.pc).Skip? {
        var inner, kept := SkipStep(m, code, s, t, calls, saved);
        hide *;
        MatchRuns(code, s, t, calls, saved);
        if l.Act? {
          SkipIsSilent(m, code, calls, s, l);
          StuckRuns(m, p, rest);
        }
        others := Forward(m, code, next, s', t, inner, kept, rest);
      } else {
        InStep(m, code, next, s, t, calls, saved, l);
        var t' := Step(m, q, t, l);
        if s'.Running? {
          var inner, kept :| Match(code, s', t', inner, kept);
          hide *;
          others := Forward(m, code, next, s', t', inner, kept, rest);
        } else if rest != [] {
          StuckStays(m, p, s', rest);
        }
        RunStep(m, q, t, l, others);
        others := [l] + others;
      }
    }
  }

  lemma SkipIsSilent(m: Semantics, code: Code, calls: seq<nat>, s: State, l: Label)
    requires code.Valid() && s.Running? && s.pc < |code.instrs| && FlagOf(code, calls, s.pc).Skip? && l.Act?
    ensures Step(m, Original(code), s, l) == Stuck
  {
    OriginalAt(code, s.pc);
  }

  lemma StuckRuns(m: Semantics, p: Program, labels: seq<Label>)
    ensures Run(m, p, Stuck, labels) == Stuck
  {
    if labels != [] {
      StuckStays(m, p, Stuck, labels);
    }
  }

  /** Every run of the new code is a run of the original with the same events. */
  lemma {:induction false} Backward(m: Semantics, code: Code, next: map<seq<nat>, nat>, s: State, t: State, calls: seq<nat>, saved: seq<seq<Value>>, others: seq<Label>)
    returns (labels: seq<Label>)
    requires Inlinable(code) && Continuations(code, next) && BranchesFit(code, next) && InCode(code, Emit(code, []))
    requires Match(code, s, t, calls, saved) && !Run(m, Rewritten(code, next), t, others).Stuck?
    ensures Events(others) == Events(labels)
    ensures Matched(code, Run(m, Original(code), s, labels), Run(m, Rewritten(code, next), t, others))
    decreases |others|, |Emit(code, [])| - Position(code, calls, s.pc)
  {
    labels := [];
    if others != [] {
      var p, q := Original(code), Rewritten(code, next);
      if FlagOf(code, calls, s.pc).Skip? {
        var inner, kept := SkipStep(m, code, s, t, calls, saved);
        var s' := Step(m, p, s, Silent);
        assert Position(code, inner, s'.pc) < |Emit(code, [])|;
        hide *;
        labels := Backward(m, code, next, s', t, inner, kept, others);
        RunStep(m, p, s, Silent, labels);
        labels := [Silent] + labels;
      } else {
        var l, rest := others[0], others[1..];
        assert others == [l] + rest;
        RunStep(m, q, t, l, rest);
        InStep(m, code, next, s, t, calls, saved, l);
        var s', t' := Step(m, p, s, l), Step(m, q, t, l);
        if s'.Running? {
          var inner, kept :| Match(code, s', t', inner, kept);
          hide *;
          labels := Backward(m, code, next, s', t', inner, kept, rest);
        } else if rest != [] {
          StuckStays(m, q, t', rest);
        }
        RunStep(m, p, s, l, labels);
        labels := [l] + labels;
      }
    }
  }

  /**
   Inlining preserves behaviour: from the same arguments the original and the rewritten
   method have the same sequences of events, and matching runs end in matching states (the
   same result or exception when the method is left).  That the verifier accepts the method
   is not enough: see InnerReturnIsLost for a call that is not nested, and LastRangeIsLost
   for a range that ends with the code.
   */
  lemma InliningPreservesBehaviour(m: Semantics, code: Code, next: map<seq<nat>, nat>, behind: int,
                                   arguments: seq<Value>, world: int, labels: seq<Label>)
    requires Accepted(code) && Encodable(code) && TargetsInRange(code) && EndsKnown(code, behind)
    requires CallsNested(code) && FallsNested(code) && BranchesNested(code) && RetsInnermost(code) && AddressesOnlyStored(code)
    requires Continuations(code, next) && BranchesFit(code, next) && Found(code, next)
    requires |arguments| == code.nlocals && AllData(arguments)
    ensures var start := Running(0, [], arguments, world);
            var p, q := Original(code), MadeReading(code, next, behind);
            && (!Run(m, p, start, labels).Stuck? ==>
                  exists others :: Events(others) == Events(labels) && Matched(code, Run(m, p, start, labels), Run(m, q, start, others)))
            && (!Run(m, q, start, labels).Stuck? ==>
                  exists others :: Events(others) == Events(labels) && Matched(code, Run(m, p, start, others), Run(m, q, start, labels)))
  {
    var start := Running(0, [], arguments, world);
    StartMatches(code, arguments, world);
    MadeRight(code, next, behind);
    RewrittenIs(code, next);
    hide *;
    if !Run(m, Original(code), start, labels).Stuck? {
      var others := Forward(m, code, next, start, start, [], [], labels);
    }
    if !Run(m, Rewritten(code, next), start, labels).Stuck? {
      var others := Backward(m, code, next, start, start, [], [], labels);
    }
  }

  lemma RewrittenIs(code: Code, next: map<seq<nat>, nat>)
    requires Inlinable(code) && Continuations(code, next) && Found(code, next)
    ensures Rewritten(code, next) == NewProgram(code, next) && InCode(code, Emit(code, []))
  {
    hide Emit, Inlinable, Continuations;
  }

  lemma StartMatches(code: Code, arguments: seq<Value>, world: int)
    requires Inlinable(code) && InCode(code, Emit(code, [])) && |arguments| == code.nlocals && AllData(arguments)
    ensures var start := Running(0, [], arguments, world); Match(code, start, start, [], [])
  {
    CheckedAt(code, [], 0);
    RefAt(code, [], 0);
    assert Position(code, [], 0) == 0;
  }
}
