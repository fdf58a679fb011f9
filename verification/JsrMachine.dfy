/**
 A machine for code with subroutines.  What ordinary instructions compute is a parameter;
 control flow, the operand stack, the registers and return addresses are modelled.
 */
module JsrMachine {

  /** The operand-stack and register values; references are numbers as well. */
  datatype Value = Data(word: int) | Address(jsr: nat)

  datatype Op =
    /** Pops and reads words, pushes and writes words, then takes one of its successors; none means the method returns. */
    | Plain(pops: nat, pushes: nat, loads: seq<nat>, stores: seq<nat>, falls: bool, targets: seq<nat>)
    | Goto(target: nat)
    | Jsr(target: nat)
    | Ret(register: nat)
    | Astore(register: nat)

  /** What stands at a program counter: `body` names the bytes other than branch targets. */
  datatype Place = Place(body: nat, op: Op, next: nat)

  /** An exception table entry; the range excludes its end. */
  datatype Frame = Frame(start: nat, end: nat, handler: nat, catchType: nat)

  datatype Program = Program(at: map<nat, Place>, table: seq<Frame>)

  /** One execution of an ordinary instruction. */
  datatype Event =
    | Normal(world: int, pushed: seq<int>, written: seq<int>, choice: nat)
    | Throws(world: int, exception: int)

  datatype Semantics = Semantics(allowed: (nat, int, seq<int>, seq<int>, Event) -> bool, caught: (nat, int, int) -> bool)

  datatype Label = Silent | Act(event: Event)

  datatype State =
    | Running(pc: nat, stack: seq<Value>, locals: seq<Value>, world: int)
    | Halted(result: seq<int>, world: int)
    | Thrown(exception: int, world: int)
    | Stuck

  predicate AllData(vs: seq<Value>) {
    forall i | 0 <= i < |vs| :: vs[i].Data?
  }

  function Words(vs: seq<Value>): seq<int>
    requires AllData(vs)
  {
    seq(|vs|, i requires 0 <= i < |vs| => vs[i].word)
  }

  function Datas(ws: seq<int>): (vs: seq<Value>)
    ensures AllData(vs) && |vs| == |ws|
  {
    seq(|ws|, i requires 0 <= i < |ws| => Data(ws[i]))
  }

  predicate Readable(locals: seq<Value>, registers: seq<nat>) {
    forall i | 0 <= i < |registers| :: registers[i] < |locals| && locals[registers[i]].Data?
  }

  function Read(locals: seq<Value>, registers: seq<nat>): seq<int>
    requires Readable(locals, registers)
  {
    seq(|registers|, i requires 0 <= i < |registers| => locals[registers[i]].word)
  }

  predicate Writable(locals: seq<Value>, registers: seq<nat>) {
    forall i | 0 <= i < |registers| :: registers[i] < |locals|
  }

  function Write(locals: seq<Value>, registers: seq<nat>, words: seq<int>): (r: seq<Value>)
    requires Writable(locals, registers) && |words| == |registers|
    ensures |r| == |locals|
    decreases |registers|
  {
    if registers == [] then locals
    else Write(locals[registers[0] := Data(words[0])], registers[1..], words[1..])
  }

  predicate Covers(f: Frame, pc: nat) {
    f.start <= pc < f.end
  }

  /** The handler of the first entry that covers pc and catches the exception; -1 for none. */
  function Handler(m: Semantics, table: seq<Frame>, pc: nat, world: int, x: int): int {
    if table == [] then -1
    else if Covers(table[0], pc) && m.caught(table[0].catchType, world, x) then table[0].handler
    else Handler(m, table[1..], pc, world, x)
  }

  function Successors(place: Place): seq<nat>
    requires place.op.Plain?
  {
    (if place.op.falls then [place.next] else []) + place.op.targets
  }

  function PlainStep(m: Semantics, p: Program, s: State, place: Place, e: Event): State
    requires s.Running? && place.op.Plain?
  {
    var op := place.op;
    if |s.stack| < op.pops || !Readable(s.locals, op.loads) || !Writable(s.locals, op.stores) then Stuck
    else
      var rest, top := s.stack[..|s.stack| - op.pops], s.stack[|s.stack| - op.pops..];
      if !AllData(top) || !m.allowed(place.body, s.world, Words(top), Read(s.locals, op.loads), e) then Stuck
      else Outcome(m, p, s, place, e, rest, Words(top))
  }

  /** What comes of an event the instruction allows: the operands `popped` are gone from the stack `rest`. */
  function Outcome(m: Semantics, p: Program, s: State, place: Place, e: Event, rest: seq<Value>, popped: seq<int>): State
    requires s.Running? && place.op.Plain? && Writable(s.locals, place.op.stores)
  {
    match e
    case Throws(world, x) =>
      var h := Handler(m, p.table, s.pc, world, x);
      if h < 0 then Thrown(x, world) else Running(h, [Data(x)], s.locals, world)
    case Normal(world, pushed, written, choice) =>
      if |pushed| != place.op.pushes || |written| != |place.op.stores| then Stuck
      else if Successors(place) == [] then Halted(popped, world)
      else if choice >= |Successors(place)| then Stuck
      else Running(Successors(place)[choice], rest + Datas(pushed), Write(s.locals, place.op.stores, written), world)
  }

  /** One step; instructions other than ordinary ones are silent. */
  function Step(m: Semantics, p: Program, s: State, l: Label): State {
    if !s.Running? || s.pc !in p.at then Stuck
    else
      var place := p.at[s.pc];
      if place.op.Plain? then if l.Act? then PlainStep(m, p, s, place, l.event) else Stuck
      else if !l.Silent? then Stuck
      else match place.op
        case Goto(target) => s.(pc := target)
        case Jsr(target) => s.(pc := target, stack := s.stack + [Address(s.pc)])
        case Ret(r) =>
          if r < |s.locals| && s.locals[r].Address? && s.locals[r].jsr in p.at then s.(pc := p.at[s.locals[r].jsr].next)
          else Stuck
        case Astore(r) =>
          if |s.stack| > 0 && r < |s.locals| then
            s.(pc := place.next, stack := s.stack[..|s.stack| - 1], locals := s.locals[r := s.stack[|s.stack| - 1]])
          else Stuck
        case Plain(_, _, _, _, _, _) => Stuck
  }

  /** A run along given labels; it is Stuck as soon as a step is not possible. */
  function Run(m: Semantics, p: Program, s: State, labels: seq<Label>): State
    decreases |labels|
  {
    if labels == [] then s else Run(m, p, Step(m, p, s, labels[0]), labels[1..])
  }

  /** What can be observed of a run. */
  function Events(labels: seq<Label>): seq<Event> {
    if labels == [] then []
    else (if labels[0].Act? then [labels[0].event] else []) + Events(labels[1..])
  }
}
