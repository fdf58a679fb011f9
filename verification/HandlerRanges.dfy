/** How fixupExceptionHandlers finds the instructions of a range, which it is given in bytes. */
module HandlerRanges {
  import opened JsrMachine
  import opened Inliner
  import opened InlinedCode
  import opened InlinedHandlers
  import opened Decoding

  /** code_data[pc]; it has an element for every byte of the code, and none behind them. */
  datatype Lookup = Number(n: nat) | NoInstruction | OutOfBounds

  function CodeDataAt(data: map<nat, nat>, codeLength: nat, pc: nat): Lookup {
    if pc >= codeLength then OutOfBounds else if pc in data then Number(data[pc]) else NoInstruction
  }

  /** Numbers of the table entry, looked up as the program does; None for an access behind code_data. */
  method LookUpFrame(data: map<nat, nat>, codeLength: nat, f: Frame, ghost pcs: seq<nat>) returns (found: bool, numbered: Frame)
    requires pcs != [] && Increasing(pcs) && CodeData(pcs, |pcs| - 1, data) && pcs[|pcs| - 1] == codeLength && FrameStarts(pcs, f)
    ensures found <==> f.end < codeLength
    ensures found ==> SameFrame(pcs, f, numbered)
  {
    numbered := f;
    CodeDataStarts(pcs, data, f.start);
    CodeDataStarts(pcs, data, f.end);
    CodeDataStarts(pcs, data, f.handler);
    hide Starts, CodeData;
    InsideCode(pcs, data, f);
    var start, end, handler := CodeDataAt(data, codeLength, f.start), CodeDataAt(data, codeLength, f.end), CodeDataAt(data, codeLength, f.handler);
    if end.OutOfBounds? {
      return false, f;
    }
    found, numbered := true, Frame(start.n, end.n, handler.n, f.catchType);
    if end.n < start.n {
      IncreasingAll(pcs, end.n, start.n);
    }
  }

  lemma InsideCode(pcs: seq<nat>, data: map<nat, nat>, f: Frame)
    requires pcs != [] && Increasing(pcs) && CodeData(pcs, |pcs| - 1, data) && FrameStarts(pcs, f)
    ensures f.start in data && f.start < pcs[|pcs| - 1] && f.handler in data && f.handler < pcs[|pcs| - 1]
    ensures f.end in data || f.end == pcs[|pcs| - 1]
    ensures f.end in data ==> f.end < pcs[|pcs| - 1]
  {
    CodeDataStarts(pcs, data, f.start);
    CodeDataStarts(pcs, data, f.end);
    CodeDataStarts(pcs, data, f.handler);
    IncreasingAll(pcs, data[f.start], |pcs| - 1);
    IncreasingAll(pcs, data[f.handler], |pcs| - 1);
    if f.end in data {
      IncreasingAll(pcs, data[f.end], |pcs| - 1);
    }
  }

  lemma SameFrameIsUnique(pcs: seq<nat>, f: Frame, a: Frame, b: Frame)
    requires Increasing(pcs) && SameFrame(pcs, f, a) && SameFrame(pcs, f, b)
    ensures a == b
  {
    SamePlace(pcs, a.start, b.start);
    SamePlace(pcs, a.end, b.end);
    SamePlace(pcs, a.handler, b.handler);
  }

  lemma SamePlace(pcs: seq<nat>, i: nat, j: nat)
    requires Increasing(pcs) && i < |pcs| && j < |pcs| && pcs[i] == pcs[j]
    ensures i == j
  {
    if i < j {
      IncreasingAll(pcs, i, j);
    } else if j < i {
      IncreasingAll(pcs, j, i);
    }
  }

  // ----- what the verifier has at hand: instruction_data, code_data and the table in bytes -----

  /** Where the instructions start, and behind them the length of the code. */
  function StartsOf(instrs: seq<Instr>): (pcs: seq<nat>)
    requires forall i | 0 <= i < |instrs| :: instrs[i].length > 0
    ensures |pcs| == |instrs| + 1 && Increasing(pcs)
  {
    if instrs == [] then [0]
    else
      var before := StartsOf(instrs[..|instrs| - 1]);
      before + [before[|instrs| - 1] + instrs[|instrs| - 1].length]
  }

  /** code_data of the first n instructions. */
  function NumbersAt(pcs: seq<nat>, n: nat): (data: map<nat, nat>)
    requires n <= |pcs| && Increasing(pcs)
    ensures CodeData(pcs, n, data)
  {
    if n == 0 then map[]
    else
      var before := NumbersAt(pcs, n - 1);
      assert forall k | 0 <= k < n - 1 :: pcs[k] != pcs[n - 1] by {
        forall k | 0 <= k < n - 1 ensures pcs[k] != pcs[n - 1] {
          IncreasingAll(pcs, k, n - 1);
        }
      }
      before[pcs[n - 1] := n - 1]
  }

  predicate FramesLegal(code: Code) {
    forall i | 0 <= i < |code.table| :: code.table[i].start < code.table[i].end <= |code.instrs| && code.table[i].handler < |code.instrs|
  }

  /** The exception table of the method. */
  function TableInBytes(table: seq<Frame>, pcs: seq<nat>): (r: seq<Frame>)
    requires forall i | 0 <= i < |table| :: table[i].start < |pcs| && table[i].end < |pcs| && table[i].handler < |pcs|
    ensures |r| == |table|
  {
    seq(|table|, i requires 0 <= i < |table| =>
      Frame(pcs[table[i].start], pcs[table[i].end], pcs[table[i].handler], table[i].catchType))
  }

  lemma BytesOfFrame(code: Code, pcs: seq<nat>, i: nat)
    requires |pcs| == |code.instrs| + 1 && Increasing(pcs) && FramesLegal(code) && i < |code.table|
    ensures var f := TableInBytes(code.table, pcs)[i];
            && FrameStarts(pcs, f) && SameFrame(pcs, f, code.table[i])
            && (f.end < pcs[|pcs| - 1] <==> code.table[i].end < |code.instrs|)
  {
    var f := code.table[i];
    IncreasingAll(pcs, f.start, f.end);
    if f.end < |pcs| - 1 {
      IncreasingAll(pcs, f.end, |pcs| - 1);
    }
  }

  /**
   fixupExceptionHandlers: it stays within code_data exactly when no range ends with the
   code, and then makes the new table.
   */
  method FixupExceptionHandlers(code: Code, refs: seq<CodeRef>, mapping: seq<seq<nat>>, offsets: seq<nat>) returns (inBounds: bool, table: seq<Frame>)
    requires code.Valid() && InCode(code, refs) && Maps(code, refs, mapping) && Offsets(code, refs, offsets) && FramesLegal(code)
    ensures inBounds <==> RangesEndInside(code)
    ensures inBounds ==> table == NewTable(code, refs, code.table)
  {
    hide NewTable, Maps, Offset, FrameStarts, SameFrame, StartsOf, NumbersAt, CodeData, Increasing;
    var pcs := StartsOf(code.instrs);
    var n := |code.instrs|;
    var frames := TableInBytes(code.table, pcs);
    forall i | 0 <= i < |frames|
      ensures FrameStarts(pcs, frames[i]) && SameFrame(pcs, frames[i], code.table[i]) && (frames[i].end < pcs[n] <==> code.table[i].end < n)
    {
      BytesOfFrame(code, pcs, i);
    }
    inBounds, table := FixupByteHandlers(code, refs, mapping, offsets, NumbersAt(pcs, n), pcs[n], frames, pcs);
  }

  /** The loop over a table in bytes. */
  method FixupByteHandlers(code: Code, refs: seq<CodeRef>, mapping: seq<seq<nat>>, offsets: seq<nat>, data: map<nat, nat>, codeLength: nat,
                           frames: seq<Frame>, ghost pcs: seq<nat>) returns (inBounds: bool, table: seq<Frame>)
    requires code.Valid() && InCode(code, refs) && Maps(code, refs, mapping) && Offsets(code, refs, offsets)
    requires |pcs| == |code.instrs| + 1 && Increasing(pcs) && CodeData(pcs, |pcs| - 1, data) && pcs[|pcs| - 1] == codeLength
    requires |frames| == |code.table| && forall i | 0 <= i < |frames| :: FrameStarts(pcs, frames[i]) && SameFrame(pcs, frames[i], code.table[i])
    ensures inBounds <==> forall i | 0 <= i < |frames| :: frames[i].end < codeLength
    ensures inBounds ==> table == NewTable(code, refs, code.table)
  {
    hide Offset, FramesFrom, Starts, CodeData, NewTable, Maps, FramesOfCopies;
    inBounds, table := true, [];
    var i := 0;
    while i < |frames|
      invariant 0 <= i <= |frames| && inBounds && forall k | 0 <= k < i :: frames[k].end < codeLength
      invariant table + NewTable(code, refs, code.table[i..]) == NewTable(code, refs, code.table)
    {
      var found, f := LookUpFrame(data, codeLength, frames[i], pcs);
      if !found {
        return false, [];
      }
      SameFrameIsUnique(pcs, frames[i], f, code.table[i]);
      CopiesAt(code, refs, mapping, f.handler);
      var some := BuildFramesOfCopies(code, refs, offsets, f, mapping[f.handler]);
      TableStep(code, refs, i);
      table := table + some;
      i := i + 1;
    }
    TableEnds(code, refs);
  }

  lemma CopiesAt(code: Code, refs: seq<CodeRef>, mapping: seq<seq<nat>>, i: nat)
    requires code.Valid() && InCode(code, refs) && Maps(code, refs, mapping) && i < |code.instrs|
    ensures i < |mapping| && mapping[i] == CopiesIn(refs, i)
  {
  }

  lemma TableStep(code: Code, refs: seq<CodeRef>, i: nat)
    requires code.Valid() && InCode(code, refs) && i < |code.table|
    ensures NewTable(code, refs, code.table[i..]) ==
            FramesOfCopies(code, refs, code.table[i], CopiesIn(refs, code.table[i].handler)) + NewTable(code, refs, code.table[i + 1..])
  {
    assert code.table[i..][0] == code.table[i] && code.table[i..][1..] == code.table[i + 1..];
  }

  lemma TableEnds(code: Code, refs: seq<CodeRef>)
    requires code.Valid() && InCode(code, refs)
    ensures NewTable(code, refs, code.table[|code.table|..]) == []
  {
  }
}
