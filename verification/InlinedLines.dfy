/** The line numbers of the rewritten code (fixupLineNumberTable). */
module InlinedLines {
  import opened JsrMachine
  import opened Inliner
  import opened InlinedCode

  datatype Line = Line(pc: nat, number: nat)

  /** The place of an instruction in the old code. */
  function OldOffset(code: Code, i: nat): nat
    requires code.Valid() && i <= |code.instrs|
  {
    if i == 0 then 0 else OldOffset(code, i - 1) + code.instrs[i - 1].length
  }

  /** The number of the last entry that is not behind pc. */
  function LineAt(lines: seq<Line>, default: int, pc: nat): int {
    if lines == [] then default
    else LineAt(lines[1..], if lines[0].pc <= pc then lines[0].number else default, pc)
  }

  lemma {:induction false} LineAtEnd(lines: seq<Line>, last: Line, default: int, pc: nat)
    ensures LineAt(lines + [last], default, pc) == if last.pc <= pc then last.number else LineAt(lines, default, pc)
  {
    if lines == [] {
      assert lines + [last] == [last] && [last][1..] == [];
    } else {
      assert (lines + [last])[1..] == lines[1..] + [last];
      LineAtEnd(lines[1..], last, if lines[0].pc <= pc then lines[0].number else default, pc);
    }
  }

  predicate Sorted(lines: seq<Line>) {
    forall i, j | 0 <= i < j < |lines| :: lines[i].pc <= lines[j].pc
  }

  // ----- the old lines -----

  function RangeEnd(lines: seq<Line>, codeLength: nat, i: nat): nat
    requires i < |lines|
  {
    if i + 1 < |lines| then lines[i + 1].pc else codeLength
  }

  /** What mapTable holds once the first n ranges have been entered. */
  function Mapped(lines: seq<Line>, codeLength: nat, n: nat, pc: nat): nat
    requires n <= |lines|
  {
    if n == 0 then 0
    else if lines[n - 1].pc <= pc < RangeEnd(lines, codeLength, n - 1) then lines[n - 1].number
    else Mapped(lines, codeLength, n - 1, pc)
  }

  method FillRange(mapTable: array<nat>, start: nat, end: nat, number: nat)
    requires end <= mapTable.Length
    modifies mapTable
    ensures forall pc | 0 <= pc < mapTable.Length :: mapTable[pc] == if start <= pc < end then number else old(mapTable[pc])
  {
    var pc := start;
    while pc < end
      invariant start <= pc
      invariant forall q | 0 <= q < mapTable.Length :: mapTable[q] == if start <= q < pc && q < end then number else old(mapTable[q])
    {
      mapTable[pc] := number;
      pc := pc + 1;
    }
  }

  /** The first loops of fixupLineNumberTable. */
  method FillMapTable(lines: seq<Line>, mapTable: array<nat>)
    requires lines != [] && forall i | 0 <= i < |lines| :: lines[i].pc <= mapTable.Length
    requires forall pc | 0 <= pc < mapTable.Length :: mapTable[pc] == 0
    modifies mapTable
    ensures forall pc | 0 <= pc < mapTable.Length :: mapTable[pc] == Mapped(lines, mapTable.Length, |lines|, pc)
  {
    var i := 0;
    while i < |lines| - 1
      invariant 0 <= i <= |lines| - 1
      invariant forall pc | 0 <= pc < mapTable.Length :: mapTable[pc] == Mapped(lines, mapTable.Length, i, pc)
    {
      FillRange(mapTable, lines[i].pc, lines[i + 1].pc, lines[i].number);
      i := i + 1;
    }
    FillRange(mapTable, lines[i].pc, mapTable.Length, lines[i].number);
  }

  /** For a table in the order of the code mapTable has the line of every place. */
  lemma {:induction false} MappedIsLine(lines: seq<Line>, codeLength: nat, n: nat, pc: nat)
    requires Sorted(lines) && n <= |lines| && pc < codeLength && (n < |lines| ==> pc < lines[n].pc)
    ensures Mapped(lines, codeLength, n, pc) == LineAt(lines[..n], 0, pc)
  {
    if n > 0 {
      assert lines[..n] == lines[..n - 1] + [lines[n - 1]];
      LineAtEnd(lines[..n - 1], lines[n - 1], 0, pc);
      if pc < lines[n - 1].pc {
        MappedIsLine(lines, codeLength, n - 1, pc);
      }
    }
  }

  // ----- the new lines -----

  function LineOf(code: Code, refs: seq<CodeRef>, lines: seq<Line>, k: nat): nat
    requires code.Valid() && InCode(code, refs) && k < |refs|
  {
    Mapped(lines, OldOffset(code, |code.instrs|), |lines|, OldOffset(code, refs[k].inumber))
  }

  /** The entries made from copy k on, when the line before it is `current`. */
  function NewLines(code: Code, refs: seq<CodeRef>, lines: seq<Line>, k: nat, current: int): seq<Line>
    requires code.Valid() && InCode(code, refs) && k <= |refs|
    decreases |refs| - k
  {
    if k == |refs| then []
    else if refs[k].flag.Skip? || LineOf(code, refs, lines, k) == current then NewLines(code, refs, lines, k + 1, current)
    else [Line(Offset(code, refs, k), LineOf(code, refs, lines, k))] + NewLines(code, refs, lines, k + 1, LineOf(code, refs, lines, k))
  }

  lemma {:induction false} OldOffsetFits(code: Code, i: nat)
    requires code.Valid() && i < |code.instrs|
    ensures OldOffset(code, i) < OldOffset(code, |code.instrs|)
    decreases |code.instrs| - i
  {
    if i + 1 < |code.instrs| {
      OldOffsetFits(code, i + 1);
    }
  }

  method FixupLineNumberTable(code: Code, refs: seq<CodeRef>, oldOffsets: seq<nat>, offsets: seq<nat>, lines: seq<Line>) returns (table: seq<Line>)
    requires code.Valid() && InCode(code, refs) && Offsets(code, refs, offsets)
    requires |oldOffsets| == |code.instrs| && forall i | 0 <= i < |oldOffsets| :: oldOffsets[i] == OldOffset(code, i)
    requires lines != [] && forall i | 0 <= i < |lines| :: lines[i].pc <= OldOffset(code, |code.instrs|)
    ensures table == NewLines(code, refs, lines, 0, -1)
  {
    hide Mapped, OldOffset, Offset;
    var last := |code.instrs| - 1;
    LastOffset(code);
    var oldCodeLength := oldOffsets[last] + code.instrs[last].length;
    var mapTable := new nat[oldCodeLength](_ => 0);
    FillMapTable(lines, mapTable);
    table := [];
    var current: int := -1;
    var k := 0;
    while k < |refs|
      invariant 0 <= k <= |refs|
      invariant forall pc | 0 <= pc < mapTable.Length :: mapTable[pc] == Mapped(lines, mapTable.Length, |lines|, pc)
      invariant table + NewLines(code, refs, lines, k, current) == NewLines(code, refs, lines, 0, -1)
    {
      if !refs[k].flag.Skip? {
        OldOffsetFits(code, refs[k].inumber);
        var line := mapTable[oldOffsets[refs[k].inumber]];
        if line != current {
          ghost var one, rest := [Line(offsets[k], line)], NewLines(code, refs, lines, k + 1, line);
          assert table + (one + rest) == table + one + rest;
          table := table + [Line(offsets[k], line)];
          current := line;
        }
      }
      k := k + 1;
    }
  }

  lemma LastOffset(code: Code)
    requires code.Valid()
    ensures OldOffset(code, |code.instrs|) == OldOffset(code, |code.instrs| - 1) + code.instrs[|code.instrs| - 1].length
  {
  }

  // ----- every copy keeps its line -----

  lemma {:induction false} NewLinesBehind(code: Code, refs: seq<CodeRef>, lines: seq<Line>, k: nat, current: int, pc: nat)
    requires code.Valid() && InCode(code, refs) && k <= |refs| && pc < Offset(code, refs, k)
    ensures LineAt(NewLines(code, refs, lines, k, current), current, pc) == current
    decreases |refs| - k
  {
    hide LineOf;
    if k < |refs| {
      OffsetsGrow(code, refs, k, k + 1);
      hide Offset;
      NewLinesBehind(code, refs, lines, k + 1, current, pc);
      NoneBefore(code, refs, lines, k + 1, LineOf(code, refs, lines, k), pc, current);
    }
  }

  lemma {:induction false} NoneBefore(code: Code, refs: seq<CodeRef>, lines: seq<Line>, k: nat, current: int, pc: nat, default: int)
    requires code.Valid() && InCode(code, refs) && k <= |refs| && pc < Offset(code, refs, k)
    ensures LineAt(NewLines(code, refs, lines, k, current), default, pc) == default
    decreases |refs| - k
  {
    hide LineOf;
    if k < |refs| {
      OffsetsGrow(code, refs, k, k + 1);
      hide Offset;
      NoneBefore(code, refs, lines, k + 1, current, pc, default);
      NoneBefore(code, refs, lines, k + 1, LineOf(code, refs, lines, k), pc, default);
    }
  }

  lemma {:induction false} CopyHasLine(code: Code, refs: seq<CodeRef>, lines: seq<Line>, k: nat, current: int, m: nat)
    requires code.Valid() && InCode(code, refs) && k <= m < |refs| && !refs[m].flag.Skip?
    ensures LineAt(NewLines(code, refs, lines, k, current), current, Offset(code, refs, m)) == LineOf(code, refs, lines, m)
    decreases m - k
  {
    hide LineOf;
    var line := LineOf(code, refs, lines, k);
    OffsetsGrow(code, refs, k, k + 1);
    if k < m {
      OffsetsGrow(code, refs, k, m);
      CopyHasLine(code, refs, lines, k + 1, current, m);
      CopyHasLine(code, refs, lines, k + 1, line, m);
    } else {
      NewLinesBehind(code, refs, lines, k + 1, current, Offset(code, refs, m));
      NewLinesBehind(code, refs, lines, k + 1, line, Offset(code, refs, m));
    }
    hide Offset;
  }

  /** Range i of the old table contains the place. */
  predicate InRange(lines: seq<Line>, codeLength: nat, i: nat, pc: nat)
    requires i < |lines|
  {
    lines[i].pc <= pc < RangeEnd(lines, codeLength, i)
  }

  /** A place has the line of the last range that contains it, and line 0 if none does. */
  lemma {:induction false} MappedExactly(lines: seq<Line>, codeLength: nat, n: nat, pc: nat)
    requires n <= |lines|
    ensures (forall i | 0 <= i < n :: !InRange(lines, codeLength, i, pc)) ==> Mapped(lines, codeLength, n, pc) == 0
    ensures forall i | 0 <= i < n && InRange(lines, codeLength, i, pc) && (forall j | i < j < n :: !InRange(lines, codeLength, j, pc)) ::
              Mapped(lines, codeLength, n, pc) == lines[i].number
  {
    if n > 0 && !InRange(lines, codeLength, n - 1, pc) {
      MappedExactly(lines, codeLength, n - 1, pc);
      forall i | 0 <= i < n && InRange(lines, codeLength, i, pc) && (forall j | i < j < n :: !InRange(lines, codeLength, j, pc))
        ensures Mapped(lines, codeLength, n, pc) == lines[i].number
      {
        assert forall j | i < j < n - 1 :: !InRange(lines, codeLength, j, pc);
      }
    }
  }

  /** The line of a place, for tables in any order. */
  predicate HasLine(lines: seq<Line>, codeLength: nat, pc: nat, line: int) {
    if exists i :: 0 <= i < |lines| && InRange(lines, codeLength, i, pc) then
      exists i :: 0 <= i < |lines| && InRange(lines, codeLength, i, pc) && line == lines[i].number
                  && forall j | i < j < |lines| :: !InRange(lines, codeLength, j, pc)
    else line == 0
  }

  lemma {:induction false} LastRange(lines: seq<Line>, codeLength: nat, n: nat, pc: nat) returns (i: nat)
    requires n <= |lines| && exists k :: 0 <= k < n && InRange(lines, codeLength, k, pc)
    ensures i < n && InRange(lines, codeLength, i, pc) && forall j | i < j < n :: !InRange(lines, codeLength, j, pc)
  {
    hide InRange;
    if InRange(lines, codeLength, n - 1, pc) {
      i := n - 1;
    } else {
      i := LastRange(lines, codeLength, n - 1, pc);
    }
  }

  /** Whatever the order of the table: every generated instruction has the line of the last range that contains its original. */
  lemma LinesAreMapped(code: Code, refs: seq<CodeRef>, lines: seq<Line>, k: nat)
    requires code.Valid() && InCode(code, refs) && k < |refs| && !refs[k].flag.Skip?
    ensures HasLine(lines, OldOffset(code, |code.instrs|), OldOffset(code, refs[k].inumber),
                    LineAt(NewLines(code, refs, lines, 0, -1), -1, Offset(code, refs, k)))
  {
    CopyHasLine(code, refs, lines, 0, -1, k);
    var end, pc := OldOffset(code, |code.instrs|), OldOffset(code, refs[k].inumber);
    MappedExactly(lines, end, |lines|, pc);
    hide InRange, Mapped, Offset, OldOffset, NewLines;
    if exists i :: 0 <= i < |lines| && InRange(lines, end, i, pc) {
      var i := LastRange(lines, end, |lines|, pc);
    }
  }

  /**
   In the new table every generated instruction has the line that its original has in the
   old table.
   */
  lemma LinesAreKept(code: Code, refs: seq<CodeRef>, lines: seq<Line>, k: nat)
    requires code.Valid() && InCode(code, refs) && k < |refs| && !refs[k].flag.Skip? && Sorted(lines)
    ensures LineAt(NewLines(code, refs, lines, 0, -1), -1, Offset(code, refs, k)) == LineAt(lines, 0, OldOffset(code, refs[k].inumber))
  {
    CopyHasLine(code, refs, lines, 0, -1, k);
    OldOffsetFits(code, refs[k].inumber);
    MappedIsLine(lines, OldOffset(code, |code.instrs|), |lines|, OldOffset(code, refs[k].inumber));
    assert lines[..|lines|] == lines;
  }

  /** The new table is in the order of the code, and no entry repeats the line before it. */
  lemma {:induction false} NoEntryIsWasted(code: Code, refs: seq<CodeRef>, lines: seq<Line>, k: nat, current: int)
    requires code.Valid() && InCode(code, refs) && k <= |refs|
    ensures var t := NewLines(code, refs, lines, k, current);
            && (t != [] ==> t[0].number != current && t[0].pc >= Offset(code, refs, k))
            && forall i | 0 < i < |t| :: t[i - 1].pc < t[i].pc && t[i - 1].number != t[i].number
    decreases |refs| - k
  {
    hide LineOf;
    if k < |refs| {
      OffsetsGrow(code, refs, k, k + 1);
      hide Offset;
      NoEntryIsWasted(code, refs, lines, k + 1, current);
      NoEntryIsWasted(code, refs, lines, k + 1, LineOf(code, refs, lines, k));
    }
  }
}
