/**
 The inflater of jar.c: a bit buffer filled byte by byte, table lookups, copies within the
 output buffer, and the loop over blocks, proved against the expansion of the stream.
 */
module Inflater {
  import opened Octets
  import opened Types
  import opened Bits
  import opened Canonical
  import opened HuffmanTable
  import opened Deflate
  import FixedCodes

  const INFLATER_EXTRA_BYTES: nat := 4
  const MAX_QUICK_CXD: nat := 6
  const MAX_QUICK_LXL: nat := 9

  /** Unspecified: the header is malformed in a way the program does not look for. */
  datatype Outcome = Success | Failure | Unspecified

  lemma MatchesWindow(lens: seq<nat>, s: nat, w: nat, v: nat)
    requires w % Pow2(MAX_BITS) == v % Pow2(MAX_BITS)
    ensures Matches(lens, s, w) <==> Matches(lens, s, v)
  {
    hide Pow2, Code;
    if s < |lens| && 0 < lens[s] <= MAX_BITS {
      ReverseMod(lens[s], MAX_BITS, w);
      ReverseMod(lens[s], MAX_BITS, v);
    }
  }

  lemma AppendByte(file: seq<Byte>, pos: nat, size: nat, k: nat)
    requires pos + size == 8 * k
    ensures Window(file, pos, size + 8) == Window(file, pos, size) + ByteAt(file, k) * Pow2(size)
  {
    hide Window, Pow2;
    WindowConcat(file, pos, size, 8);
    WindowIsByte(file, k);
  }

  lemma NineBits()
    ensures Pow2(9) == 512
  {
    Pow2Add(4, 5);
    assert Pow2(4) == 16 && Pow2(5) == 32;
  }

  lemma FixedFound(file: seq<Byte>, pos: nat)
    ensures var code := Window(file, pos, 9);
            && code < 512 && FixedCodes.Reverse9(code) < 512
            && HasSymbol(FixedLiterals(), file, pos)
            && Symbol(FixedLiterals(), file, pos) == FixedCodes.FixedSymbol(FixedCodes.Reverse9(code))
  {
    hide Window, Pow2, Matches, FixedCodes.FixedSymbol, FixedCodes.Reverse9;
    var w := Window(file, pos, MAX_BITS);
    WindowSplit(file, pos, 9, MAX_BITS - 9);
    NineBits();
    FixedCodes.Reverse9IsReverse(w % 512);
    FixedCodes.FixedSymbolMatches(w);
    AtMostOneMatches(FixedLiterals(), Symbol(FixedLiterals(), file, pos), FixedCodes.FixedSymbol(FixedCodes.Reverse9(w % 512)), w);
  }

  lemma FixedRange(code: nat)
    requires code < 512
    ensures var s := FixedCodes.FixedSymbol(code);
            s < 288 && FixedLength(s) == if code < 0x060 then 7 else if code < 0x190 then 8 else 9
  {
  }

  lemma DistanceFound(file: seq<Byte>, pos: nat)
    ensures var code := Window(file, pos, 5);
            && code < 32
            && HasSymbol(FixedDistances(), file, pos)
            && Symbol(FixedDistances(), file, pos) == REVERSE5[code] < 32
  {
    assert Pow2(5) == 32;
    hide Window, Pow2, Matches;
    var w := Window(file, pos, MAX_BITS);
    WindowSplit(file, pos, 5, MAX_BITS - 5);
    FixedCodes.FixedDistanceMatches(w);
    Reverse5Table(w % 32);
    AtMostOneMatches(FixedDistances(), Symbol(FixedDistances(), file, pos), REVERSE5[w % 32], w);
  }

  class State {
    const file: seq<Byte>
    const compLen: nat
    const decompData: array<Byte>
    var inPos: nat
    var inData: nat
    var inDataSize: nat
    var inRemaining: int
    var out: nat

    /** The buffered bits are the stream bits before the file position. */
    ghost predicate Valid()
      reads this
    {
      && inDataSize <= 32 && inDataSize <= 8 * inPos
      && inData == Window(file, 8 * inPos - inDataSize, inDataSize)
      && inRemaining == compLen + INFLATER_EXTRA_BYTES - inPos
      && out <= decompData.Length
    }

    /** The first stream bit not yet consumed. */
    ghost function BitPos(): int
      reads this
    {
      8 * inPos - inDataSize
    }

    ghost function Output(): seq<Byte>
      requires out <= decompData.Length
      reads this, decompData
    {
      decompData[..out]
    }

    constructor (file: seq<Byte>, compLen: nat, decompData: array<Byte>)
      ensures this.file == file && this.compLen == compLen && this.decompData == decompData
      ensures Valid() && BitPos() == 0 && out == 0
    {
      this.file, this.compLen, this.decompData := file, compLen, decompData;
      inPos, inData, inDataSize, out := 0, 0, 0, 0;
      inRemaining := compLen + INFLATER_EXTRA_BYTES;
    }

    // ----- the bit buffer -----

    /** NEEDBITS. */
    method NeedBits(n: nat)
      requires Valid() && n <= 32 && (n > 25 ==> inDataSize % 8 == 0)
      modifies this`inPos, this`inData, this`inDataSize, this`inRemaining
      ensures Valid() && BitPos() == old(BitPos())
      ensures inDataSize >= n && inDataSize >= old(inDataSize)
      ensures inDataSize % 8 == old(inDataSize) % 8
      ensures inDataSize < n + 8 || inDataSize == old(inDataSize)
    {
      hide Window, Pow2;
      while inDataSize < n
        invariant Valid() && BitPos() == old(BitPos())
        invariant inDataSize >= old(inDataSize) && inDataSize % 8 == old(inDataSize) % 8
        invariant inDataSize < n + 8 || inDataSize == old(inDataSize)
        decreases n + 8 - inDataSize
      {
        NextByte();
      }
    }

    /** One round of NEEDBITS; the high bits are zero, so `|` is addition. */
    method NextByte()
      requires Valid() && inDataSize <= 24
      modifies this`inPos, this`inData, this`inDataSize, this`inRemaining
      ensures Valid() && BitPos() == old(BitPos()) && inDataSize == old(inDataSize) + 8
    {
      hide Window, Pow2;
      AppendByte(file, BitPos(), inDataSize, inPos);
      inData := inData + ByteAt(file, inPos) * Pow2(inDataSize);
      inPos := inPos + 1;
      inRemaining := inRemaining - 1;
      inDataSize := inDataSize + 8;
    }

    /** NEXTBITS. */
    method NextBits(n: nat) returns (bits: nat)
      requires Valid() && n <= inDataSize
      ensures BitPos() >= 0 && bits == Window(file, BitPos(), n)
    {
      hide Window, Pow2;
      WindowSplit(file, BitPos(), n, inDataSize - n);
      bits := inData % Pow2(n);
    }

    /** DUMPBITS. */
    method DumpBits(n: nat)
      requires Valid() && n <= inDataSize
      modifies this`inData, this`inDataSize
      ensures Valid() && BitPos() == old(BitPos()) + n && inDataSize == old(inDataSize) - n
    {
      hide Window, Pow2;
      WindowSplit(file, BitPos(), n, inDataSize - n);
      inData := inData / Pow2(n);
      inDataSize := inDataSize - n;
    }

    /** GET_HUFFMAN_ENTRY. */
    method GetHuffmanEntry(t: CodeTable, ghost lens: seq<nat>) returns (result: Option<nat>)
      requires Valid() && inDataSize >= MAX_BITS && Decodes(t, lens) && Lengths(lens)
      modifies this`inData, this`inDataSize
      ensures Valid() && old(BitPos()) >= 0
      ensures result.Some? <==> HasSymbol(lens, file, old(BitPos()))
      ensures result.None? ==> BitPos() == old(BitPos())
      ensures result.Some? ==>
                && result.value == Symbol(lens, file, old(BitPos()))
                && result.value < |lens|
                && BitPos() == old(BitPos()) + lens[result.value]
                && inDataSize == old(inDataSize) - lens[result.value]
    {
      hide Window, Pow2;
      EntryFound(t, lens, inData, BitPos(), inDataSize);
      var huff := t.entries[inData % Pow2(t.quickBits)];
      if huff >= LONG_MASK {
        huff := t.entries[Target(huff) + (inData % Pow2(t.maxCodeLen)) / Pow2(t.quickBits)];
      }
      if huff == 0 {
        return None;
      }
      DumpBits(huff % 16);
      return Some(huff / 16);
    }

    /** What a lookup finds in buffered bits. */
    lemma EntryFound(t: CodeTable, lens: seq<nat>, data: nat, pos: nat, size: nat)
      requires Decodes(t, lens) && Lengths(lens) && size >= MAX_BITS && data == Window(file, pos, size)
      ensures InRange(t, data)
      ensures Entry(t, data) != 0 <==> HasSymbol(lens, file, pos)
      ensures HasSymbol(lens, file, pos) ==>
                var s := Symbol(lens, file, pos);
                && s < |lens| && Entry(t, data) / 16 == s
                && Entry(t, data) % 16 == lens[s] && 0 < lens[s] <= MAX_BITS
    {
      hide Window, Pow2, InRange, Entry;
      WindowSplit(file, pos, MAX_BITS, size - MAX_BITS);
      var w := Window(file, pos, MAX_BITS);
      DivModIs(w, Pow2(MAX_BITS), 0, w);
      forall s: nat ensures Matches(lens, s, w) <==> Matches(lens, s, data) {
        MatchesWindow(lens, s, w, data);
      }
      if HasSymbol(lens, file, pos) {
        var s := Symbol(lens, file, pos);
        assert Matches(lens, s, data);
        assert Entry(t, data) == Huff(lens, s);
      }
    }

    // ----- compressed blocks -----

    /** The fixed literal/length code, by arithmetic on nine reversed bits. */
    method FixedLiteral() returns (litxlen: nat)
      requires Valid() && inDataSize >= MAX_BITS
      modifies this`inData, this`inDataSize
      ensures Valid() && old(BitPos()) >= 0
      ensures HasSymbol(FixedLiterals(), file, old(BitPos()))
      ensures litxlen == Symbol(FixedLiterals(), file, old(BitPos())) < 288
      ensures BitPos() == old(BitPos()) + FixedLiterals()[litxlen]
      ensures inDataSize == old(inDataSize) - FixedLiterals()[litxlen]
    {
      hide Window, Pow2, FixedCodes.Reverse9;
      var code := NextBits(9);
      FixedFound(file, BitPos());
      code := FixedCodes.Reverse9(code);
      FixedRange(code);
      if code < 0x060 {
        DumpBits(7);
        litxlen := 0x100 + code / 4;
      } else if code < 0x190 {
        DumpBits(8);
        litxlen := code / 2 + (if code < 0x180 then -0x030 else 0x118 - 0x0c0);
      } else {
        DumpBits(9);
        litxlen := 0x90 + code - 0x190;
      }
    }

    /** The fixed distance code. */
    method FixedDistance() returns (d: nat)
      requires Valid() && inDataSize >= MAX_BITS
      modifies this`inData, this`inDataSize
      ensures Valid() && old(BitPos()) >= 0
      ensures HasSymbol(FixedDistances(), file, old(BitPos()))
      ensures d == Symbol(FixedDistances(), file, old(BitPos())) < 32
      ensures BitPos() == old(BitPos()) + 5 && inDataSize == old(inDataSize) - 5
    {
      hide Window, Pow2;
      var code := NextBits(5);
      DistanceFound(file, BitPos());
      d := REVERSE5[code];
      DumpBits(5);
    }

    method LiteralLength(fixedHuffman: bool, lcodes: CodeTable, ghost lit: seq<nat>) returns (litxlen: Option<nat>)
      requires Valid() && inDataSize >= MAX_BITS && Lengths(lit)
      requires if fixedHuffman then lit == FixedLiterals() else Decodes(lcodes, lit)
      modifies this`inData, this`inDataSize
      ensures Valid() && old(BitPos()) >= 0
      ensures litxlen.Some? <==> HasSymbol(lit, file, old(BitPos()))
      ensures litxlen.Some? ==>
                && litxlen.value == Symbol(lit, file, old(BitPos())) < |lit|
                && BitPos() == old(BitPos()) + lit[litxlen.value]
                && inDataSize == old(inDataSize) - lit[litxlen.value]
    {
      if fixedHuffman {
        var s := FixedLiteral();
        litxlen := Some(s);
      } else {
        litxlen := GetHuffmanEntry(lcodes, lit);
      }
    }

    method DistanceCode(fixedHuffman: bool, dcodes: CodeTable, ghost dist: seq<nat>) returns (d: Option<nat>)
      requires Valid() && inDataSize >= MAX_BITS && Lengths(dist)
      requires if fixedHuffman then dist == FixedDistances() else Decodes(dcodes, dist)
      modifies this`inData, this`inDataSize
      ensures Valid() && old(BitPos()) >= 0
      ensures d.Some? <==> HasSymbol(dist, file, old(BitPos()))
      ensures d.Some? ==>
                && d.value == Symbol(dist, file, old(BitPos())) < |dist|
                && BitPos() == old(BitPos()) + dist[d.value]
    {
      if fixedHuffman {
        var s := FixedDistance();
        d := Some(s);
      } else {
        d := GetHuffmanEntry(dcodes, dist);
      }
    }

    /** The loop that copies within the output, byte by byte. */
    method CopyBytes(distance: nat, length: nat)
      requires Valid() && 0 < distance <= out && out + length <= decompData.Length
      modifies this`out, decompData
      ensures Valid() && BitPos() == old(BitPos()) && inDataSize == old(inDataSize)
      ensures Output() == Copy(old(Output()), distance, length)
    {
      hide Window, Pow2, Copy;
      ghost var start := Output();
      var prev, end := out - distance, out + length;
      while out != end
        invariant Valid() && BitPos() == old(BitPos()) && inDataSize == old(inDataSize)
        invariant prev == out - distance && prev >= 0 && out <= end <= decompData.Length
        invariant Copy(Output(), distance, end - out) == Copy(start, distance, length)
        decreases end - out
      {
        ghost var before := Output();
        CopyOne(before, distance, end - out);
        decompData[out] := decompData[prev];
        out, prev := out + 1, prev + 1;
        assert Output() == before + [before[|before| - distance]];
      }
      CopyNothing(Output(), distance);
    }

    /** The distance code and its extra bits. */
    method ReadDistance(fixedHuffman: bool, dcodes: CodeTable, ghost dist: seq<nat>) returns (distance: Option<nat>)
      requires Valid() && Lengths(dist)
      requires if fixedHuffman then dist == FixedDistances() else Decodes(dcodes, dist)
      modifies this`inPos, this`inData, this`inDataSize, this`inRemaining
      ensures Valid() && old(BitPos()) >= 0
      ensures distance.None? <==> DistanceAt(dist, file, old(BitPos())).NoDistance?
      ensures distance.Some? ==> DistanceAt(dist, file, old(BitPos())) == Distance(distance.value, BitPos())
    {
      hide Window, Pow2, Matches, Decodes;
      NeedBits(MAX_BITS);
      var d0 := DistanceCode(fixedHuffman, dcodes, dist);
      if d0.None? || d0.value > 29 {
        return None;
      }
      NeedBits(13);
      var moreBits := DISTANCE_EXTRA[d0.value];
      var bits := NextBits(moreBits);
      DumpBits(moreBits);
      return Some(DISTANCE_BASE[d0.value] + bits);
    }

    /** The length with its extra bits. */
    method ReadLength(litxlen: nat) returns (length: nat)
      requires Valid() && inDataSize >= 5 && 256 < litxlen <= 285
      modifies this`inData, this`inDataSize
      ensures Valid() && old(BitPos()) >= 0
      ensures BitPos() == old(BitPos()) + LENGTH_EXTRA[litxlen - 257]
      ensures length == LENGTH_BASE[litxlen - 257] + Window(file, old(BitPos()), LENGTH_EXTRA[litxlen - 257])
    {
      hide Window, Pow2;
      var n := litxlen - 257;
      var moreBits := LENGTH_EXTRA[n];
      var bits := NextBits(moreBits);
      length := LENGTH_BASE[n] + bits;
      DumpBits(moreBits);
    }

    /** A length-distance pair: the part of inflateHuffman after the length symbol. */
    method CopySymbol(fixedHuffman: bool, dcodes: CodeTable, ghost dist: seq<nat>, litxlen: nat) returns (ok: bool)
      requires Valid() && inDataSize >= 5 && Lengths(dist) && 256 < litxlen <= 285
      requires if fixedHuffman then dist == FixedDistances() else Decodes(dcodes, dist)
      modifies this`inPos, this`inData, this`inDataSize, this`inRemaining, this`out, decompData
      ensures Valid() && old(BitPos()) >= 0
      ensures ok ==> CopyStep(dist, file, old(BitPos()), litxlen, old(Output())) == More(BitPos(), Output())
      ensures !ok ==> TooLong(CopyStep(dist, file, old(BitPos()), litxlen, old(Output())), decompData.Length)
    {
      hide Window, Pow2, Copy, Matches, Decodes, DistanceAt;
      var length := ReadLength(litxlen);
      var distance := ReadDistance(fixedHuffman, dcodes, dist);
      if distance.None? || distance.value > out || out + length > decompData.Length {
        return false;
      }
      CopyBytes(distance.value, length);
      return true;
    }

    /** One round of the loop of inflateHuffman. */
    method OneSymbol(fixedHuffman: bool, lcodes: CodeTable, dcodes: CodeTable, ghost lit: seq<nat>, ghost dist: seq<nat>)
      returns (status: Status)
      requires Valid() && Lengths(lit) && Lengths(dist)
      requires if fixedHuffman then lit == FixedLiterals() && dist == FixedDistances()
               else Decodes(lcodes, lit) && Decodes(dcodes, dist)
      modifies this`inPos, this`inData, this`inDataSize, this`inRemaining, this`out, decompData
      ensures Valid() && old(BitPos()) >= 0
      ensures status == Going ==> Step(lit, dist, file, old(BitPos()), old(Output())) == More(BitPos(), Output())
      ensures status == Ended ==> Step(lit, dist, file, old(BitPos()), old(Output())) == End(BitPos(), Output())
      ensures status == Failed ==> TooLong(Step(lit, dist, file, old(BitPos()), old(Output())), decompData.Length)
    {
      hide Window, Pow2, Copy, Matches, Decodes, CopyStep;
      NeedBits(MAX_BITS + 5);
      var litxlen := LiteralLength(fixedHuffman, lcodes, lit);
      if litxlen.None? {
        return Failed;
      } else if litxlen.value <= 255 {
        if out >= decompData.Length {
          return Failed;
        }
        decompData[out] := litxlen.value;
        out := out + 1;
        assert Output() == old(Output()) + [litxlen.value];
        return Going;
      } else if litxlen.value == 256 {
        return Ended;
      } else if litxlen.value > 285 {
        return Failed;
      }
      assert lit[litxlen.value] <= MAX_BITS;
      var ok := CopySymbol(fixedHuffman, dcodes, dist, litxlen.value);
      return if ok then Going else Failed;
    }

    /** The loop of inflateHuffman, with the tables at hand. */
    method InflateCodes(fixedHuffman: bool, lcodes: CodeTable, dcodes: CodeTable, ghost lit: seq<nat>, ghost dist: seq<nat>)
      returns (noerror: bool)
      requires Valid() && Lengths(lit) && Lengths(dist)
      requires if fixedHuffman then lit == FixedLiterals() && dist == FixedDistances()
               else Decodes(lcodes, lit) && Decodes(dcodes, dist)
      modifies this`inPos, this`inData, this`inDataSize, this`inRemaining, this`out, decompData
      ensures Valid() && old(BitPos()) >= 0
      ensures noerror ==> Ends(lit, dist, file, old(BitPos()), old(Output()), End(BitPos(), Output()))
      ensures !noerror ==> forall r | Ends(lit, dist, file, old(BitPos()), old(Output()), r) :: OverLimit(r, compLen, decompData.Length)
    {
      hide Step, Decodes;
      ghost var start, before := BitPos(), Output();
      ghost var n: nat := 0;
      while true
        invariant Valid()
        invariant Steps(lit, dist, file, start, before, n) == More(BitPos(), Output())
        decreases 8 * (compLen + 5) - BitPos()
      {
        if inRemaining < 0 {
          NoEndHere(lit, dist, start, before, n);
          return false;
        }
        ghost var pos, output := BitPos(), Output();
        var status := OneSymbol(fixedHuffman, lcodes, dcodes, lit, dist);
        StepGrows(lit, dist, file, pos, output);
        StepsThen(lit, dist, file, start, before, n, 1);
        if status == Ended {
          assert Steps(lit, dist, file, start, before, n + 1) == End(BitPos(), Output());
          return true;
        } else if status == Failed {
          NoEndAfterFailure(lit, dist, file, start, before, n, compLen, decompData.Length);
          return false;
        }
        n := n + 1;
      }
    }

    lemma NoEndHere(lit: seq<nat>, dist: seq<nat>, start: nat, before: seq<Byte>, n: nat)
      requires Valid() && inRemaining < 0
      requires Steps(lit, dist, file, start, before, n) == More(BitPos(), Output())
      ensures forall r | Ends(lit, dist, file, start, before, r) :: OverLimit(r, compLen, decompData.Length)
    {
      hide Step;
      forall r | Ends(lit, dist, file, start, before, r) ensures OverLimit(r, compLen, decompData.Length) {
        EndsLater(lit, dist, file, start, before, n, r);
      }
    }

    // ----- dynamic headers -----

    /** The 3-bit lengths of the code length code. */
    method ReadLengthCode(codelen: array<nat>, hclen: nat) returns (ok: bool)
      requires Valid() && codelen.Length == MAX_LENGTHS && hclen <= 19
      requires forall i | 0 <= i < codelen.Length :: codelen[i] == 0
      modifies this`inPos, this`inData, this`inDataSize, this`inRemaining, codelen
      ensures Valid() && old(BitPos()) >= 0 && old(BitPos()) <= BitPos() <= old(BitPos()) + 3 * hclen
      ensures ok ==> codelen[..19] == LengthCode(file, old(BitPos()), hclen) && BitPos() == old(BitPos()) + 3 * hclen
      ensures !ok ==> BitPos() > 8 * compLen
    {
      hide Window, Pow2;
      ghost var start: nat := BitPos();
      var i := 0;
      while i < hclen
        invariant i <= hclen && Valid() && BitPos() == start + 3 * i
        invariant codelen[..19] == LengthCode(file, start, i)
      {
        NeedBits(3);
        if inRemaining < 0 {
          return false;
        }
        var bits := NextBits(3);
        codelen[LENGTH_ORDER[i]] := bits;
        DumpBits(3);
        i := i + 1;
        assert codelen[..19] == LengthCode(file, start, i - 1)[LENGTH_ORDER[i - 1] := bits];
      }
      return true;
    }

    /** A repeat code: the lengths it stands for are entered. */
    method RepeatLengths(codelen: array<nat>, codePtr: nat, total: nat, val: nat) returns (outcome: Outcome, next: nat)
      requires Valid() && codelen.Length == MAX_LENGTHS && codePtr <= total <= MAX_LENGTHS
      requires 16 <= val <= 18 && inDataSize >= 7
      requires forall i | codePtr <= i < codelen.Length :: codelen[i] == 0
      modifies this`inData, this`inDataSize, codelen
      ensures Valid() && old(BitPos()) >= 0
      ensures outcome.Success? ==>
                && codePtr < next <= total && (val == 16 ==> codePtr > 0)
                && codelen[..next] == Extended(file, old(BitPos()), val, old(codelen[..codePtr]))
                && (forall i | next <= i < codelen.Length :: codelen[i] == 0)
                && BitPos() == old(BitPos()) + RepeatBits(val)
      ensures !outcome.Success? ==>
                (val == 16 && codePtr == 0) || |Extended(file, old(BitPos()), val, old(codelen[..codePtr]))| > total
    {
      hide Window, Pow2;
      ghost var before := codelen[..codePtr];
      var repeat := if val == 18 then 11 else 3;
      var bits := if val == 18 then 7 else val - 14;
      var more := NextBits(bits);
      repeat := repeat + more;
      DumpBits(bits);
      if codePtr + repeat > total {
        return Unspecified, codePtr;
      }
      if val == 16 {
        if codePtr == 0 {
          return Failure, codePtr;
        }
        Memset(codelen, codePtr, codelen[codePtr - 1], repeat);
      } else {
        assert codelen[..codePtr + repeat] == before + Repeated(repeat, 0);
      }
      return Success, codePtr + repeat;
    }

    /** One code of the run-length coded lengths. */
    method LengthSymbol(codelen: array<nat>, codePtr: nat, total: nat, ccodes: CodeTable, ghost code: seq<nat>)
      returns (outcome: Outcome, next: nat)
      requires Valid() && codelen.Length == MAX_LENGTHS && codePtr < total <= MAX_LENGTHS
      requires forall i | codePtr <= i < codelen.Length :: codelen[i] == 0
      requires Decodes(ccodes, code) && Lengths(code)
      modifies this`inPos, this`inData, this`inDataSize, this`inRemaining, codelen
      ensures Valid() && old(BitPos()) >= 0
      ensures outcome.Success? ==>
                && codePtr < next <= total
                && (forall i | next <= i < codelen.Length :: codelen[i] == 0)
                && CodeLengths(code, file, old(BitPos()), old(codelen[..codePtr]), total)
                   == CodeLengths(code, file, BitPos(), codelen[..next], total)
      ensures !outcome.Success? ==> CodeLengths(code, file, old(BitPos()), old(codelen[..codePtr]), total).BadLengths?
    {
      hide Window, Pow2, Decodes, Matches, Extended;
      ghost var before := codelen[..codePtr];
      NeedBits(MAX_BITS + 7);
      var val := GetHuffmanEntry(ccodes, code);
      next := codePtr;
      if val.None? || val.value > 18 {
        return Failure, codePtr;
      } else if val.value <= 15 {
        codelen[codePtr] := val.value;
        assert codelen[..codePtr + 1] == before + [val.value];
        return Success, codePtr + 1;
      }
      outcome, next := RepeatLengths(codelen, codePtr, total, val.value);
    }

    /** The run-length coded lengths, filled into a zeroed array. */
    method ReadCodeLengths(codelen: array<nat>, total: nat, ccodes: CodeTable, ghost code: seq<nat>) returns (outcome: Outcome)
      requires Valid() && codelen.Length == MAX_LENGTHS && total <= MAX_LENGTHS
      requires forall i | 0 <= i < codelen.Length :: codelen[i] == 0
      requires Decodes(ccodes, code) && Lengths(code)
      modifies this`inPos, this`inData, this`inDataSize, this`inRemaining, codelen
      ensures Valid() && old(BitPos()) >= 0
      ensures outcome.Success? ==> CodeLengths(code, file, old(BitPos()), [], total) == LengthList(codelen[..total], BitPos())
      ensures outcome.Failure? ==>
                var r := CodeLengths(code, file, old(BitPos()), [], total); r.BadLengths? || r.pos > 8 * compLen
      ensures outcome.Unspecified? ==> CodeLengths(code, file, old(BitPos()), [], total).BadLengths?
    {
      hide Window, Pow2, Decodes, Matches;
      ghost var start: nat := BitPos();
      var codePtr := 0;
      assert codelen[..0] == [];
      while codePtr < total
        invariant codePtr <= total && Valid()
        invariant forall i | codePtr <= i < codelen.Length :: codelen[i] == 0
        invariant CodeLengths(code, file, BitPos(), codelen[..codePtr], total) == CodeLengths(code, file, start, [], total)
        decreases total - codePtr
      {
        if inRemaining < 0 {
          return Failure;
        }
        outcome, codePtr := LengthSymbol(codelen, codePtr, total, ccodes, code);
        if !outcome.Success? {
          return;
        }
      }
      return Success;
    }

    /** HLIT, HDIST and HCLEN. */
    method ReadCounts() returns (hlit: nat, hdist: nat, hclen: nat)
      requires Valid()
      modifies this`inPos, this`inData, this`inDataSize, this`inRemaining
      ensures Valid() && old(BitPos()) >= 0 && BitPos() == old(BitPos()) + 14
      ensures hlit == HLit(file, old(BitPos())) && hdist == HDist(file, old(BitPos())) && hclen == HCLen(file, old(BitPos()))
    {
      hide Window;
      NeedBits(14);
      hlit := NextBits(5);
      DumpBits(5);
      hdist := NextBits(5);
      DumpBits(5);
      hclen := NextBits(4);
      DumpBits(4);
      hlit, hdist, hclen := hlit + 257, hdist + 1, hclen + 4;
    }

    /** The code lengths of a dynamic header, after its counts. */
    method ReadHeaderLengths(total: nat, hclen: nat) returns (outcome: Outcome, lens: seq<nat>)
      requires Valid() && hclen <= 19
      modifies this`inPos, this`inData, this`inDataSize, this`inRemaining
      ensures Valid() && old(BitPos()) >= 0
      ensures outcome.Success? ==> HeaderLengths(file, old(BitPos()), total, hclen) == LengthList(lens, BitPos()) && Lengths(lens)
      ensures outcome.Failure? ==>
                var r := HeaderLengths(file, old(BitPos()), total, hclen); r.BadLengths? || r.pos > 8 * compLen
      ensures outcome.Unspecified? ==> HeaderLengths(file, old(BitPos()), total, hclen).BadLengths?
    {
      hide Window, Decodes, Matches, Used, Pow2, CodeLengths;
      lens := [];
      ghost var start: nat := BitPos();
      var codelen := new nat[MAX_LENGTHS](_ => 0);
      var ok := ReadLengthCode(codelen, hclen);
      if !ok {
        return Failure, [];
      }
      var code := codelen[..19];
      LengthCodeIsLengths(file, start, hclen);
      if Oversubscribed(code) || total > MAX_LENGTHS {
        return Unspecified, [];
      }
      Offsets(19);
      var ccodes := MakeCodeTable(code, MAX_QUICK_CXD);
      if ccodes.None? {
        return Failure, [];
      }
      codelen := new nat[MAX_LENGTHS](_ => 0);
      outcome := ReadCodeLengths(codelen, total, ccodes.value, code);
      if outcome.Success? {
        lens := codelen[..total];
        CodeLengthsAreLengths(code, file, start + 3 * hclen, [], total);
      }
    }

    /** decodeDynamicHuffmanTables. */
    method DecodeDynamicHuffmanTables()
      returns (outcome: Outcome, lcodes: Option<CodeTable>, dcodes: Option<CodeTable>, ghost h: Header)
      requires Valid()
      modifies this`inPos, this`inData, this`inDataSize, this`inRemaining
      ensures Valid() && old(BitPos()) >= 0 && h == DynamicHeader(file, old(BitPos()))
      ensures outcome.Success? ==>
                && h.Header? && !AllZero(h.dist) && h.pos == BitPos()
                && Lengths(h.lit) && Lengths(h.dist)
                && lcodes.Some? && Decodes(lcodes.value, h.lit) && dcodes.Some? && Decodes(dcodes.value, h.dist)
      ensures outcome.Failure? ==> h.BadHeader? || AllZero(h.dist) || h.pos > 8 * compLen
      ensures outcome.Unspecified? ==> h.BadHeader?
    {
      hide Window, Decodes, Matches, Used, Pow2, HeaderLengths, HLit, HDist, HCLen;
      h := DynamicHeader(file, BitPos());
      lcodes, dcodes := None, None;
      var hlit, hdist, hclen := ReadCounts();
      var lens;
      outcome, lens := ReadHeaderLengths(hlit + hdist, hclen);
      if outcome.Success? {
        outcome, lcodes, dcodes := MakeTables(lens, hlit);
      }
    }

    // ----- blocks -----

    /** inflateHuffman. */
    method InflateHuffman(fixedHuffman: bool, ghost final: bool) returns (outcome: Outcome, ghost b: Block)
      requires Valid()
      modifies this`inPos, this`inData, this`inDataSize, this`inRemaining, this`out, decompData
      ensures Valid() && old(BitPos()) >= 0
      ensures b == if fixedHuffman then HuffmanBlock(final, FixedLiterals(), FixedDistances(), file, old(BitPos()), old(Output()))
                   else DynamicBlock(true, final, DynamicHeader(file, old(BitPos())), file, old(Output()))
      ensures outcome.Success? ==> b == Block(final, BitPos(), Output())
      ensures !outcome.Success? ==> BlockOver(b, compLen, decompData.Length)
      ensures outcome.Unspecified? ==> b.BadBlock?
    {
      hide Window, Decodes, Steps, DynamicHeader, Matches;
      var lcodes, dcodes := CodeTable(1, 1, []), CodeTable(1, 1, []);
      ghost var lit, dist := FixedLiterals(), FixedDistances();
      ghost var output := Output();
      if !fixedHuffman {
        var l, d;
        ghost var h;
        outcome, l, d, h := DecodeDynamicHuffmanTables();
        b := DynamicBlock(true, final, h, file, output);
        if !outcome.Success? {
          HeaderOver(h, final, output);
          return;
        }
        lcodes, dcodes, lit, dist := l.value, d.value, h.lit, h.dist;
      }
      b := HuffmanBlock(final, lit, dist, file, BitPos(), output);
      ghost var pos: nat := BitPos();
      var noerror := InflateCodes(fixedHuffman, lcodes, dcodes, lit, dist);
      outcome := if noerror then Success else Failure;
      if b.Block? {
        assert Ends(lit, dist, file, pos, output, End(b.pos, b.out));
        assert !noerror ==> OverLimit(End(b.pos, b.out), compLen, decompData.Length);
      }
      if noerror && b.Block? {
        EndsOnce(lit, dist, file, pos, output, End(BitPos(), Output()), End(b.pos, b.out));
      }
    }

    lemma HeaderOver(h: Header, final: bool, output: seq<Byte>)
      requires h.BadHeader? || AllZero(h.dist) || h.pos > 8 * compLen
      ensures BlockOver(DynamicBlock(true, final, h, file, output), compLen, decompData.Length)
    {
      hide Step;
      var b := DynamicBlock(true, final, h, file, output);
      if b.Block? {
        var n: nat :| Steps(h.lit, h.dist, file, h.pos, output, n) == End(b.pos, b.out);
        StepsGrow(h.lit, h.dist, file, h.pos, output, n);
      }
    }

    /** COPY_N_BYTES: whole bytes straight from the file. */
    method CopyNBytes(len: nat) returns (ok: bool)
      requires Valid() && inDataSize == 0 && out + len <= decompData.Length
      modifies this`inPos, this`inRemaining, this`out, decompData
      ensures ok <==> old(inPos) + len <= |file|
      ensures ok ==> Valid() && inPos == old(inPos) + len && Output() == old(Output()) + file[old(inPos)..old(inPos) + len]
      ensures !ok ==> Valid() && inPos == old(inPos)
    {
      hide Pow2;
      if inPos + len > |file| {
        return false;
      }
      ghost var start := Output();
      var i := 0;
      while i < len
        invariant i <= len && out == old(out) && inPos == old(inPos) && inRemaining == old(inRemaining)
        invariant decompData[..out + i] == start + file[inPos..inPos + i]
      {
        decompData[out + i] := file[inPos + i];
        i := i + 1;
        assert file[inPos..inPos + i] == file[inPos..inPos + i - 1] + [file[inPos + i - 1]];
        assert decompData[..out + i] == decompData[..out + i - 1] + [file[inPos + i - 1]];
      }
      inRemaining := inRemaining - len;
      inPos := inPos + len;
      out := out + len;
      return true;
    }

    /** LEN and NLEN, from the next byte boundary on. */
    method ReadStoredLengths() returns (len: nat, nlen: nat)
      requires Valid()
      modifies this`inPos, this`inData, this`inDataSize, this`inRemaining
      ensures Valid() && old(BitPos()) >= 0 && inDataSize == 0
      ensures var p := AlignUp(old(BitPos()));
              && BitPos() == p + 32 && p / 8 + 4 == inPos
              && len == Window(file, p, 16) && nlen == Window(file, p + 16, 16)
    {
      hide Window, Pow2, AlignUp;
      Aligned(inPos, inDataSize);
      DumpBits(inDataSize % 8);
      NeedBits(32);
      len := NextBits(16);
      DumpBits(16);
      nlen := NextBits(16);
      DumpBits(16);
    }

    /** inflateStored. */
    method InflateStored(ghost final: bool) returns (outcome: Outcome)
      requires Valid()
      modifies this`inPos, this`inData, this`inDataSize, this`inRemaining, this`out, decompData
      ensures Valid() && old(BitPos()) >= 0 && !outcome.Unspecified?
      ensures outcome.Success? ==> StoredBlock(final, file, old(BitPos()), old(Output())) == Block(final, BitPos(), Output())
      ensures outcome.Failure? ==> BlockOver(StoredBlock(final, file, old(BitPos()), old(Output())), compLen, decompData.Length)
    {
      hide Window, Pow2, AlignUp;
      ghost var output := Output();
      var len, nlen := ReadStoredLengths();
      assert Output() == output;
      if len + nlen != 0xFFFF || (inRemaining >= 0 && inRemaining < len) || out + len > decompData.Length {
        return Failure;
      }
      var ok := CopyNBytes(len);
      return if ok then Success else Failure;
    }

    /** One block: its header bits, then its body. */
    method InflateBlock() returns (outcome: Outcome, final: bool)
      requires Valid()
      modifies this`inPos, this`inData, this`inDataSize, this`inRemaining, this`out, decompData
      ensures Valid() && old(BitPos()) >= 0
      ensures outcome.Success? ==> BlockAt(true, file, old(BitPos()), old(Output())) == Block(final, BitPos(), Output())
      ensures !outcome.Success? ==> BlockOver(BlockAt(true, file, old(BitPos()), old(Output())), compLen, decompData.Length)
      ensures outcome.Unspecified? ==> BlockAt(true, file, old(BitPos()), old(Output())).BadBlock?
      ensures outcome.Success? ==> old(BitPos()) < 8 * |file|
    {
      hide Pow2, HuffmanBlock, DynamicBlock, StoredBlock, ByteAt, BitAt, BlockOver, Window;
      ghost var start: nat := BitPos();
      NeedBits(3);
      var kind := NextBits(3);
      DumpBits(3);
      HeaderBits(file, start);
      final := kind % 2 == 1;
      if kind / 2 == 0 {
        outcome := InflateStored(final);
      } else if kind / 2 == 1 {
        ghost var b;
        outcome, b := InflateHuffman(true, final);
      } else if kind / 2 == 2 {
        ghost var b;
        outcome, b := InflateHuffman(false, final);
      } else {
        NoBlockIsOver(compLen, decompData.Length);
        outcome := Failure;
      }
    }

    /** The loop of inflate over the blocks, up to the final one. */
    method InflateBlocks() returns (outcome: Outcome)
      requires Valid() && BitPos() == 0 && out == 0
      modifies this`inPos, this`inData, this`inDataSize, this`inRemaining, this`out, decompData
      ensures Valid()
      ensures outcome.Success? ==> BitPos() >= 0 && Expands(true, file, BitPos(), Output())
      ensures !outcome.Success? ==> forall p: nat, o | Expands(true, file, p, o) :: p > 8 * compLen || |o| > decompData.Length
    {
      hide BlockAt, Window, BlockOver, Blocks;
      ghost var n: nat := 0;
      NoBlocks(file);
      assert Output() == [];
      while true
        invariant Valid() && BitPos() >= 0
        invariant Blocks(true, file, 0, [], n) == More(BitPos(), Output())
        decreases 8 * |file| - BitPos()
      {
        ghost var pos: nat, output := BitPos(), Output();
        var final;
        outcome, final := InflateBlock();
        BlockGrows(true, file, pos, output);
        BlocksThen(true, file, 0, [], n, 1);
        if !outcome.Success? {
          forall p: nat, o | Expands(true, file, p, o) ensures p > 8 * compLen || |o| > decompData.Length {
            NoExpansion(file, n, compLen, decompData.Length, p, o);
          }
          return;
        }
        OneBlock(file, pos, output);
        if final {
          assert Blocks(true, file, 0, [], n + 1) == End(BitPos(), Output());
          return Success;
        }
        n := n + 1;
      }
    }

    /**
     inflate.  It returns TRUE exactly when the stream has an expansion that fills the
     output buffer and whose last bit lies in the last byte of the compressed data; the
     buffer then holds that expansion.
     */
    method Inflate() returns (outcome: Outcome)
      requires Valid() && BitPos() == 0 && out == 0
      modifies this`inPos, this`inData, this`inDataSize, this`inRemaining, this`out, decompData
      ensures outcome.Success? <==>
              exists pos: nat, o :: Expands(true, file, pos, o) && |o| == decompData.Length && (pos + 7) / 8 == compLen
      ensures outcome.Success? ==>
              exists pos: nat :: Expands(true, file, pos, decompData[..]) && (pos + 7) / 8 == compLen
    {
      hide Expands, Window;
      outcome := InflateBlocks();
      if outcome.Success? {
        ghost var pos: nat := BitPos();
        BytesUsed(inPos, inDataSize);
        if inRemaining + inDataSize / 8 != INFLATER_EXTRA_BYTES || out != decompData.Length {
          outcome := Failure;
          forall p: nat, o | Expands(true, file, p, o) ensures p == pos && o == Output() {
            ExpandsOnce(true, file, p, o, pos, Output());
          }
        } else {
          assert Output() == decompData[..];
        }
      }
    }
  }

  lemma BytesUsed(inPos: nat, size: nat)
    requires size <= 8 * inPos
    ensures (8 * inPos - size + 7) / 8 == inPos - size / 8
  {
    Aligned(inPos, size);
  }

  /** The three header bits, and what they are past the end of the file. */
  lemma HeaderBits(file: seq<Byte>, pos: nat)
    ensures var kind := Window(file, pos, 3);
            && kind < 8 && (kind % 2 == 1 <==> IsFinal(file, pos)) && kind / 2 == Window(file, pos + 1, 2)
    ensures pos >= 8 * |file| ==> Window(file, pos + 1, 2) == 3
  {
    WindowSplit(file, pos, 1, 2);
    assert Pow2(0) == 1 && Pow2(1) == 2 && Pow2(3) == 8;
    assert Window(file, pos, 1) == BitAt(file, pos) by { assert Window(file, pos + 1, 0) == 0; }
    if pos >= 8 * |file| {
      OnesPastEnd(file, pos + 1);
      OnesPastEnd(file, pos + 2);
      assert Window(file, pos + 1, 2) == BitAt(file, pos + 1) + 2 * Window(file, pos + 2, 1);
      assert Window(file, pos + 2, 1) == BitAt(file, pos + 2) + 2 * Window(file, pos + 3, 0);
    }
  }

  lemma OnesPastEnd(file: seq<Byte>, pos: nat)
    requires pos >= 8 * |file|
    ensures BitAt(file, pos) == 1
  {
    assert ByteAt(file, pos / 8) == 255;
    assert Pow2(0) == 1 && Pow2(1) == 2 && Pow2(2) == 4 && Pow2(3) == 8 && Pow2(4) == 16;
    assert Pow2(5) == 32 && Pow2(6) == 64 && Pow2(7) == 128;
  }

  lemma NoBlocks(file: seq<Byte>)
    ensures Blocks(true, file, 0, [], 0) == More(0, [])
  {
  }

  lemma OneBlock(file: seq<Byte>, pos: nat, out: seq<Byte>)
    ensures var b := BlockAt(true, file, pos, out);
            Blocks(true, file, pos, out, 1) ==
            if b.BadBlock? then Bad else if b.final then End(b.pos, b.out) else More(b.pos, b.out)
  {
    hide BlockAt;
    var b := BlockAt(true, file, pos, out);
    if b.Block? { assert Blocks(true, file, b.pos, b.out, 0) == More(b.pos, b.out); }
  }

  /** Where a stream that is still going, or stuck, after n blocks can end. */
  lemma EndsAfter(file: seq<Byte>, n: nat, pos: nat, o: seq<Byte>)
    requires Expands(true, file, pos, o)
    ensures var t := Blocks(true, file, 0, [], n);
            && !t.Bad?
            && (t.More? ==> pos >= t.pos && |o| >= |t.out|)
            && (t.End? ==> t == End(pos, o))
  {
    hide BlockAt;
    var k: nat :| Blocks(true, file, 0, [], k) == End(pos, o);
    hide Blocks;
    var t := Blocks(true, file, 0, [], n);
    if k <= n {
      BlocksThen(true, file, 0, [], k, n - k);
    } else {
      BlocksThen(true, file, 0, [], n, k - n);
      if t.More? {
        BlocksGrow(true, file, t.pos, t.out, k - n);
      }
    }
  }

  /** After a bad or oversized block the stream has no expansion within the limits. */
  lemma NoExpansion(file: seq<Byte>, n: nat, compLen: nat, capacity: nat, pos: nat, o: seq<Byte>)
    requires Blocks(true, file, 0, [], n).More? && Expands(true, file, pos, o)
    requires var s := Blocks(true, file, 0, [], n);
             BlockOver(BlockAt(true, file, s.pos, s.out), compLen, capacity)
    ensures pos > 8 * compLen || |o| > capacity
  {
    hide BlockAt, Blocks, Expands;
    var s := Blocks(true, file, 0, [], n);
    BlocksThen(true, file, 0, [], n, 1);
    OneBlock(file, s.pos, s.out);
    EndsAfter(file, n + 1, pos, o);
  }

  /** Dropping the odd bits of the buffer moves to the next byte boundary of the stream. */
  lemma Aligned(inPos: nat, size: nat)
    requires size <= 8 * inPos
    ensures AlignUp(8 * inPos - size) == 8 * inPos - size + size % 8
    ensures (8 * inPos - size + size % 8) % 8 == 0 && (size - size % 8) % 8 == 0
  {
    var a := inPos - size / 8;
    assert 8 * inPos - size + 7 == 8 * a + (7 - size % 8);
  }

  /** No block, or one that goes beyond the compressed data or the output buffer. */
  predicate BlockOver(b: Block, compLen: nat, capacity: nat) {
    b.Block? ==> b.pos > 8 * compLen || |b.out| > capacity
  }

  lemma NoBlockIsOver(compLen: nat, capacity: nat)
    ensures BlockOver(BadBlock, compLen, capacity)
  {
  }

  /** Both tables of a dynamic block. */
  method MakeTables(lens: seq<nat>, hlit: nat) returns (outcome: Outcome, lcodes: Option<CodeTable>, dcodes: Option<CodeTable>)
    requires Lengths(lens) && hlit <= |lens| && hlit <= 288 && |lens| - hlit <= 32
    ensures outcome.Success? ==>
              && !Oversubscribed(lens[..hlit]) && !Oversubscribed(lens[hlit..])
              && !AllZero(lens[..hlit]) && !AllZero(lens[hlit..])
              && lcodes.Some? && Decodes(lcodes.value, lens[..hlit])
              && dcodes.Some? && Decodes(dcodes.value, lens[hlit..])
    ensures outcome.Failure? ==> AllZero(lens[..hlit]) || AllZero(lens[hlit..])
    ensures outcome.Unspecified? ==> Oversubscribed(lens[..hlit]) || Oversubscribed(lens[hlit..])
  {
    hide Decodes, Used, Pow2;
    lcodes, dcodes := None, None;
    if Oversubscribed(lens[..hlit]) {
      return Unspecified, None, None;
    }
    Offsets(hlit);
    lcodes := MakeCodeTable(lens[..hlit], MAX_QUICK_LXL);
    if lcodes.None? {
      return Failure, None, None;
    }
    if Oversubscribed(lens[hlit..]) {
      return Unspecified, None, None;
    }
    Offsets(|lens| - hlit);
    dcodes := MakeCodeTable(lens[hlit..], MAX_QUICK_CXD);
    outcome := if dcodes.None? then Failure else Success;
  }

  lemma {:induction false} LengthCodeIsLengths(file: seq<Byte>, pos: nat, hclen: nat)
    requires hclen <= 19
    ensures Lengths(LengthCode(file, pos, hclen))
  {
    if hclen > 0 {
      LengthCodeIsLengths(file, pos, hclen - 1);
      assert Pow2(3) == 8;
    }
  }

  lemma Offsets(n: nat)
    ensures n <= 32 ==> OffsetsFit(n, MAX_QUICK_CXD)
    ensures n <= 288 ==> OffsetsFit(n, MAX_QUICK_LXL)
  {
    assert Pow2(6) == 64 && Pow2(9) == 512;
    var m := (n + 1) / 2;
    if n <= 32 { ProductGrows(m, 16, 512); }
    if n <= 288 { ProductGrows(m, 144, 64); }
  }

  datatype Status = Going | Ended | Failed

  /** No progress, or more output than the buffer takes. */
  predicate TooLong(r: Progress, capacity: nat) {
    r.Bad? || (r.More? && |r.out| > capacity)
  }

  /** Beyond the compressed data or beyond the output buffer. */
  predicate OverLimit(r: Progress, compLen: nat, capacity: nat) {
    r.End? && (r.pos > 8 * compLen || |r.out| > capacity)
  }

  /** A block still going after n steps ends no earlier and with no less output. */
  lemma EndsLater(lit: seq<nat>, dist: seq<nat>, file: seq<Byte>, pos: nat, out: seq<Byte>, n: nat, r: Progress)
    requires Steps(lit, dist, file, pos, out, n).More? && Ends(lit, dist, file, pos, out, r)
    ensures var s := Steps(lit, dist, file, pos, out, n);
            r.pos >= s.pos && |r.out| >= |s.out| && Ends(lit, dist, file, s.pos, s.out, r)
  {
    hide Step, Steps;
    var s := Steps(lit, dist, file, pos, out, n);
    var k: nat :| Steps(lit, dist, file, pos, out, k) == r;
    if k <= n {
      StepsThen(lit, dist, file, pos, out, k, n - k);
    } else {
      StepsThen(lit, dist, file, pos, out, n, k - n);
      StepsGrow(lit, dist, file, s.pos, s.out, k - n);
    }
  }

  lemma NoEndAfterFailure(lit: seq<nat>, dist: seq<nat>, file: seq<Byte>, start: nat, before: seq<Byte>, n: nat, compLen: nat, capacity: nat)
    requires Steps(lit, dist, file, start, before, n).More?
    requires var s := Steps(lit, dist, file, start, before, n);
             TooLong(Step(lit, dist, file, s.pos, s.out), capacity)
    ensures forall r | Ends(lit, dist, file, start, before, r) :: OverLimit(r, compLen, capacity)
  {
    hide Step;
    var s := Steps(lit, dist, file, start, before, n);
    StepsThen(lit, dist, file, start, before, n, 1);
    assert Steps(lit, dist, file, s.pos, s.out, 1) == Step(lit, dist, file, s.pos, s.out) by {
      var t := Step(lit, dist, file, s.pos, s.out);
      if t.More? { assert Steps(lit, dist, file, t.pos, t.out, 0) == t; }
    }
    forall r | Ends(lit, dist, file, start, before, r) ensures OverLimit(r, compLen, capacity) {
      if Steps(lit, dist, file, start, before, n + 1).More? {
        EndsLater(lit, dist, file, start, before, n + 1, r);
      } else {
        NeverEnds(lit, dist, file, start, before, n + 1, r);
      }
    }
  }

  lemma NeverEnds(lit: seq<nat>, dist: seq<nat>, file: seq<Byte>, pos: nat, out: seq<Byte>, n: nat, r: Progress)
    requires Steps(lit, dist, file, pos, out, n).Bad?
    ensures !Ends(lit, dist, file, pos, out, r)
  {
    hide Step, Steps;
    if Ends(lit, dist, file, pos, out, r) {
      var k: nat :| Steps(lit, dist, file, pos, out, k) == r;
      if k <= n {
        StepsThen(lit, dist, file, pos, out, k, n - k);
      } else {
        StepsThen(lit, dist, file, pos, out, n, k - n);
      }
    }
  }

  /** Decoded code lengths are code lengths. */
  lemma {:induction false} CodeLengthsAreLengths(code: seq<nat>, file: seq<Byte>, pos: nat, lens: seq<nat>, total: nat)
    requires Lengths(lens)
    ensures var r := CodeLengths(code, file, pos, lens, total);
            r.LengthList? ==> Lengths(r.lens)
    decreases total - |lens|
  {
    hide Window;
    if |lens| < total && HasSymbol(code, file, pos) {
      var s := Symbol(code, file, pos);
      var p := pos + code[s];
      if s <= 15 {
        CodeLengthsAreLengths(code, file, p, lens + [s], total);
      } else if s <= 18 && (s != 16 || lens != []) {
        CodeLengthsAreLengths(code, file, p + RepeatBits(s), Extended(file, p, s, lens), total);
      }
    }
  }

  method Memset(a: array<nat>, start: nat, value: nat, n: nat)
    requires start + n <= a.Length
    modifies a
    ensures forall i | 0 <= i < a.Length :: a[i] == if start <= i < start + n then value else old(a[i])
    ensures a[..start + n] == old(a[..start]) + Repeated(n, value)
  {
    var i := 0;
    while i < n
      invariant i <= n
      invariant forall k | 0 <= k < a.Length :: a[k] == if start <= k < start + i then value else old(a[k])
    {
      a[start + i] := value;
      i := i + 1;
    }
  }
}
