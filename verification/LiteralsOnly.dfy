/**
 Blocks without distance codes.  Section 3.2.7 of RFC 1951 allows a dynamic block in which
 no distance code is used; inflate takes such a block for an error.
 */
module LiteralsOnly {
  import opened Octets
  import opened Bits
  import opened Canonical
  import opened Deflate

  // ----- exactly which streams are lost -----

  /** The block at `pos` is not a dynamic block without distance codes. */
  ghost predicate HasDistances(file: seq<Byte>, pos: nat) {
    var h := DynamicHeader(file, pos + 3);
    Window(file, pos + 1, 2) == 2 && h.Header? ==> !AllZero(h.dist)
  }

  /** None of the first n blocks is a dynamic block without distance codes. */
  ghost predicate AllHaveDistances(file: seq<Byte>, pos: nat, out: seq<Byte>, n: nat)
    decreases n
  {
    n == 0 ||
    (HasDistances(file, pos) &&
     var b := BlockAt(false, file, pos, out);
     b.Block? && !b.final ==> AllHaveDistances(file, b.pos, b.out, n - 1))
  }

  lemma StrictBlock(file: seq<Byte>, pos: nat, out: seq<Byte>)
    ensures BlockAt(true, file, pos, out) == if HasDistances(file, pos) then BlockAt(false, file, pos, out) else BadBlock
  {
    hide DynamicHeader, HuffmanBlock, Window, AllZero;
  }

  lemma {:induction false} StrictBlocks(file: seq<Byte>, pos: nat, out: seq<Byte>, n: nat)
    ensures Blocks(true, file, pos, out, n) == if AllHaveDistances(file, pos, out, n) then Blocks(false, file, pos, out, n) else Bad
    decreases n
  {
    hide BlockAt, HasDistances;
    if n > 0 {
      StrictBlock(file, pos, out);
      var b := BlockAt(false, file, pos, out);
      if b.Block? && !b.final {
        StrictBlocks(file, b.pos, b.out, n - 1);
      }
    }
  }

  /** The streams inflate expands are those RFC 1951 expands whose dynamic blocks all have a distance code. */
  lemma ExpandedExactly(file: seq<Byte>, pos: nat, out: seq<Byte>)
    ensures Expands(true, file, pos, out) <==>
            exists n: nat :: Blocks(false, file, 0, [], n) == End(pos, out) && AllHaveDistances(file, 0, [], n)
  {
    hide Blocks, AllHaveDistances;
    if Expands(true, file, pos, out) {
      var n: nat :| Blocks(true, file, 0, [], n) == End(pos, out);
      StrictBlocks(file, 0, [], n);
    }
    if n: nat :| Blocks(false, file, 0, [], n) == End(pos, out) && AllHaveDistances(file, 0, [], n) {
      StrictBlocks(file, 0, [], n);
    }
  }

  // ----- a stream that is lost -----

  /**
   The bits of a stream of one final dynamic block: code length code (bits 13 to 70),
   lengths 1, 255 times 0, 1 for the literals and 0 for the one distance (bits 71 to 92),
   then the byte 0 and the end of the block.
   */
  function Bit(i: nat): (b: nat)
    ensures b < 2
  {
    if i == 0 || i == 2 || 14 <= i <= 16 || i == 23 || i == 27 || i == 69 || i == 71 || i == 72 || 74 <= i <= 80
       || i == 83 || i == 85 || 87 <= i <= 91 || i == 94
    then 1 else 0
  }

  /** The next n bits as a number, from those of the stream. */
  function Number(pos: nat, n: nat): (v: nat)
    ensures v < Pow2(n)
    decreases n
  {
    if n == 0 then 0 else Bit(pos) + 2 * Number(pos + 1, n - 1)
  }

  function Packed(k: nat): Byte {
    SmallPowers();
    Number(8 * k, 8)
  }

  /** The stream as 12 bytes. */
  function File(): (f: seq<Byte>)
    ensures |f| == 12 && forall k | 0 <= k < 12 :: f[k] == Packed(k)
  {
    seq(12, k requires k >= 0 => Packed(k))
  }

  lemma SmallPowers()
    ensures Pow2(0) == 1 && Pow2(1) == 2 && Pow2(2) == 4 && Pow2(3) == 8 && Pow2(4) == 16 && Pow2(5) == 32 && Pow2(8) == 256
  {
    assert Pow2(1) == 2;
    assert Pow2(3) == 8;
    assert Pow2(5) == 32;
    assert Pow2(7) == 128;
  }

  lemma {:induction false} NumberBit(pos: nat, n: nat, a: nat)
    requires a < n
    ensures Number(pos, n) / Pow2(a) % 2 == Bit(pos + a)
    decreases a
  {
    hide Bit;
    var v, rest := Number(pos, n), Number(pos + 1, n - 1);
    DivModIs(v, 2, rest, Bit(pos));
    if a > 0 {
      NumberBit(pos + 1, n - 1, a - 1);
      CutProduct(v, 2, Pow2(a - 1));
      assert pos + 1 + (a - 1) == pos + a;
    }
  }

  lemma BitIs(i: nat)
    requires i < 96
    ensures BitAt(File(), i) == Bit(i)
  {
    hide Bit, Number;
    NumberBit(8 * (i / 8), 8, i % 8);
  }

  lemma {:induction false} WindowIs(pos: nat, n: nat)
    requires pos + n <= 96
    ensures Window(File(), pos, n) == Number(pos, n)
    decreases n
  {
    if n > 0 {
      BitIs(pos);
      WindowIs(pos + 1, n - 1);
    }
  }

  lemma NumberOf5(pos: nat)
    ensures Number(pos, 2) == Bit(pos) + 2 * Bit(pos + 1)
    ensures Number(pos, 3) == Bit(pos) + 2 * Bit(pos + 1) + 4 * Bit(pos + 2)
    ensures Number(pos, 4) == Bit(pos) + 2 * Bit(pos + 1) + 4 * Bit(pos + 2) + 8 * Bit(pos + 3)
    ensures Number(pos, 5) == Bit(pos) + 2 * Bit(pos + 1) + 4 * Bit(pos + 2) + 8 * Bit(pos + 3) + 16 * Bit(pos + 4)
    ensures Number(pos, 7) == Number(pos, 3) + 8 * Number(pos + 3, 4)
  {
    hide Bit;
    assert Number(pos + 4, 0) == 0;
    assert Number(pos + 4, 1) == Bit(pos + 4);
    assert Number(pos + 3, 1) == Bit(pos + 3);
    assert Number(pos + 3, 2) == Bit(pos + 3) + 2 * Number(pos + 4, 1);
    assert Number(pos + 2, 1) == Bit(pos + 2);
    assert Number(pos + 2, 2) == Bit(pos + 2) + 2 * Number(pos + 3, 1);
    assert Number(pos + 2, 3) == Bit(pos + 2) + 2 * Number(pos + 3, 2);
    assert Number(pos + 1, 1) == Bit(pos + 1);
    assert Number(pos + 1, 2) == Bit(pos + 1) + 2 * Number(pos + 2, 1);
    assert Number(pos + 1, 3) == Bit(pos + 1) + 2 * Number(pos + 2, 2);
    assert Number(pos + 1, 4) == Bit(pos + 1) + 2 * Number(pos + 2, 3);
    assert Number(pos, 7) == Bit(pos) + 2 * Number(pos + 1, 6);
    assert Number(pos + 1, 6) == Bit(pos + 1) + 2 * Number(pos + 2, 5);
    assert Number(pos + 2, 5) == Bit(pos + 2) + 2 * Number(pos + 3, 4);
  }

  /** Short windows, bit by bit. */
  lemma Reads(pos: nat)
    requires pos + 7 <= 96
    ensures Window(File(), pos, 2) == Bit(pos) + 2 * Bit(pos + 1)
    ensures Window(File(), pos, 3) == Bit(pos) + 2 * Bit(pos + 1) + 4 * Bit(pos + 2)
    ensures Window(File(), pos, 4) == Bit(pos) + 2 * Bit(pos + 1) + 4 * Bit(pos + 2) + 8 * Bit(pos + 3)
    ensures Window(File(), pos, 5) == Bit(pos) + 2 * Bit(pos + 1) + 4 * Bit(pos + 2) + 8 * Bit(pos + 3) + 16 * Bit(pos + 4)
  {
    hide *;
    WindowIs(pos, 2);
    WindowIs(pos, 3);
    WindowIs(pos, 4);
    WindowIs(pos, 5);
    NumberOf5(pos);
  }

  lemma HeaderBits()
    ensures Bit(0) == 1 && Bit(1) == 0 && Bit(2) == 1 && forall i | 3 <= i < 14 :: Bit(i) == 0
    ensures Bit(14) == 1 && Bit(15) == 1 && Bit(16) == 1
  {
  }

  lemma CountsAre(file: seq<Byte>, pos: nat)
    ensures HLit(file, pos) == 257 + Window(file, pos, 5) && HDist(file, pos) == 1 + Window(file, pos + 5, 5)
    ensures HCLen(file, pos) == 4 + Window(file, pos + 10, 4) && (IsFinal(file, pos) <==> BitAt(file, pos) == 1)
  {
  }

  /** The counts of the header. */
  lemma Counts()
    ensures Window(File(), 1, 2) == 2 && IsFinal(File(), 0)
    ensures HLit(File(), 3) == 257 && HDist(File(), 3) == 1 && HCLen(File(), 3) == 18
  {
    hide *;
    BitIs(0);
    Reads(1);
    Reads(3);
    Reads(8);
    Reads(13);
    HeaderBits();
    CountsAre(File(), 0);
    CountsAre(File(), 3);
  }

  /** The code length code: one bit for 18, two for 0 and 1. */
  function LengthsOf(h: nat): (r: seq<nat>)
    ensures |r| == 19 && forall s | 0 <= s < 19 :: r[s] == if s == 18 && h > 2 then 1 else if (s == 0 && h > 3) || (s == 1 && h > 17) then 2 else 0
  {
    seq(19, s => if s == 18 && h > 2 then 1 else if (s == 0 && h > 3) || (s == 1 && h > 17) then 2 else 0)
  }

  lemma LengthBits(j: nat)
    requires j < 18
    ensures Bit(17 + 3 * j) == (if j == 2 then 1 else 0) && Bit(18 + 3 * j) == (if j == 3 || j == 17 then 1 else 0) && Bit(19 + 3 * j) == 0
  {
  }

  lemma LengthAt(j: nat)
    requires j < 18
    ensures Window(File(), 17 + 3 * j, 3) == if j == 2 then 1 else if j == 3 || j == 17 then 2 else 0
  {
    hide *;
    Reads(17 + 3 * j);
    LengthBits(j);
  }

  lemma LengthCodeStep(file: seq<Byte>, pos: nat, h: nat)
    requires 0 < h <= 19
    ensures LENGTH_ORDER[h - 1] < 19
    ensures LengthCode(file, pos, h) == LengthCode(file, pos, h - 1)[LENGTH_ORDER[h - 1] := Window(file, pos + 3 * (h - 1), 3)]
  {
    hide Window;
  }

  lemma LengthsOfStep(h: nat)
    requires 0 < h <= 18
    ensures LENGTH_ORDER[h - 1] < 19
    ensures LengthsOf(h) == LengthsOf(h - 1)[LENGTH_ORDER[h - 1] := if h - 1 == 2 then 1 else if h - 1 == 3 || h - 1 == 17 then 2 else 0]
  {
  }

  lemma NoLengths(file: seq<Byte>, pos: nat)
    ensures LengthCode(file, pos, 0) == LengthsOf(0)
  {
  }

  lemma {:induction false} LengthCodeIs(h: nat)
    requires h <= 18
    ensures LengthCode(File(), 17, h) == LengthsOf(h)
  {
    hide *;
    if h > 0 {
      LengthCodeIs(h - 1);
      LengthAt(h - 1);
      LengthCodeStep(File(), 17, h);
      LengthsOfStep(h);
    } else {
      NoLengths(File(), 17);
    }
  }

  lemma {:induction false} CodeCount(k: nat, n: nat)
    requires k <= 19 && n > 0
    ensures Count(LengthsOf(18)[..k], n) == if n == 1 && k == 19 then 1 else if n == 2 then (if k > 1 then 2 else k) else 0
  {
    if k > 0 {
      CodeCount(k - 1, n);
      assert LengthsOf(18)[..k][..k - 1] == LengthsOf(18)[..k - 1];
    }
  }

  /** The literal code: one bit for the byte 0 and for the end of the block. */
  function Literals(): (r: seq<nat>)
    ensures |r| == 257 && forall s | 0 <= s < 257 :: r[s] == if s == 0 || s == 256 then 1 else 0
  {
    seq(257, s => if s == 0 || s == 256 then 1 else 0)
  }

  lemma {:induction false} LiteralCount(k: nat, n: nat)
    requires k <= 257 && n > 0
    ensures Count(Literals()[..k], n) == if n == 1 then (if k == 257 then 2 else if k > 0 then 1 else 0) else 0
  {
    if k > 0 {
      LiteralCount(k - 1, n);
      assert Literals()[..k][..k - 1] == Literals()[..k - 1];
    }
  }

  lemma {:induction false} UsedUpTo(lens: seq<nat>, n: nat)
    requires 2 <= n <= MAX_BITS && forall k | 2 < k <= MAX_BITS :: Count(lens, k) == 0
    ensures Used(lens, n) == Used(lens, 2)
  {
    if n > 2 {
      UsedUpTo(lens, n - 1);
      hide Pow2;
    }
  }

  /** No code of more than two bits, and few of one or two: the code has room. */
  lemma NotOver(lens: seq<nat>)
    requires forall k | 2 < k <= MAX_BITS :: Count(lens, k) == 0
    requires 2 * Count(lens, 1) + Count(lens, 2) <= 4
    ensures !Oversubscribed(lens)
  {
    UsedUpTo(lens, MAX_BITS);
    assert Used(lens, 0) == 0;
    assert Used(lens, 1) == Count(lens, 1) * Room(1);
    assert Room(1) == 2 * Room(2) && Pow2(MAX_BITS) == 4 * Room(2);
    var r := Room(2);
    hide Pow2, Count, Used;
    Associates(Count(lens, 1), 2, r);
    Distributes(Count(lens, 1) * 2, Count(lens, 2), r);
    ProductGrows(Count(lens, 1) * 2 + Count(lens, 2), 4, r);
  }

  lemma ShortCodes(lens: seq<nat>)
    ensures FirstCode(lens, 1) == 0 && FirstCode(lens, 2) == 2 * Count(lens, 1)
  {
    assert FirstCode(lens, 0) == 0;
  }

  lemma CodesOf()
    ensures var lens := LengthsOf(18); Code(lens, 18) == 0 && Code(lens, 0) == 2 && Code(lens, 1) == 3 && !Oversubscribed(lens) && !AllZero(lens)
    ensures var lens := Literals(); Code(lens, 0) == 0 && Code(lens, 256) == 1 && !Oversubscribed(lens) && !AllZero(lens)
    ensures !Oversubscribed([0]) && AllZero([0])
  {
    assert LengthsOf(18)[..19] == LengthsOf(18) && Literals()[..257] == Literals();
    forall n | 0 < n ensures Count(LengthsOf(18), n) == if n == 1 then 1 else if n == 2 then 2 else 0 { CodeCount(19, n); }
    forall n | 0 < n ensures Count(Literals(), n) == if n == 1 then 2 else 0 { LiteralCount(257, n); }
    forall n | 0 < n ensures Count([0], n) == 0 { assert [0][..0] == []; }
    CodeCount(18, 1);
    CodeCount(0, 2);
    CodeCount(1, 2);
    LiteralCount(0, 1);
    LiteralCount(256, 1);
    hide Count, Pow2, LengthsOf, Literals;
    assert LengthsOf(18)[18] == 1 && Literals()[0] == 1;
    ShortCodes(LengthsOf(18));
    ShortCodes(Literals());
    NotOver(LengthsOf(18));
    NotOver(Literals());
    NotOver([0]);
  }

  /** The first two bits of a window, most significant first. */
  lemma FirstTwo(pos: nat)
    requires pos < 95
    ensures Reverse(1, Window(File(), pos, MAX_BITS)) == Bit(pos)
    ensures Reverse(2, Window(File(), pos, MAX_BITS)) == 2 * Bit(pos) + Bit(pos + 1)
  {
    hide Window, Pow2, Reverse, Bit, BitAt, File, Number;
    var w := Window(File(), pos, MAX_BITS);
    BitIs(pos);
    BitIs(pos + 1);
    WindowStep(File(), pos, MAX_BITS);
    WindowStep(File(), pos + 1, MAX_BITS - 1);
    SmallPowers();
    ReverseStep(2, w);
    ReverseStep(1, w);
    ReverseStep(1, w / 2);
  }

  /** The symbol at a position, from the code there. */
  lemma SymbolIs(lens: seq<nat>, s: nat, pos: nat)
    requires pos < 95 && s < |lens| && 0 < lens[s] <= 2 && !Oversubscribed(lens)
    requires Code(lens, s) == if lens[s] == 1 then Bit(pos) else 2 * Bit(pos) + Bit(pos + 1)
    ensures HasSymbol(lens, File(), pos) && Symbol(lens, File(), pos) == s
  {
    hide Oversubscribed, Code, Reverse, Window, Bit, File;
    FirstTwo(pos);
    var w := Window(File(), pos, MAX_BITS);
    assert Matches(lens, s, w);
    AtMostOneMatches(lens, s, Symbol(lens, File(), pos), w);
  }

  // ----- reading the lengths -----

  lemma OneLength(code: seq<nat>, file: seq<Byte>, pos: nat, lens: seq<nat>, total: nat, s: nat)
    requires |lens| < total && HasSymbol(code, file, pos) && Symbol(code, file, pos) == s <= 15
    ensures CodeLengths(code, file, pos, lens, total) == CodeLengths(code, file, pos + code[s], lens + [s], total)
  {
    hide Window, Matches, HasSymbol;
  }

  lemma ZeroLengths(code: seq<nat>, file: seq<Byte>, pos: nat, lens: seq<nat>, total: nat, k: nat)
    requires |lens| < total && HasSymbol(code, file, pos) && Symbol(code, file, pos) == 18 < |code|
    requires Window(file, pos + code[18], 7) == k
    ensures CodeLengths(code, file, pos, lens, total) ==
            CodeLengths(code, file, pos + code[18] + 7, lens + Repeated(11 + k, 0), total)
  {
    hide Window, Matches, HasSymbol;
  }

  lemma AllLengths(code: seq<nat>, file: seq<Byte>, pos: nat, lens: seq<nat>)
    ensures CodeLengths(code, file, pos, lens, |lens|) == LengthList(lens, pos)
  {
  }

  lemma RepeatBitsAre()
    ensures forall i | 74 <= i < 81 :: Bit(i) == 1
    ensures Bit(82) == 0 && Bit(83) == 1 && Bit(84) == 0 && Bit(85) == 1 && Bit(86) == 0 && Bit(87) == 1 && Bit(88) == 1
  {
  }

  lemma RepeatCounts()
    ensures Window(File(), 74, 7) == 127 && Window(File(), 82, 7) == 106
  {
    hide *;
    WindowIs(74, 7);
    WindowIs(82, 7);
    NumberOf5(74);
    NumberOf5(77);
    NumberOf5(82);
    NumberOf5(85);
    RepeatBitsAre();
  }

  lemma TheBits()
    ensures Bit(71) == 1 && Bit(72) == 1 && Bit(73) == 0 && Bit(81) == 0 && Bit(89) == 1 && Bit(90) == 1 && Bit(91) == 1 && Bit(92) == 0
    ensures Bit(93) == 0 && Bit(94) == 1
  {
  }

  lemma LengthsAre()
    ensures CodeLengths(LengthsOf(18), File(), 71, [], 258) == LengthList(Literals() + [0], 93)
  {
    hide *;
    var code, file := LengthsOf(18), File();
    CodesOf();
    TheBits();
    RepeatCounts();
    SymbolIs(code, 1, 71);
    SymbolIs(code, 18, 73);
    SymbolIs(code, 18, 81);
    SymbolIs(code, 1, 89);
    SymbolIs(code, 0, 91);
    var l2 := [1] + Repeated(138, 0);
    var l3 := l2 + Repeated(117, 0);
    OneLength(code, file, 71, [], 258, 1);
    assert [] + [1] == [1];
    ZeroLengths(code, file, 73, [1], 258, 127);
    ZeroLengths(code, file, 81, l2, 258, 106);
    OneLength(code, file, 89, l3, 258, 1);
    OneLength(code, file, 91, l3 + [1], 258, 0);
    assert l3 + [1] == Literals();
    AllLengths(code, file, 93, l3 + [1] + [0]);
  }

  lemma HeaderFrom(file: seq<Byte>, pos: nat, lit: seq<nat>, dist: seq<nat>, end: nat)
    requires |lit| == HLit(file, pos) && |dist| == HDist(file, pos) && |lit| + |dist| <= MAX_LENGTHS
    requires !Oversubscribed(lit) && !AllZero(lit) && !Oversubscribed(dist)
    requires var code := LengthCode(file, pos + 14, HCLen(file, pos));
             && !AllZero(code) && !Oversubscribed(code)
             && CodeLengths(code, file, pos + 14 + 3 * HCLen(file, pos), [], |lit| + |dist|) == LengthList(lit + dist, end)
    ensures DynamicHeader(file, pos) == Header(lit, dist, end)
  {
    hide HLit, HDist, HCLen, LengthCode, CodeLengths, Oversubscribed, AllZero;
    assert (lit + dist)[..|lit|] == lit && (lit + dist)[|lit|..] == dist;
  }

  lemma HeaderIs()
    ensures DynamicHeader(File(), 3) == Header(Literals(), [0], 93)
  {
    hide File, HLit, HDist, HCLen, LengthCode, CodeLengths, Oversubscribed, Literals, LengthsOf, AllZero, DynamicHeader, Window;
    var file := File();
    Counts();
    LengthCodeIs(18);
    CodesOf();
    LengthsAre();
    HeaderFrom(file, 3, Literals(), [0], 93);
  }

  // ----- the block -----

  lemma BlockStep(lit: seq<nat>, dist: seq<nat>, file: seq<Byte>, pos: nat, out: seq<Byte>, s: nat)
    requires HasSymbol(lit, file, pos) && Symbol(lit, file, pos) == s < |lit|
    ensures s < 256 ==> Step(lit, dist, file, pos, out) == More(pos + lit[s], out + [s])
    ensures s == END_OF_BLOCK ==> Step(lit, dist, file, pos, out) == End(pos + lit[s], out)
  {
    hide HasSymbol, CopyStep;
  }

  lemma BlockEnds()
    ensures Ends(Literals(), [0], File(), 93, [], End(95, [0]))
  {
    var lit, file := Literals(), File();
    CodesOf();
    TheBits();
    SymbolIs(lit, 0, 93);
    SymbolIs(lit, 256, 94);
    BlockStep(lit, [0], file, 93, [], 0);
    BlockStep(lit, [0], file, 94, [0], 256);
    hide Step, File, Literals;
    assert Steps(lit, [0], file, 94, [0], 1) == End(95, [0]);
    assert [] + [0] == [0];
    assert Steps(lit, [0], file, 93, [], 2) == End(95, [0]);
  }

  lemma Unfinished(strict: bool, file: seq<Byte>, n: nat)
    requires BlockAt(strict, file, 0, []).BadBlock?
    ensures !Blocks(strict, file, 0, [], n).End?
  {
  }

  /**
   RFC 1951 expands these 12 bytes to one byte, with the last bit in the last byte;
   inflate has no expansion for them, whatever length is asked for.
   */
  lemma LiteralsOnlyIsLost()
    ensures Expands(false, File(), 95, [0]) && (95 + 7) / 8 == |File()|
    ensures forall pos, out :: !Expands(true, File(), pos, out)
  {
    Counts();
    HeaderIs();
    CodesOf();
    BlockEnds();
    hide Window, DynamicHeader, Ends, File, Literals, AllZero, Oversubscribed;
    var b := HuffmanBlock(true, Literals(), [0], File(), 93, []);
    EndsOnce(Literals(), [0], File(), 93, [], End(95, [0]), End(b.pos, b.out));
    assert BlockAt(false, File(), 0, []) == Block(true, 95, [0]);
    assert Blocks(false, File(), 0, [], 1) == End(95, [0]);
    assert BlockAt(true, File(), 0, []).BadBlock?;
    forall n: nat ensures !Blocks(true, File(), 0, [], n).End? {
      Unfinished(true, File(), n);
    }
  }
}
