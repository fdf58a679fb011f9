/** The fixed Huffman codes, decoded by arithmetic as inflateHuffman does it. */
module FixedCodes {
  import opened Bits
  import opened Canonical
  import opened Deflate
  import opened HuffmanTable

  /** REVERSE_9BITS; the two parts agree on the bit they share. */
  function Reverse9(code: nat): nat
    requires code < 512
  {
    REVERSE5[code % 32] * 16 + REVERSE5[code / 16] % 16
  }

  lemma Reverse9IsReverse(code: nat)
    requires code < 512
    ensures Reverse9(code) == Reverse(9, code)
  {
    assert Pow2(1) == 2 && Pow2(5) == 32 && Pow2(4) == 16;
    hide Pow2, Reverse;
    ReverseSplit(5, 4, code);
    ReverseMod(5, 5, code);
    Reverse5Table(code % 32);
    Reverse5Table(code / 16);
    var high := code / 16;
    ReverseSplit(1, 4, high);
    assert high / 2 == code / 32;
    DivModIs(Reverse(5, high), 16, Reverse(1, high), Reverse(4, high / 2));
  }

  /** The literal/length symbol for the next nine bits, most significant first. */
  function FixedSymbol(code: nat): nat
    requires code < 512
  {
    if code < 0x060 then 0x100 + code / 4
    else if code < 0x180 then code / 2 - 0x030
    else if code < 0x190 then code / 2 + (0x118 - 0x0c0)
    else 0x90 + code - 0x190
  }

  function Min(a: int, b: int): int { if a < b then a else b }

  function Clamp(k: int, lo: int, hi: int): int {
    if k < lo then 0 else Min(k, hi) - lo
  }

  /** How many of the first k symbols have a code of length n. */
  function FixedCount(k: nat, n: nat): int {
    if n == 7 then Clamp(k, 256, 280)
    else if n == 8 then Min(k, 144) + Clamp(k, 280, 288)
    else if n == 9 then Clamp(k, 144, 256)
    else 0
  }

  lemma {:induction false} FixedCounts(k: nat, n: nat)
    requires k <= 288
    ensures Count(FixedLiterals()[..k], n) == FixedCount(k, n)
  {
    if k > 0 {
      FixedCounts(k - 1, n);
      assert FixedLiterals()[..k][..k - 1] == FixedLiterals()[..k - 1];
    }
  }

  /** The first codes of section 3.2.6. */
  lemma FixedFirstCodes()
    ensures FirstCode(FixedLiterals(), 7) == 0
    ensures FirstCode(FixedLiterals(), 8) == 0x30
    ensures FirstCode(FixedLiterals(), 9) == 0x190
  {
    var lens := FixedLiterals();
    assert lens[..288] == lens;
    FixedCounts(288, 1);
    FixedCounts(288, 2);
    FixedCounts(288, 3);
    FixedCounts(288, 4);
    FixedCounts(288, 5);
    FixedCounts(288, 6);
    FixedCounts(288, 7);
    FixedCounts(288, 8);
    assert FirstCode(lens, 1) == 0;
    assert FirstCode(lens, 2) == 0;
    assert FirstCode(lens, 3) == 0;
    assert FirstCode(lens, 4) == 0;
    assert FirstCode(lens, 5) == 0;
    assert FirstCode(lens, 6) == 0;
    assert FirstCode(lens, 7) == 0;
    assert FirstCode(lens, 8) == 2 * (0 + 24);
    assert FirstCode(lens, 9) == 2 * (0x30 + 152);
  }

  lemma FixedCode(s: nat)
    requires s < 288
    ensures Code(FixedLiterals(), s) ==
            if s < 144 then 0x30 + s else if s < 256 then 0x190 + s - 144 else if s < 280 then s - 256 else 0xC0 + s - 280
  {
    FixedFirstCodes();
    FixedCounts(s, FixedLength(s));
  }

  /** The arithmetic finds the symbol whose fixed code comes next. */
  lemma FixedSymbolMatches(w: nat)
    ensures var s := FixedSymbol(Reverse9(w % 512));
            Matches(FixedLiterals(), s, w)
  {
    hide Code, Reverse9, Reverse;
    assert Pow2(9) == 512 by { Pow2Add(4, 5); assert Pow2(4) == 16 && Pow2(5) == 32; }
    Reverse9IsReverse(w % 512);
    var c := Reverse9(w % 512);
    var s := FixedSymbol(c);
    ReverseMod(9, 9, w);
    FixedCode(s);
    var n := FixedLength(s);
    ReverseSplit(n, 9 - n, w);
    assert Pow2(0) == 1 && Pow2(1) == 2 && Pow2(2) == 4;
    DivModIs(c, Pow2(9 - n), Reverse(n, w), Reverse(9 - n, w / Pow2(n)));
  }

  lemma {:induction false} FixedDistanceCounts(k: nat, n: nat)
    requires k <= 32
    ensures Count(FixedDistances()[..k], n) == if n == 5 then k else 0
  {
    if k > 0 {
      FixedDistanceCounts(k - 1, n);
      assert FixedDistances()[..k][..k - 1] == FixedDistances()[..k - 1];
    }
  }

  lemma FixedDistanceMatches(w: nat)
    ensures Matches(FixedDistances(), REVERSE5[w % 32], w)
  {
    var lens := FixedDistances();
    var s := REVERSE5[w % 32];
    assert Pow2(5) == 32;
    Reverse5Table(w % 32);
    ReverseMod(5, 5, w);
    assert lens[..32] == lens;
    FixedDistanceCounts(32, 1);
    FixedDistanceCounts(32, 2);
    FixedDistanceCounts(32, 3);
    FixedDistanceCounts(32, 4);
    FixedDistanceCounts(s, 5);
    assert FirstCode(lens, 1) == 0;
    assert FirstCode(lens, 2) == 0;
    assert FirstCode(lens, 3) == 0;
    assert FirstCode(lens, 4) == 0;
    assert FirstCode(lens, 5) == 0;
  }
}
