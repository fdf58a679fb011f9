/** The canonical Huffman codes of section 3.2.2 of RFC 1951. */
module Canonical {
  import opened Bits

  const MAX_BITS: nat := 15

  /** A code length for every symbol, 0 for symbols that are not used. */
  predicate Lengths(lens: seq<nat>) {
    forall s | 0 <= s < |lens| :: lens[s] <= MAX_BITS
  }

  /** bl_count. */
  function Count(lens: seq<nat>, n: nat): nat {
    if lens == [] then 0
    else Count(lens[..|lens| - 1], n) + if lens[|lens| - 1] == n then 1 else 0
  }

  /** next_code: the first code of length n. */
  function FirstCode(lens: seq<nat>, n: nat): nat {
    if n == 0 then 0
    else 2 * (FirstCode(lens, n - 1) + if n == 1 then 0 else Count(lens, n - 1))
  }

  /** Codes of one length are handed out in the order of the symbols. */
  function Rank(lens: seq<nat>, s: nat): nat
    requires s < |lens|
  {
    Count(lens[..s], lens[s])
  }

  function Code(lens: seq<nat>, s: nat): nat
    requires s < |lens|
  {
    FirstCode(lens, lens[s]) + Rank(lens, s)
  }

  /**
   The code of s comes next in a stream whose next 15 bits are the window w: Huffman
   codes are packed starting with their most significant bit (section 3.1.1).
   */
  predicate Matches(lens: seq<nat>, s: nat, w: nat) {
    s < |lens| && 0 < lens[s] <= MAX_BITS && Reverse(lens[s], w) == Code(lens, s)
  }

  // ----- codes as intervals of 15-bit numbers -----

  /** The room a code of length n takes among the 15-bit numbers. */
  function Room(n: nat): nat
    requires n <= MAX_BITS
  {
    Pow2(MAX_BITS - n)
  }

  /** The room taken by all codes of length at most n. */
  function Used(lens: seq<nat>, n: nat): nat
    requires n <= MAX_BITS
  {
    if n == 0 then 0 else Used(lens, n - 1) + Count(lens, n) * Room(n)
  }

  predicate Oversubscribed(lens: seq<nat>) {
    Used(lens, MAX_BITS) > Pow2(MAX_BITS)
  }

  predicate Complete(lens: seq<nat>) {
    Used(lens, MAX_BITS) == Pow2(MAX_BITS)
  }

  /** A code moved up to the most significant of 15 bits. */
  function LeftCode(lens: seq<nat>, s: nat): nat
    requires s < |lens| && 0 < lens[s] <= MAX_BITS
  {
    Used(lens, lens[s] - 1) + Rank(lens, s) * Room(lens[s])
  }

  lemma {:induction false} FirstCodeLeft(lens: seq<nat>, n: nat)
    requires 0 < n <= MAX_BITS
    ensures FirstCode(lens, n) * Room(n) == Used(lens, n - 1)
  {
    if n == 1 {
      assert FirstCode(lens, 1) == 0;
    } else {
      FirstCodeLeft(lens, n - 1);
      assert Room(n - 1) == 2 * Room(n);
      var f, c := FirstCode(lens, n - 1), Count(lens, n - 1);
      Distributes(f, c, Room(n - 1));
      Associates(f + c, 2, Room(n));
    }
  }

  lemma LeftCodeIsCode(lens: seq<nat>, s: nat)
    requires s < |lens| && 0 < lens[s] <= MAX_BITS
    ensures LeftCode(lens, s) == Code(lens, s) * Room(lens[s])
  {
    FirstCodeLeft(lens, lens[s]);
    Distributes(FirstCode(lens, lens[s]), Rank(lens, s), Room(lens[s]));
  }

  lemma {:induction false} CountPrefix(lens: seq<nat>, a: nat, b: nat, n: nat)
    requires a <= b <= |lens|
    ensures Count(lens[..a], n) <= Count(lens[..b], n)
  {
    if a < b {
      CountPrefix(lens, a, b - 1, n);
      assert lens[..b][..b - 1] == lens[..b - 1];
    }
  }

  lemma RankBelowCount(lens: seq<nat>, s: nat, t: nat)
    requires s < t <= |lens|
    ensures Count(lens[..s], lens[s]) < Count(lens[..t], lens[s])
  {
    assert lens[..s + 1][..s] == lens[..s];
    CountPrefix(lens, s + 1, t, lens[s]);
  }

  lemma {:induction false} UsedMonotone(lens: seq<nat>, a: nat, b: nat)
    requires a <= b <= MAX_BITS
    ensures Used(lens, a) <= Used(lens, b)
  {
    if a < b {
      UsedMonotone(lens, a, b - 1);
    }
  }

  /** A code's interval ends where the codes of its length end at the latest. */
  lemma IntervalInside(lens: seq<nat>, s: nat)
    requires s < |lens| && 0 < lens[s] <= MAX_BITS
    ensures LeftCode(lens, s) + Room(lens[s]) <= Used(lens, lens[s]) <= Used(lens, MAX_BITS)
  {
    var n := lens[s];
    RankBelowCount(lens, s, |lens|);
    assert lens[..|lens|] == lens;
    UsedMonotone(lens, n, MAX_BITS);
    var r, c := Rank(lens, s), Count(lens, n);
    Distributes(r, 1, Room(n));
    ProductGrows(r + 1, c, Room(n));
  }

  /** Shorter codes, and among equals those of smaller symbols, come first. */
  lemma IntervalsOrdered(lens: seq<nat>, s: nat, t: nat)
    requires s < |lens| && 0 < lens[s] <= MAX_BITS && t < |lens| && 0 < lens[t] <= MAX_BITS
    requires lens[s] < lens[t] || (lens[s] == lens[t] && s < t)
    ensures LeftCode(lens, s) + Room(lens[s]) <= LeftCode(lens, t)
  {
    IntervalInside(lens, s);
    if lens[s] < lens[t] {
      UsedMonotone(lens, lens[s], lens[t] - 1);
    } else {
      RankBelowCount(lens, s, t);
      var r, q := Rank(lens, s), Rank(lens, t);
      Distributes(r, 1, Room(lens[s]));
      ProductGrows(r + 1, q, Room(lens[s]));
    }
  }

  /** The first n stream bits, most significant first, are the top of the reversed window. */
  lemma ReverseTop(n: nat, w: nat)
    requires n <= MAX_BITS
    ensures Reverse(MAX_BITS, w) / Room(n) == Reverse(n, w)
  {
    hide Reverse, Pow2;
    ReverseSplit(n, MAX_BITS - n, w);
    DivModIs(Reverse(MAX_BITS, w), Room(n), Reverse(n, w), Reverse(MAX_BITS - n, w / Pow2(n)));
  }

  /** A symbol matches exactly when the reversed window lies in its interval. */
  lemma MatchesInterval(lens: seq<nat>, s: nat, w: nat)
    requires s < |lens| && 0 < lens[s] <= MAX_BITS
    ensures Matches(lens, s, w) <==>
            LeftCode(lens, s) <= Reverse(MAX_BITS, w) < LeftCode(lens, s) + Room(lens[s])
  {
    var n := lens[s];
    var y, c, d := Reverse(MAX_BITS, w), Code(lens, s), Room(n);
    ReverseTop(n, w);
    LeftCodeIsCode(lens, s);
    DivMod(y, d);
    if c * d <= y < c * d + d {
      DivModIs(y, d, c, y - c * d);
    }
  }

  /** At most one symbol matches: the code is free of prefixes. */
  lemma AtMostOneMatches(lens: seq<nat>, s: nat, t: nat, w: nat)
    requires Matches(lens, s, w) && Matches(lens, t, w)
    ensures s == t
  {
    MatchesInterval(lens, s, w);
    MatchesInterval(lens, t, w);
    if lens[s] < lens[t] || (lens[s] == lens[t] && s < t) {
      IntervalsOrdered(lens, s, t);
    } else if s != t {
      IntervalsOrdered(lens, t, s);
    }
  }

  lemma {:induction false} SymbolOfRank(lens: seq<nat>, n: nat, r: nat) returns (s: nat)
    requires r < Count(lens, n)
    ensures s < |lens| && lens[s] == n && Rank(lens, s) == r
  {
    var k := |lens| - 1;
    if lens[k] == n && Count(lens[..k], n) == r {
      s := k;
    } else {
      s := SymbolOfRank(lens[..k], n, r);
      assert lens[..k][..s] == lens[..s];
    }
  }

  lemma {:induction false} LengthOfNumber(lens: seq<nat>, y: nat, n: nat) returns (k: nat)
    requires n <= MAX_BITS && y < Used(lens, n)
    ensures 0 < k <= n && Used(lens, k - 1) <= y < Used(lens, k)
  {
    if Used(lens, n - 1) <= y {
      k := n;
    } else {
      k := LengthOfNumber(lens, y, n - 1);
    }
  }

  /** In a complete code every window starts with the code of some symbol. */
  lemma CompleteMatches(lens: seq<nat>, w: nat) returns (s: nat)
    requires Complete(lens) && Lengths(lens)
    ensures Matches(lens, s, w)
  {
    var y := Reverse(MAX_BITS, w);
    var n := LengthOfNumber(lens, y, MAX_BITS);
    var z := y - Used(lens, n - 1);
    DivMod(z, Room(n));
    var r := z / Room(n);
    ProductGrows(Count(lens, n), r, Room(n));
    s := SymbolOfRank(lens, n, r);
    MatchesInterval(lens, s, w);
  }

  // ----- the index form used by the lookup tables -----

  /** The code as it appears in the low bits of a window. */
  function Index(lens: seq<nat>, s: nat): (i: nat)
    requires s < |lens| && 0 < lens[s] <= MAX_BITS
    ensures i < Pow2(MAX_BITS)
  {
    Reverse(MAX_BITS, LeftCode(lens, s))
  }

  lemma IndexIsReversedCode(lens: seq<nat>, s: nat)
    requires s < |lens| && 0 < lens[s] <= MAX_BITS
    ensures Index(lens, s) == Reverse(lens[s], Code(lens, s)) < Pow2(lens[s])
  {
    hide Pow2, Reverse, Used, LeftCode, Code;
    var n, c := lens[s], Code(lens, s);
    LeftCodeIsCode(lens, s);
    ReverseSplit(MAX_BITS - n, n, c * Room(n));
    DivModIs(c * Room(n), Room(n), c, 0);
    ReverseMod(MAX_BITS - n, MAX_BITS - n, c * Room(n));
    ReverseZero(MAX_BITS - n);
  }

  lemma FactorFits(c: nat, p: nat, d: nat)
    requires d > 0 && c * d + d <= p * d
    ensures c < p
  {
    ProductGrows(p, c, d);
  }

  lemma CodeFits(lens: seq<nat>, s: nat)
    requires s < |lens| && 0 < lens[s] <= MAX_BITS && !Oversubscribed(lens)
    ensures Code(lens, s) < Pow2(lens[s])
    ensures LeftCode(lens, s) < Pow2(MAX_BITS)
  {
    hide Pow2, Used, LeftCode, Code;
    var n, c := lens[s], Code(lens, s);
    IntervalInside(lens, s);
    LeftCodeIsCode(lens, s);
    Pow2Add(n, MAX_BITS - n);
    FactorFits(c, Pow2(n), Room(n));
  }

  /** A symbol matches exactly when its index is in the low bits of the window. */
  lemma MatchesIndex(lens: seq<nat>, s: nat, w: nat)
    requires s < |lens| && 0 < lens[s] <= MAX_BITS && !Oversubscribed(lens)
    ensures Matches(lens, s, w) <==> w % Pow2(lens[s]) == Index(lens, s)
  {
    var n := lens[s];
    IndexIsReversedCode(lens, s);
    CodeFits(lens, s);
    ReverseMod(n, n, w);
    ReverseTwice(n, w % Pow2(n));
    ReverseTwice(n, Code(lens, s));
  }
}
