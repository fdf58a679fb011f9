/**
 The two-level lookup tables of jar.c: main entries indexed by the next quickBits stream
 bits, and subtables for longer codes, found through their byte offset in the table.
 */
module HuffmanTable {
  import opened Types
  import opened Bits
  import opened Canonical

  const LONG_MASK: nat := 0x8000
  const HEADER_BYTES: nat := 4
  const ENTRY_BYTES: nat := 2

  datatype CodeTable = CodeTable(quickBits: nat, maxCodeLen: nat, entries: seq<nat>)

  /** A final entry: the symbol above four bits that hold the code length. */
  function Huff(lens: seq<nat>, s: nat): nat
    requires s < |lens|
  {
    16 * s + lens[s]
  }

  /** An entry that points to the subtable starting at the given entry. */
  function Pointer(index: nat): nat {
    LONG_MASK + HEADER_BYTES + ENTRY_BYTES * index
  }

  /** The entry an entry with the high bit set points to. */
  function Target(huff: nat): int {
    (huff - LONG_MASK - HEADER_BYTES) / ENTRY_BYTES
  }

  /** Where GET_HUFFMAN_ENTRY looks for input data `data`. */
  function EntryIndex(t: CodeTable, data: nat): int
    requires data % Pow2(t.quickBits) < |t.entries|
  {
    var j := data % Pow2(t.quickBits);
    if t.entries[j] < LONG_MASK then j
    else Target(t.entries[j]) + (data % Pow2(t.maxCodeLen)) / Pow2(t.quickBits)
  }

  ghost predicate InRange(t: CodeTable, data: nat) {
    data % Pow2(t.quickBits) < |t.entries| && 0 <= EntryIndex(t, data) < |t.entries|
  }

  /** The entry GET_HUFFMAN_ENTRY finds; 0 is its error case. */
  function Entry(t: CodeTable, data: nat): nat
    requires InRange(t, data)
  {
    t.entries[EntryIndex(t, data)]
  }

  /** For all input the table finds the symbol whose code comes next, if there is one. */
  ghost predicate Decodes(t: CodeTable, lens: seq<nat>) {
    && 0 < t.quickBits <= t.maxCodeLen <= MAX_BITS
    && (forall i | 0 <= i < |t.entries| :: t.entries[i] < 0x1_0000)
    && forall w: nat ::
         && InRange(t, w)
         && (forall s: nat | Matches(lens, s, w) :: Entry(t, w) == Huff(lens, s))
         && (Entry(t, w) != 0 ==> exists s: nat :: Matches(lens, s, w))
  }

  // ----- bit reversal by table -----

  const REVERSE5: seq<nat> := [
    0x0, 0x10, 0x8, 0x18, 0x4, 0x14, 0xc, 0x1c, 0x2, 0x12, 0xa, 0x1a, 0x6, 0x16, 0xe, 0x1e,
    0x1, 0x11, 0x9, 0x19, 0x5, 0x15, 0xd, 0x1d, 0x3, 0x13, 0xb, 0x1b, 0x7, 0x17, 0xf, 0x1f]

  /** REVERSE_15BITS; the three parts do not overlap, so `|` is addition. */
  function Reverse15(code: nat): nat
    requires code < 0x8000
  {
    REVERSE5[code % 32] * 1024 + REVERSE5[(code / 32) % 32] * 32 + REVERSE5[code / 1024]
  }

  /** Five bits in the opposite order, bit by bit. */
  function FiveBits(x: nat): nat {
    (x % 2) * 16 + (x / 2 % 2) * 8 + (x / 4 % 2) * 4 + (x / 8 % 2) * 2 + x / 16 % 2
  }

  lemma ReverseIsFiveBits(x: nat)
    ensures Reverse(5, x) == FiveBits(x)
  {
    var y := x / 2;
    var z := y / 2;
    assert y % 2 == x / 2 % 2 && z == x / 4 && z / 2 == x / 8 && z / 2 / 2 == x / 16;
    assert Pow2(0) == 1 && Pow2(1) == 2 && Pow2(2) == 4 && Pow2(3) == 8 && Pow2(4) == 16;
    assert Reverse(1, z / 2 / 2) == z / 2 / 2 % 2 + Reverse(0, z / 2 / 2 / 2);
    assert Reverse(2, z / 2) == (z / 2 % 2) * 2 + Reverse(1, z / 2 / 2);
    assert Reverse(3, z) == (z % 2) * 4 + Reverse(2, z / 2);
    assert Reverse(4, y) == (y % 2) * 8 + Reverse(3, z);
    assert Reverse(5, x) == (x % 2) * 16 + Reverse(4, y);
  }

  lemma Reverse5Table(x: nat)
    requires x < 32
    ensures Reverse(5, x) == REVERSE5[x]
  {
    ReverseIsFiveBits(x);
    FiveBitsTable(x);
  }

  lemma FiveBitsTable(x: nat)
    requires x < 32
    ensures FiveBits(x) == REVERSE5[x]
  {
    match x
    case 0 =>
    case 1 =>
    case 2 =>
    case 3 =>
    case 4 =>
    case 5 =>
    case 6 =>
    case 7 =>
    case 8 =>
    case 9 =>
    case 10 =>
    case 11 =>
    case 12 =>
    case 13 =>
    case 14 =>
    case 15 =>
    case 16 =>
    case 17 =>
    case 18 =>
    case 19 =>
    case 20 =>
    case 21 =>
    case 22 =>
    case 23 =>
    case 24 =>
    case 25 =>
    case 26 =>
    case 27 =>
    case 28 =>
    case 29 =>
    case 30 =>
    case _ => assert x == 31;
  }

  lemma Reverse15IsReverse(code: nat)
    requires code < 0x8000
    ensures Reverse15(code) == Reverse(MAX_BITS, code)
  {
    assert Pow2(5) == 32;
    Pow2Add(5, 5);
    ReverseSplit(5, 10, code);
    ReverseSplit(5, 5, code / 32);
    ReverseMod(5, 5, code);
    ReverseMod(5, 5, code / 32);
    CutProduct(code, 32, 32);
    Reverse5Table(code % 32);
    Reverse5Table((code / 32) % 32);
    Reverse5Table(code / 1024);
  }

  // ----- what the filling loop keeps -----

  predicate Short(lens: seq<nat>, s: nat, q: nat) {
    s < |lens| && 0 < lens[s] <= q
  }

  predicate Long(lens: seq<nat>, s: nat, q: nat) {
    s < |lens| && q < lens[s] <= MAX_BITS
  }

  /** The index of the code fits entry j of the main table, or entry i of subtable j. */
  predicate FitsMain(lens: seq<nat>, s: nat, q: nat, j: nat)
    requires q <= MAX_BITS
  {
    Short(lens, s, q) && j % Pow2(lens[s]) == Index(lens, s)
  }

  predicate FitsSub(lens: seq<nat>, s: nat, q: nat, j: nat, i: nat)
    requires q <= MAX_BITS
  {
    Long(lens, s, q) && Index(lens, s) % Pow2(q) == j && i % Pow2(lens[s] - q) == Index(lens, s) / Pow2(q)
  }

  /** Sizes and the ghost numbering of the subtables in the order they are made. */
  datatype Layout = Layout(q: nat, mx: nat, sub: map<nat, nat>) {
    predicate Valid() {
      0 < q <= mx <= MAX_BITS
    }
    function Main(): nat { Pow2(q) }
    function SubLength(): nat
      requires Valid()
    { Pow2(mx - q) }
    function Base(i: nat): nat
      requires Valid()
    { Main() + i * SubLength() }
    /** Entry i of the subtable for prefix j. */
    function At(j: nat, i: nat): nat
      requires Valid() && j in sub
    { Base(sub[j]) + i }
  }

  predicate NumbersSubtables(y: Layout, next: nat, size: nat)
    requires y.Valid()
  {
    && next <= size && next == y.Base(|y.sub|)
    && (forall j | j in y.sub :: j < y.Main() && y.sub[j] < |y.sub|)
    && (forall j, k | j in y.sub && k in y.sub :: y.sub[j] == y.sub[k] ==> j == k)
  }

  lemma AtInRange(y: Layout, next: nat, size: nat, j: nat, i: nat)
    requires y.Valid() && NumbersSubtables(y, next, size) && j in y.sub && i < y.SubLength()
    ensures y.Main() <= y.At(j, i) < next
  {
    Distributes(y.sub[j], 1, y.SubLength());
    ProductGrows(y.sub[j] + 1, |y.sub|, y.SubLength());
    ProductGrows(0, y.sub[j], y.SubLength());
  }

  predicate MainFilled(lens: seq<nat>, k: nat, y: Layout, e: seq<nat>)
    requires y.Valid()
  {
    && y.Main() <= |e|
    && (forall j, s: nat | 0 <= j < y.Main() && s < k && FitsMain(lens, s, y.q, j) :: e[j] == Huff(lens, s))
    && (forall j | 0 <= j < y.Main() && j in y.sub :: e[j] == Pointer(y.Base(y.sub[j])))
    && (forall j | 0 <= j < y.Main() && j !in y.sub && e[j] != 0 ::
          exists s: nat :: s < k && FitsMain(lens, s, y.q, j))
  }

  /** Some long code with a symbol below k starts with the prefix j. */
  predicate IsPrefix(lens: seq<nat>, k: nat, q: nat, j: nat)
    requires q <= MAX_BITS
  {
    exists s: nat :: s < k && Long(lens, s, q) && Index(lens, s) % Pow2(q) == j
  }

  /** What entry i of the subtable for j holds after the first k symbols. */
  predicate SubEntry(lens: seq<nat>, k: nat, q: nat, j: nat, i: nat, entry: nat)
    requires q <= MAX_BITS
  {
    && (forall s: nat | s < k && FitsSub(lens, s, q, j, i) :: entry == Huff(lens, s))
    && (entry != 0 ==> exists s: nat :: s < k && FitsSub(lens, s, q, j, i))
  }

  predicate SubsFilled(lens: seq<nat>, k: nat, y: Layout, e: seq<nat>, next: nat)
    requires y.Valid() && NumbersSubtables(y, next, |e|)
  {
    && (forall s: nat | s < k && Long(lens, s, y.q) :: Index(lens, s) % Pow2(y.q) in y.sub)
    && (forall j | j in y.sub :: IsPrefix(lens, k + 1, y.q, j))
    && (forall j, i: nat | j in y.sub && i < y.SubLength() ::
          y.At(j, i) < |e| && SubEntry(lens, k, y.q, j, i, e[y.At(j, i)]))
    && (forall x | next <= x < |e| :: e[x] == 0)
  }

  lemma MorePrefixes(lens: seq<nat>, k: nat, q: nat, j: nat)
    requires q <= MAX_BITS && IsPrefix(lens, k, q, j)
    ensures IsPrefix(lens, k + 1, q, j)
  {
    hide Pow2, Index;
    var s: nat :| s < k && Long(lens, s, q) && Index(lens, s) % Pow2(q) == j;
  }

  /** A symbol that does not fit leaves an entry as it is; one that fits fills it. */
  lemma NextEntry(lens: seq<nat>, k: nat, q: nat, j: nat, i: nat, entry: nat)
    requires q <= MAX_BITS && SubEntry(lens, k, q, j, i, entry)
    ensures !FitsSub(lens, k, q, j, i) ==> SubEntry(lens, k + 1, q, j, i, entry)
    ensures FitsSub(lens, k, q, j, i) && !Oversubscribed(lens) ==> SubEntry(lens, k + 1, q, j, i, Huff(lens, k))
  {
    hide Pow2, Index, Oversubscribed, Used;
    if FitsSub(lens, k, q, j, i) {
      if !Oversubscribed(lens) {
        forall s: nat | s < k && FitsSub(lens, s, q, j, i) ensures false {
          LongLongClash(lens, s, k, q, j, i);
        }
      }
    } else if entry != 0 {
      var s: nat :| s < k && FitsSub(lens, s, q, j, i);
    }
  }

  /** What holds after the first k symbols have been entered. */
  ghost predicate Filled(lens: seq<nat>, k: nat, y: Layout, e: seq<nat>, next: nat) {
    && y.Valid()
    && NumbersSubtables(y, next, |e|)
    && MainFilled(lens, k, y, e)
    && SubsFilled(lens, k, y, e, next)
  }

  // ----- why entries never collide -----

  lemma IndexClash(lens: seq<nat>, s: nat, t: nat, w: nat)
    requires !Oversubscribed(lens)
    requires s < |lens| && 0 < lens[s] <= MAX_BITS && w % Pow2(lens[s]) == Index(lens, s)
    requires t < |lens| && 0 < lens[t] <= MAX_BITS && w % Pow2(lens[t]) == Index(lens, t)
    ensures s == t
  {
    MatchesIndex(lens, s, w);
    MatchesIndex(lens, t, w);
    AtMostOneMatches(lens, s, t, w);
  }

  /** A long code's index does not start with a shorter code. */
  lemma ShortLongClash(lens: seq<nat>, s: nat, t: nat, q: nat, j: nat)
    requires !Oversubscribed(lens) && q <= MAX_BITS
    requires FitsMain(lens, s, q, j) && Long(lens, t, q)
    ensures Index(lens, t) % Pow2(q) != j
  {
    if Index(lens, t) % Pow2(q) == j {
      var w := Index(lens, t);
      ModMod(w, lens[s], q);
      IndexIsReversedCode(lens, t);
      DivModIs(w, Pow2(lens[t]), 0, w);
      IndexClash(lens, s, t, w);
    }
  }

  lemma SubIndex(lens: seq<nat>, s: nat, q: nat, j: nat, i: nat)
    requires q <= MAX_BITS && j < Pow2(q) && FitsSub(lens, s, q, j, i)
    ensures (j + Pow2(q) * i) % Pow2(lens[s]) == Index(lens, s)
  {
    hide Pow2, Index;
    var w, n := j + Pow2(q) * i, lens[s] - q;
    DivModIs(w, Pow2(q), i, j);
    CutTwice(w, q, n);
    assert q + n == lens[s];
    DivMod(Index(lens, s), Pow2(q));
  }

  lemma LongLongClash(lens: seq<nat>, s: nat, t: nat, q: nat, j: nat, i: nat)
    requires !Oversubscribed(lens) && q <= MAX_BITS && j < Pow2(q)
    requires FitsSub(lens, s, q, j, i) && FitsSub(lens, t, q, j, i)
    ensures s == t
  {
    hide Pow2, Index;
    SubIndex(lens, s, q, j, i);
    SubIndex(lens, t, q, j, i);
    IndexClash(lens, s, t, j + Pow2(q) * i);
  }

  /** Different subtables do not overlap. */
  lemma SubtablesApart(y: Layout, a: nat, b: nat, i: nat, k: nat)
    requires y.Valid() && a != b && i < y.SubLength() && k < y.SubLength()
    ensures y.Base(a) + i != y.Base(b) + k
  {
    var d := y.SubLength();
    Distributes(a, 1, d);
    Distributes(b, 1, d);
    ProductGrows(a + 1, b, d);
    ProductGrows(b + 1, a, d);
  }

  // ----- filling with a stride -----

  /** The entries that a stride from `from` hits. */
  predicate Hit(i: nat, from: nat, stride: nat)
    requires stride > 0
  {
    i % stride == from
  }

  /** The loops over j += stride. */
  method FillStride(entries: array<nat>, start: nat, from: nat, length: nat, stride: nat, value: nat)
    requires start + length <= entries.Length && from < stride
    modifies entries
    ensures entries[..] == Strided(old(entries[..]), start, from, length, stride, value)
  {
    hide Hit;
    var j := from;
    ghost var n: nat := 0;
    FirstHit(from, stride);
    while j < length
      invariant j >= from && Hit(j, from, stride)
      invariant forall x | 0 <= x < entries.Length ::
          entries[x] == if start <= x < start + length && x - start < j && Hit(x - start, from, stride) then value else old(entries[x])
    {
      NextHit(j, from, stride);
      entries[start + j] := value;
      j := j + stride;
    }
  }

  function Strided(e: seq<nat>, start: nat, from: nat, length: nat, stride: nat, value: nat): (r: seq<nat>)
    requires start + length <= |e| && from < stride
    ensures |r| == |e|
    ensures forall x | 0 <= x < |e| ::
              r[x] == if start <= x < start + length && Hit(x - start, from, stride) then value else e[x]
  {
    seq(|e|, x requires 0 <= x < |e| =>
      if start <= x < start + length && Hit(x - start, from, stride) then value else e[x])
  }

  lemma FirstHit(from: nat, stride: nat)
    requires from < stride
    ensures Hit(from, from, stride) && forall x: nat | x < from :: !Hit(x, from, stride)
  {
    DivModIs(from, stride, 0, from);
    forall x: nat | x < from ensures !Hit(x, from, stride) {
      DivModIs(x, stride, 0, x);
    }
  }

  /** After a hit the next one is a stride further on. */
  lemma NextHit(j: nat, from: nat, stride: nat)
    requires from < stride && Hit(j, from, stride)
    ensures Hit(j + stride, from, stride)
    ensures forall x: nat | j < x < j + stride :: !Hit(x, from, stride)
  {
    var n := j / stride;
    DivMod(j, stride);
    Distributes(n, 1, stride);
    DivModIs(j + stride, stride, n + 1, from);
    forall x: nat | j < x < j + stride ensures !Hit(x, from, stride) {
      NoHitBetween(j, x, n, from, stride);
    }
  }

  lemma NoHitBetween(j: nat, x: nat, n: nat, from: nat, stride: nat)
    requires from < stride && j == n * stride + from && j < x < j + stride
    ensures !Hit(x, from, stride)
  {
    var d := x - j;
    if from + d < stride {
      DivModIs(x, stride, n, from + d);
    } else {
      Distributes(n, 1, stride);
      DivModIs(x, stride, n + 1, from + d - stride);
    }
  }

  // ----- one symbol -----

  lemma SkipStep(lens: seq<nat>, k: nat, y: Layout, e: seq<nat>, next: nat)
    requires Filled(lens, k, y, e, next) && k < |lens| && lens[k] == 0
    ensures Filled(lens, k + 1, y, e, next)
  {
    hide Pow2, Index, SubEntry, IsPrefix, NumbersSubtables, MainFilled;
    SkipMain(lens, k, y, e);
    forall j | j in y.sub ensures IsPrefix(lens, k + 2, y.q, j) {
      MorePrefixes(lens, k + 1, y.q, j);
    }
    forall j, i: nat | j in y.sub && i < y.SubLength() ensures SubEntry(lens, k + 1, y.q, j, i, e[y.At(j, i)]) {
      NextEntry(lens, k, y.q, j, i, e[y.At(j, i)]);
    }
  }

  lemma SkipMain(lens: seq<nat>, k: nat, y: Layout, e: seq<nat>)
    requires y.Valid() && MainFilled(lens, k, y, e) && k < |lens| && lens[k] == 0
    ensures MainFilled(lens, k + 1, y, e)
  {
    hide Pow2, Index;
    forall j | 0 <= j < y.Main() && j !in y.sub && e[j] != 0
      ensures exists s: nat :: s < k + 1 && FitsMain(lens, s, y.q, j)
    {
      var s: nat :| s < k && FitsMain(lens, s, y.q, j);
    }
  }

  /** A short code goes to every main entry that ends in it. */
  lemma ShortStep(lens: seq<nat>, k: nat, y: Layout, e: seq<nat>, next: nat)
    requires Filled(lens, k, y, e, next) && !Oversubscribed(lens) && Short(lens, k, y.q) && |lens| <= 2048
    requires Index(lens, k) < Pow2(lens[k])
    ensures Filled(lens, k + 1, y, Strided(e, 0, Index(lens, k), y.Main(), Pow2(lens[k]), Huff(lens, k)), next)
  {
    FilledSizes(lens, k, y, e, next);
    hide Pow2, Index, MainFilled, SubsFilled, NumbersSubtables;
    var n := Strided(e, 0, Index(lens, k), y.Main(), Pow2(lens[k]), Huff(lens, k));
    ShortMain(lens, k, y, e, next);
    ShortLeavesSubs(lens, k, y, e, n, next);
  }

  lemma ShortMain(lens: seq<nat>, k: nat, y: Layout, e: seq<nat>, next: nat)
    requires Filled(lens, k, y, e, next) && !Oversubscribed(lens) && Short(lens, k, y.q)
    requires Index(lens, k) < Pow2(lens[k])
    ensures MainFilled(lens, k + 1, y, Strided(e, 0, Index(lens, k), y.Main(), Pow2(lens[k]), Huff(lens, k)))
  {
    hide Pow2, Index, NumbersSubtables, Oversubscribed;
    var n := Strided(e, 0, Index(lens, k), y.Main(), Pow2(lens[k]), Huff(lens, k));
    forall j, s: nat | 0 <= j < y.Main() && s < k && FitsMain(lens, s, y.q, j) ensures n[j] == Huff(lens, s) {
      if j % Pow2(lens[k]) == Index(lens, k) {
        IndexClash(lens, s, k, j);
      }
    }
    forall j | 0 <= j < y.Main() && j in y.sub ensures n[j] == e[j] {
      if FitsMain(lens, k, y.q, j) {
        var s: nat :| s <= k && Long(lens, s, y.q) && Index(lens, s) % Pow2(y.q) == j;
        ShortLongClash(lens, k, s, y.q, j);
      }
    }
    forall j | 0 <= j < y.Main() && j !in y.sub && n[j] != 0
      ensures exists s: nat :: s < k + 1 && FitsMain(lens, s, y.q, j)
    {
      if j % Pow2(lens[k]) == Index(lens, k) {
        assert FitsMain(lens, k, y.q, j);
      } else {
        var s: nat :| s < k && FitsMain(lens, s, y.q, j);
      }
    }
  }

  lemma ShortLeavesSubs(lens: seq<nat>, k: nat, y: Layout, e: seq<nat>, n: seq<nat>, next: nat)
    requires Filled(lens, k, y, e, next) && Short(lens, k, y.q)
    requires |n| == |e| && forall x | y.Main() <= x < |e| :: n[x] == e[x]
    ensures SubsFilled(lens, k + 1, y, n, next)
  {
    FilledSizes(lens, k, y, e, next);
    hide Pow2, Index, SubEntry, IsPrefix, NumbersSubtables, MainFilled;
    forall j | j in y.sub ensures IsPrefix(lens, k + 2, y.q, j) {
      MorePrefixes(lens, k + 1, y.q, j);
    }
    forall j, i: nat | j in y.sub && i < y.SubLength() ensures SubEntry(lens, k + 1, y.q, j, i, n[y.At(j, i)]) {
      AtInRange(y, next, |e|, j, i);
      NextEntry(lens, k, y.q, j, i, e[y.At(j, i)]);
    }
  }

  function WithSubtable(y: Layout, prefix: nat): Layout {
    y.(sub := y.sub[prefix := |y.sub|])
  }

  /** The first long code with a prefix makes a subtable for it. */
  lemma NewSubtable(lens: seq<nat>, k: nat, y: Layout, e: seq<nat>, next: nat, p: nat)
    requires Filled(lens, k, y, e, next) && !Oversubscribed(lens) && Long(lens, k, y.q)
    requires p == Index(lens, k) % Pow2(y.q) && p !in y.sub && next + y.SubLength() <= |e|
    ensures p < |e| && e[p] == 0
    ensures Filled(lens, k, WithSubtable(y, p), e[p := Pointer(next)], next + y.SubLength())
  {
    hide Pow2, Index, MainFilled, SubsFilled, NumbersSubtables, Pointer;
    NextIsBase(y, next, |e|);
    NewSubtableMain(lens, k, y, e, next, p);
    NewSubtableNumbers(y, next, |e|, p);
    NewSubtableEmpty(lens, k, y, e, next, p);
  }

  lemma NextIsBase(y: Layout, next: nat, size: nat)
    requires y.Valid() && NumbersSubtables(y, next, size)
    ensures next == y.Base(|y.sub|)
  {
  }

  lemma NewSubtableNumbers(y: Layout, next: nat, size: nat, p: nat)
    requires y.Valid() && NumbersSubtables(y, next, size) && p !in y.sub && p < y.Main()
    requires next + y.SubLength() <= size
    ensures NumbersSubtables(WithSubtable(y, p), next + y.SubLength(), size)
  {
    hide Pow2;
    var z := WithSubtable(y, p);
    Distributes(|y.sub|, 1, y.SubLength());
    assert |z.sub| == |y.sub| + 1;
  }

  lemma NewSubtableMain(lens: seq<nat>, k: nat, y: Layout, e: seq<nat>, next: nat, p: nat)
    requires y.Valid() && MainFilled(lens, k, y, e) && !Oversubscribed(lens) && Long(lens, k, y.q)
    requires p == Index(lens, k) % Pow2(y.q) && p !in y.sub && next == y.Base(|y.sub|)
    ensures p < y.Main() && e[p] == 0
    ensures MainFilled(lens, k, WithSubtable(y, p), e[p := Pointer(next)])
  {
    hide Pow2, Index;
    if e[p] != 0 {
      var s: nat :| s < k && FitsMain(lens, s, y.q, p);
      ShortLongClash(lens, s, k, y.q, p);
    }
    var z, n := WithSubtable(y, p), e[p := Pointer(next)];
    forall j, s: nat | 0 <= j < y.Main() && s < k && FitsMain(lens, s, y.q, j) ensures n[j] == Huff(lens, s) {
      if j == p { ShortLongClash(lens, s, k, y.q, p); }
    }
    forall j | 0 <= j < y.Main() && j !in z.sub && n[j] != 0
      ensures exists s: nat :: s < k && FitsMain(lens, s, y.q, j)
    {
      assert n[j] == e[j] && j !in y.sub;
    }
  }

  /** An entry of an old subtable does not move; those of the new one are empty. */
  lemma NewSubtableEntry(lens: seq<nat>, k: nat, y: Layout, e: seq<nat>, next: nat, p: nat, j: nat, i: nat)
    requires y.Valid() && NumbersSubtables(y, next, |e|) && SubsFilled(lens, k, y, e, next)
    requires p !in y.sub && p < y.Main() <= next && next + y.SubLength() <= |e|
    requires (j == p || j in y.sub) && i < y.SubLength()
    ensures var z, n := WithSubtable(y, p), e[p := Pointer(next)];
            z.At(j, i) < |n| && SubEntry(lens, k, y.q, j, i, n[z.At(j, i)])
  {
    hide Pow2, Index, FitsSub, Pointer, IsPrefix, SubEntry;
    var z, n := WithSubtable(y, p), e[p := Pointer(next)];
    if j != p {
      AtInRange(y, next, |e|, j, i);
      assert n[z.At(j, i)] == e[y.At(j, i)];
    } else {
      assert z.At(j, i) == next + i && n[next + i] == 0;
      NothingFits(lens, k, y, e, next, p, i);
    }
  }

  lemma NothingFits(lens: seq<nat>, k: nat, y: Layout, e: seq<nat>, next: nat, p: nat, i: nat)
    requires y.Valid() && NumbersSubtables(y, next, |e|) && SubsFilled(lens, k, y, e, next) && p !in y.sub
    ensures SubEntry(lens, k, y.q, p, i, 0)
  {
    hide Pow2, Index, FitsSub, NumbersSubtables, IsPrefix;
    forall s: nat | s < k && FitsSub(lens, s, y.q, p, i) ensures false {
      FitsItsPrefix(lens, s, y.q, p, i);
    }
  }

  lemma NewSubtableEmpty(lens: seq<nat>, k: nat, y: Layout, e: seq<nat>, next: nat, p: nat)
    requires Filled(lens, k, y, e, next) && Long(lens, k, y.q)
    requires p == Index(lens, k) % Pow2(y.q) && p !in y.sub && p < y.Main() && next + y.SubLength() <= |e|
    requires NumbersSubtables(WithSubtable(y, p), next + y.SubLength(), |e|)
    ensures SubsFilled(lens, k, WithSubtable(y, p), e[p := Pointer(next)], next + y.SubLength())
  {
    hide Pow2, Index, NumbersSubtables, MainFilled, FitsSub, Pointer, SubEntry, IsPrefix;
    FilledSizes(lens, k, y, e, next);
    NewSubtablePrefixes(lens, k, y, p);
    hide Long;
    var z, n := WithSubtable(y, p), e[p := Pointer(next)];
    forall j, i: nat | j in z.sub && i < y.SubLength()
      ensures z.At(j, i) < |n| && SubEntry(lens, k, y.q, j, i, n[z.At(j, i)])
    {
      NewSubtableEntry(lens, k, y, e, next, p, j, i);
    }
  }

  lemma NewSubtablePrefixes(lens: seq<nat>, k: nat, y: Layout, p: nat)
    requires y.Valid() && Long(lens, k, y.q) && p == Index(lens, k) % Pow2(y.q)
    requires forall j | j in y.sub :: IsPrefix(lens, k + 1, y.q, j)
    requires forall s: nat | s < k && Long(lens, s, y.q) :: Index(lens, s) % Pow2(y.q) in y.sub
    ensures forall j | j in WithSubtable(y, p).sub :: IsPrefix(lens, k + 1, y.q, j)
    ensures forall s: nat | s < k && Long(lens, s, y.q) :: Index(lens, s) % Pow2(y.q) in WithSubtable(y, p).sub
  {
    hide Pow2, Index;
  }

  lemma FitsItsPrefix(lens: seq<nat>, s: nat, q: nat, j: nat, i: nat)
    requires q <= MAX_BITS && FitsSub(lens, s, q, j, i)
    ensures Long(lens, s, q) && Index(lens, s) % Pow2(q) == j
  {
  }

  /** A long code goes to every entry of its subtable whose number ends in its suffix. */
  lemma LongStep(lens: seq<nat>, k: nat, y: Layout, e: seq<nat>, next: nat, p: nat, suffix: nat)
    requires Filled(lens, k, y, e, next) && !Oversubscribed(lens) && Long(lens, k, y.q)
    requires p == Index(lens, k) % Pow2(y.q) && p in y.sub
    requires suffix == Index(lens, k) / Pow2(y.q) && suffix < Pow2(lens[k] - y.q)
    requires y.Base(y.sub[p]) + y.SubLength() <= |e|
    ensures Filled(lens, k + 1, y, Strided(e, y.Base(y.sub[p]), suffix, y.SubLength(), Pow2(lens[k] - y.q), Huff(lens, k)), next)
  {
    hide Pow2, Index;
    var b := y.Base(y.sub[p]);
    var n := Strided(e, b, suffix, y.SubLength(), Pow2(lens[k] - y.q), Huff(lens, k));
    ProductGrows(0, y.sub[p], y.SubLength());
    assert y.Main() <= b;
    Distributes(y.sub[p], 1, y.SubLength());
    ProductGrows(y.sub[p] + 1, |y.sub|, y.SubLength());
    assert b + y.SubLength() <= next;
    assert forall x | 0 <= x < y.Main() :: n[x] == e[x];
    MainUnchanged(lens, k, y, e, n);
    LongStepSubs(lens, k, y, e, next, p, suffix, n);
  }

  lemma MainUnchanged(lens: seq<nat>, k: nat, y: Layout, e: seq<nat>, n: seq<nat>)
    requires y.Valid() && MainFilled(lens, k, y, e) && Long(lens, k, y.q)
    requires |n| == |e| && forall x | 0 <= x < y.Main() :: n[x] == e[x]
    ensures MainFilled(lens, k + 1, y, n)
  {
    hide Pow2, Index;
    forall j | 0 <= j < y.Main() && j !in y.sub && n[j] != 0
      ensures exists s: nat :: s < k + 1 && FitsMain(lens, s, y.q, j)
    {
      var s: nat :| s < k && FitsMain(lens, s, y.q, j);
    }
  }

  lemma LongEntry(lens: seq<nat>, k: nat, y: Layout, e: seq<nat>, next: nat, p: nat, suffix: nat, n: seq<nat>, j: nat, i: nat)
    requires y.Valid() && NumbersSubtables(y, next, |e|) && Long(lens, k, y.q)
    requires p == Index(lens, k) % Pow2(y.q) && p in y.sub && j in y.sub && i < y.SubLength()
    requires suffix == Index(lens, k) / Pow2(y.q) && suffix < Pow2(lens[k] - y.q)
    requires y.Base(y.sub[p]) + y.SubLength() <= next
    requires n == Strided(e, y.Base(y.sub[p]), suffix, y.SubLength(), Pow2(lens[k] - y.q), Huff(lens, k))
    ensures y.At(j, i) < next <= |n|
    ensures n[y.At(j, i)] == if FitsSub(lens, k, y.q, j, i) then Huff(lens, k) else e[y.At(j, i)]
  {
    hide Pow2, Index;
    AtInRange(y, next, |e|, j, i);
    if j != p {
      OtherSubtable(y, p, j, i);
    }
  }

  /** The entries not yet given to a subtable are untouched. */
  lemma LongTail(lens: seq<nat>, k: nat, y: Layout, e: seq<nat>, next: nat, p: nat, suffix: nat, n: seq<nat>)
    requires Filled(lens, k, y, e, next) && Long(lens, k, y.q) && p in y.sub
    requires suffix < Pow2(lens[k] - y.q) && y.Base(y.sub[p]) + y.SubLength() <= next
    requires n == Strided(e, y.Base(y.sub[p]), suffix, y.SubLength(), Pow2(lens[k] - y.q), Huff(lens, k))
    ensures |n| == |e| && forall x | next <= x < |e| :: n[x] == 0
  {
    hide Pow2, Index, MainFilled, NumbersSubtables, SubEntry, IsPrefix;
  }

  lemma LongStepSubs(lens: seq<nat>, k: nat, y: Layout, e: seq<nat>, next: nat, p: nat, suffix: nat, n: seq<nat>)
    requires Filled(lens, k, y, e, next) && !Oversubscribed(lens) && Long(lens, k, y.q)
    requires p == Index(lens, k) % Pow2(y.q) && p in y.sub
    requires suffix == Index(lens, k) / Pow2(y.q) && suffix < Pow2(lens[k] - y.q)
    requires y.Base(y.sub[p]) + y.SubLength() <= next
    requires n == Strided(e, y.Base(y.sub[p]), suffix, y.SubLength(), Pow2(lens[k] - y.q), Huff(lens, k))
    ensures SubsFilled(lens, k + 1, y, n, next)
  {
    FilledSizes(lens, k, y, e, next);
    hide Pow2, Index, Strided, MainFilled, NumbersSubtables, SubEntry, IsPrefix, FitsSub, Oversubscribed, Huff;
    LongTail(lens, k, y, e, next, p, suffix, n);
    forall j | j in y.sub ensures IsPrefix(lens, k + 2, y.q, j) {
      MorePrefixes(lens, k + 1, y.q, j);
    }
    forall j, i: nat | j in y.sub && i < y.SubLength()
      ensures y.At(j, i) < |n| && SubEntry(lens, k + 1, y.q, j, i, n[y.At(j, i)])
    {
      LongEntry(lens, k, y, e, next, p, suffix, n, j, i);
      NextEntry(lens, k, y.q, j, i, e[y.At(j, i)]);
    }
  }

  lemma OtherSubtable(y: Layout, p: nat, j: nat, i: nat)
    requires y.Valid() && p in y.sub && j in y.sub && y.sub[p] != y.sub[j] && i < y.SubLength()
    ensures !(y.Base(y.sub[p]) <= y.At(j, i) < y.Base(y.sub[p]) + y.SubLength())
  {
    var b := y.Base(y.sub[p]);
    if b <= y.At(j, i) < b + y.SubLength() {
      SubtablesApart(y, y.sub[p], y.sub[j], y.At(j, i) - b, i);
    }
  }

  // ----- room for the subtables -----

  /** The top quickBits bits of a left-justified code. */
  function Top(lens: seq<nat>, s: nat, q: nat): nat
    requires s < |lens| && 0 < lens[s] <= MAX_BITS && q <= MAX_BITS
  {
    DivMod(LeftCode(lens, s), Room(q));
    LeftCode(lens, s) / Room(q)
  }

  lemma PrefixIsReversedTop(lens: seq<nat>, s: nat, q: nat)
    requires s < |lens| && 0 < lens[s] <= MAX_BITS && q <= MAX_BITS
    ensures Index(lens, s) % Pow2(q) == Reverse(q, Top(lens, s, q))
  {
    hide Pow2, Reverse;
    var c := LeftCode(lens, s);
    ReverseSplit(MAX_BITS - q, q, c);
    DivModIs(Reverse(MAX_BITS, c), Pow2(q), Reverse(MAX_BITS - q, c), Reverse(q, c / Pow2(MAX_BITS - q)));
  }

  /** The room of shorter codes is a whole number of rooms of length q. */
  lemma {:induction false} UsedIsMultiple(lens: seq<nat>, n: nat, q: nat) returns (m: nat)
    requires n <= q <= MAX_BITS
    ensures Used(lens, n) == m * Room(q)
  {
    if n == 0 {
      m := 0;
    } else {
      var r := UsedIsMultiple(lens, n - 1, q);
      Pow2Add(q - n, MAX_BITS - q);
      m := r + Count(lens, n) * Pow2(q - n);
      Associates(Count(lens, n), Pow2(q - n), Room(q));
      Distributes(r, Count(lens, n) * Pow2(q - n), Room(q));
    }
  }

  /** Codes of the lengths above a and up to b. */
  function CountBetween(lens: seq<nat>, a: nat, b: nat): nat {
    if b <= a then 0 else CountBetween(lens, a, b - 1) + Count(lens, b)
  }

  lemma {:induction false} CountBetweenGrows(lens: seq<nat>, a: nat, b: nat)
    requires lens != []
    ensures var last := lens[|lens| - 1];
            CountBetween(lens, a, b) == CountBetween(lens[..|lens| - 1], a, b) + if a < last <= b then 1 else 0
  {
    if b > a {
      CountBetweenGrows(lens, a, b - 1);
    }
  }

  lemma {:induction false} CountBetweenBound(lens: seq<nat>, a: nat, b: nat)
    ensures CountBetween(lens, a, b) <= |lens|
  {
    if lens == [] {
      CountBetweenEmpty(a, b);
    } else {
      CountBetweenGrows(lens, a, b);
      CountBetweenBound(lens[..|lens| - 1], a, b);
    }
  }

  lemma {:induction false} CountBetweenEmpty(a: nat, b: nat)
    ensures CountBetween([], a, b) == 0
  {
    if b > a {
      CountBetweenEmpty(a, b - 1);
    }
  }

  lemma HalfRoom(before: int, between: int, c: nat, room: nat, top: nat)
    requires 2 * before <= between * (2 * top) && room <= top
    ensures 2 * (before + c * room) <= (between + c) * (2 * top)
  {
    ProductGrows(room, top, c);
    Distributes(between, c, 2 * top);
    Associates(c, 2, top);
  }

  /** Long codes take at most half a main entry's room each. */
  lemma {:induction false} LongCodesUse(lens: seq<nat>, q: nat, n: nat)
    requires q <= n <= MAX_BITS && q < MAX_BITS
    ensures 2 * (Used(lens, n) - Used(lens, q)) <= CountBetween(lens, q, n) * Room(q)
  {
    if n > q {
      LongCodesUse(lens, q, n - 1);
      Pow2Monotone(MAX_BITS - n, MAX_BITS - q - 1);
      HalfRoom(Used(lens, n - 1) - Used(lens, q), CountBetween(lens, q, n - 1), Count(lens, n), Room(n), Room(q + 1));
    } else {
      assert CountBetween(lens, q, n) == 0;
    }
  }

  /** The first top value that a long code can have. */
  function FirstTop(lens: seq<nat>, q: nat): nat
    requires q <= MAX_BITS
  {
    DivMod(Used(lens, q), Room(q));
    Used(lens, q) / Room(q)
  }

  lemma TopBounds(lens: seq<nat>, s: nat, q: nat)
    requires Long(lens, s, q) && !Oversubscribed(lens)
    ensures FirstTop(lens, q) <= Top(lens, s, q) < Pow2(q)
    ensures 2 * Top(lens, s, q) < 2 * FirstTop(lens, q) + |lens|
  {
    hide Pow2, LeftCode;
    var c, d := LeftCode(lens, s), Room(q);
    var m := UsedIsMultiple(lens, q, q);
    DivModIs(Used(lens, q), d, m, 0);
    LeftCodeStart(lens, s);
    UsedMonotone(lens, q, lens[s] - 1);
    IntervalInside(lens, s);
    LongCodesUse(lens, q, MAX_BITS);
    CountBetweenBound(lens, q, MAX_BITS);
    ProductGrows(CountBetween(lens, q, MAX_BITS), |lens|, d);
    var t := c / d;
    DivMod(c, d);
    Distributes(t, 1, d);
    ProductGrows(t + 1, m, d);
    Pow2Add(q, MAX_BITS - q);
    ProductGrows(Pow2(q), t, d);
    assert Used(lens, MAX_BITS) <= Pow2(q) * d;
    Distributes(2 * m, |lens|, d);
    Associates(2, m, d);
    Associates(2, t, d);
    ProductGrows(2 * m + |lens|, 2 * t, d);
  }

  lemma LeftCodeStart(lens: seq<nat>, s: nat)
    requires s < |lens| && 0 < lens[s] <= MAX_BITS
    ensures LeftCode(lens, s) >= Used(lens, lens[s] - 1)
  {
    ProductGrows(0, Rank(lens, s), Room(lens[s]));
  }

  predicate IsImage(q: nat, lo: nat, hi: nat, j: nat, x: nat) {
    lo <= x < hi && Reverse(q, x) == j
  }

  lemma {:induction false} ImageSize(q: nat, lo: nat, hi: nat, image: set<nat>)
    requires lo <= hi && forall j | j in image :: exists x: nat :: IsImage(q, lo, hi, j, x)
    ensures |image| <= hi - lo
  {
    if lo == hi {
      assert image == {};
    } else {
      var h: nat := hi - 1;
      var last := Reverse(q, h);
      forall j | j in image - {last} ensures exists x: nat :: IsImage(q, lo, h, j, x) {
        var x: nat :| IsImage(q, lo, hi, j, x);
        assert IsImage(q, lo, h, j, x);
      }
      ImageSize(q, lo, h, image - {last});
      if last in image { assert image == (image - {last}) + {last}; }
    }
  }

  /** The subtables and one more prefix still have distinct top values in range. */
  lemma SubtableRoom(lens: seq<nat>, k: nat, y: Layout, e: seq<nat>, next: nat)
    requires Filled(lens, k, y, e, next) && !Oversubscribed(lens) && Long(lens, k, y.q)
    ensures FirstTop(lens, y.q) < Pow2(y.q)
    ensures var prefixes := y.sub.Keys + {Index(lens, k) % Pow2(y.q)};
            |prefixes| <= Pow2(y.q) - FirstTop(lens, y.q) && |prefixes| <= (|lens| + 1) / 2
  {
    hide Pow2, Reverse, Index, MainFilled, Top, FirstTop;
    var q, lo := y.q, FirstTop(lens, y.q);
    var p := Index(lens, k) % Pow2(q);
    var prefixes := y.sub.Keys + {p};
    TopBounds(lens, k, q);
    var half := lo + (|lens| + 1) / 2;
    forall j | j in prefixes
      ensures exists x: nat :: IsImage(q, lo, Pow2(q), j, x)
      ensures exists x: nat :: IsImage(q, lo, half, j, x)
    {
      var s: nat :| s <= k && Long(lens, s, q) && Index(lens, s) % Pow2(q) == j;
      PrefixIsReversedTop(lens, s, q);
      TopBounds(lens, s, q);
      assert IsImage(q, lo, Pow2(q), j, Top(lens, s, q));
      assert IsImage(q, lo, half, j, Top(lens, s, q));
    }
    ImageSize(q, lo, Pow2(q), prefixes);
    ImageSize(q, lo, half, prefixes);
  }

  // ----- making the table -----

  method CountLengths(codelen: seq<nat>) returns (bitLengthCount: array<nat>)
    requires Lengths(codelen)
    ensures fresh(bitLengthCount) && bitLengthCount.Length == MAX_BITS + 1
    ensures forall n | 0 <= n <= MAX_BITS :: bitLengthCount[n] == Count(codelen, n)
  {
    bitLengthCount := new nat[MAX_BITS + 1](_ => 0);
    var p := 0;
    assert codelen[..0] == [];
    while p < |codelen|
      invariant p <= |codelen|
      invariant forall n | 0 <= n <= MAX_BITS :: bitLengthCount[n] == Count(codelen[..p], n)
    {
      assert codelen[..p + 1][..p] == codelen[..p];
      bitLengthCount[codelen[p]] := bitLengthCount[codelen[p]] + 1;
      p := p + 1;
    }
    assert codelen[..|codelen|] == codelen;
  }

  /** The first left-justified code of every length, and the greatest length in use. */
  method FirstCodes(codelen: seq<nat>, bitLengthCount: array<nat>) returns (codes: array<nat>, maxCodeLen: nat)
    requires Lengths(codelen) && bitLengthCount.Length == MAX_BITS + 1
    requires forall n | 0 <= n <= MAX_BITS :: bitLengthCount[n] == Count(codelen, n)
    ensures fresh(codes) && codes.Length == MAX_BITS + 1 && maxCodeLen <= MAX_BITS
    ensures forall n | 1 <= n <= MAX_BITS :: codes[n] == Used(codelen, n - 1)
    ensures forall n | maxCodeLen < n <= MAX_BITS :: Count(codelen, n) == 0
    ensures maxCodeLen > 0 ==> Count(codelen, maxCodeLen) > 0
  {
    codes := new nat[MAX_BITS + 1](_ => 0);
    maxCodeLen := 0;
    var code, bits := 0, 1;
    while bits <= MAX_BITS
      invariant 1 <= bits <= MAX_BITS + 1 && maxCodeLen < bits
      invariant code == Used(codelen, bits - 1)
      invariant forall n | 1 <= n < bits :: codes[n] == Used(codelen, n - 1)
      invariant forall n | maxCodeLen < n < bits :: Count(codelen, n) == 0
      invariant maxCodeLen > 0 ==> Count(codelen, maxCodeLen) > 0
    {
      codes[bits] := code;
      if bitLengthCount[bits] != 0 {
        maxCodeLen := bits;
        code := code + bitLengthCount[bits] * Pow2(MAX_BITS - bits);
      }
      bits := bits + 1;
    }
  }

  lemma {:induction false} CountZero(lens: seq<nat>, n: nat)
    ensures Count(lens, n) == 0 <==> forall s | 0 <= s < |lens| :: lens[s] != n
  {
    if lens != [] {
      CountZero(lens[..|lens| - 1], n);
    }
  }

  lemma {:induction false} CountAll(lens: seq<nat>, n: nat)
    ensures Count(lens, n) <= |lens|
    ensures Count(lens, n) == |lens| <==> forall s | 0 <= s < |lens| :: lens[s] == n
  {
    if lens != [] {
      CountAll(lens[..|lens| - 1], n);
    }
  }

  /** Subtable offsets of tables with at most |lens| symbols fit in 15 bits. */
  predicate OffsetsFit(symbols: nat, maxQuickBits: nat) {
    && 0 < maxQuickBits <= MAX_BITS && symbols <= 2048
    && HEADER_BYTES + ENTRY_BYTES * (Pow2(maxQuickBits) + ((symbols + 1) / 2) * Pow2(MAX_BITS - maxQuickBits)) <= LONG_MASK
  }

  ghost predicate RoomForSubtables(lens: seq<nat>, y: Layout, size: nat) {
    && y.Valid()
    && (forall s | 0 <= s < |lens| :: lens[s] <= y.mx)
    && (y.q < y.mx ==> FirstTop(lens, y.q) <= Pow2(y.q) && size == y.Base(Pow2(y.q) - FirstTop(lens, y.q)))
  }

  lemma PrefixEntry(lens: seq<nat>, k: nat, y: Layout, e: seq<nat>, next: nat)
    requires Filled(lens, k, y, e, next) && !Oversubscribed(lens) && Long(lens, k, y.q)
    ensures var p := Index(lens, k) % Pow2(y.q);
            p < |e| && (e[p] == 0 <==> p !in y.sub)
  {
    hide Pow2, Index;
    var p := Index(lens, k) % Pow2(y.q);
    if p !in y.sub {
      NextIsBase(y, next, |e|);
      NewSubtableMain(lens, k, y, e, next, p);
    }
  }

  lemma SubtableCount(lens: seq<nat>, k: nat, y: Layout, e: seq<nat>, next: nat)
    requires Filled(lens, k, y, e, next) && !Oversubscribed(lens) && Long(lens, k, y.q)
    requires Index(lens, k) % Pow2(y.q) !in y.sub
    ensures FirstTop(lens, y.q) <= Pow2(y.q)
    ensures |y.sub| + 1 <= Pow2(y.q) - FirstTop(lens, y.q) && |y.sub| + 1 <= (|lens| + 1) / 2
  {
    hide Pow2, Index, Filled, FirstTop;
    SubtableRoom(lens, k, y, e, next);
    var p := Index(lens, k) % Pow2(y.q);
    assert |y.sub.Keys + {p}| == |y.sub| + 1;
  }

  lemma NumbersFit(main: nat, n: nat, d: nat, tables: nat, half: nat, most: nat)
    requires 0 < d <= most && n + 1 <= tables && n + 1 <= half
    ensures main + n * d + d <= main + tables * d
    ensures main + n * d < main + half * most
  {
    Distributes(n, 1, d);
    ProductGrows(n + 1, tables, d);
    ProductGrows(n + 1, half, d);
    ProductGrows(d, most, half);
  }

  /** There is an unused subtable left, and its offset fits. */
  lemma NextSubtableFits(lens: seq<nat>, k: nat, y: Layout, e: seq<nat>, next: nat)
    requires Filled(lens, k, y, e, next) && !Oversubscribed(lens) && Long(lens, k, y.q)
    requires RoomForSubtables(lens, y, |e|) && OffsetsFit(|lens|, y.q)
    requires Index(lens, k) % Pow2(y.q) !in y.sub
    ensures next + y.SubLength() <= |e|
    ensures Pointer(next) < 0x1_0000
  {
    hide Pow2, Index, MainFilled, SubsFilled, FirstTop;
    SubtableCount(lens, k, y, e, next);
    NextIsBase(y, next, |e|);
    Pow2Monotone(y.mx - y.q, MAX_BITS - y.q);
    NumbersFit(Pow2(y.q), |y.sub|, y.SubLength(), Pow2(y.q) - FirstTop(lens, y.q), (|lens| + 1) / 2, Pow2(MAX_BITS - y.q));
  }

  /** Enter one symbol: the body of the second loop of makeCodeTable. */
  method EnterSymbol(lens: seq<nat>, k: nat, entries: array<nat>, code: nat, next: nat, ghost y: Layout, q: nat, longTableLength: nat)
    returns (newNext: nat, ghost z: Layout)
    requires Filled(lens, k, y, entries[..], next) && !Oversubscribed(lens) && Lengths(lens) && k < |lens| && lens[k] > 0
    requires RoomForSubtables(lens, y, entries.Length) && |lens| <= 2048 && (y.q < y.mx ==> OffsetsFit(|lens|, y.q))
    requires forall x | 0 <= x < entries.Length :: entries[x] < 0x1_0000
    requires code == LeftCode(lens, k) && q == y.q && (y.q < y.mx ==> longTableLength == y.SubLength())
    modifies entries
    ensures Filled(lens, k + 1, z, entries[..], newNext)
    ensures z.q == y.q && z.mx == y.mx
    ensures forall x | 0 <= x < entries.Length :: entries[x] < 0x1_0000
  {
    hide Pow2, Index, Filled, LeftCode;
    var bits := lens[k];
    CodeFits(lens, k);
    LeftCodeBelow(lens, k);
    Reverse15IsReverse(code);
    IndexIsReversedCode(lens, k);
    IndexIs(lens, k);
    var reversed := Reverse15(code);
    var huff := k * 16 + bits;
    if bits <= q {
      newNext, z := next, y;
      FilledSizes(lens, k, y, entries[..], next);
      ShortStep(lens, k, y, entries[..], next);
      FillStride(entries, 0, reversed, Pow2(q), Pow2(bits), huff);
    } else {
      newNext, z := EnterLongSymbol(lens, k, entries, reversed, huff, next, y, q, longTableLength);
    }
  }

  method EnterLongSymbol(lens: seq<nat>, k: nat, entries: array<nat>, reversed: nat, huff: nat, next: nat, ghost y: Layout, q: nat, longTableLength: nat)
    returns (newNext: nat, ghost z: Layout)
    requires Filled(lens, k, y, entries[..], next) && !Oversubscribed(lens) && Long(lens, k, y.q)
    requires RoomForSubtables(lens, y, entries.Length) && OffsetsFit(|lens|, y.q)
    requires forall x | 0 <= x < entries.Length :: entries[x] < 0x1_0000
    requires reversed == Index(lens, k) < Pow2(lens[k]) && q == y.q && longTableLength == y.SubLength() && huff == Huff(lens, k) < 0x1_0000
    modifies entries
    ensures Filled(lens, k + 1, z, entries[..], newNext)
    ensures z.q == y.q && z.mx == y.mx
    ensures forall x | 0 <= x < entries.Length :: entries[x] < 0x1_0000
  {
    hide Pow2, Index, Filled, LeftCode, Target, Pointer, RoomForSubtables, OffsetsFit, Strided, Oversubscribed, Huff;
    var prefixCode, suffixCode := reversed % Pow2(q), reversed / Pow2(q);
    newNext, z := SubtableFor(lens, k, entries, prefixCode, next, y, longTableLength);
    SuffixFits(reversed, q, lens[k]);
    SubtableStart(lens, k, z, entries[..], newNext, prefixCode);
    var thisLongTable := Target(entries[prefixCode]);
    LongStep(lens, k, z, entries[..], newNext, prefixCode, suffixCode);
    FillStride(entries, thisLongTable, suffixCode, longTableLength, Pow2(lens[k] - q), huff);
  }

  /** Make the subtable for a prefix unless it is there already. */
  method SubtableFor(lens: seq<nat>, k: nat, entries: array<nat>, prefixCode: nat, next: nat, ghost y: Layout, longTableLength: nat)
    returns (newNext: nat, ghost z: Layout)
    requires Filled(lens, k, y, entries[..], next) && !Oversubscribed(lens) && Long(lens, k, y.q)
    requires RoomForSubtables(lens, y, entries.Length) && OffsetsFit(|lens|, y.q)
    requires forall x | 0 <= x < entries.Length :: entries[x] < 0x1_0000
    requires prefixCode == Index(lens, k) % Pow2(y.q) && longTableLength == y.SubLength()
    modifies entries
    ensures Filled(lens, k, z, entries[..], newNext)
    ensures z.q == y.q && z.mx == y.mx && prefixCode in z.sub
    ensures forall x | 0 <= x < entries.Length :: entries[x] < 0x1_0000
  {
    hide Pow2, Index, Filled, LeftCode, RoomForSubtables, OffsetsFit;
    PrefixEntry(lens, k, y, entries[..], next);
    newNext, z := next, y;
    if entries[prefixCode] == 0 {
      NextSubtableFits(lens, k, y, entries[..], next);
      NewSubtable(lens, k, y, entries[..], next, prefixCode);
      ghost var before := entries[..];
      entries[prefixCode] := LONG_MASK + (HEADER_BYTES + ENTRY_BYTES * next);
      assert entries[..] == before[prefixCode := Pointer(next)];
      newNext, z := next + longTableLength, WithSubtable(y, prefixCode);
    }
  }

  lemma LeftCodeBelow(lens: seq<nat>, k: nat)
    requires k < |lens| && 0 < lens[k] <= MAX_BITS && !Oversubscribed(lens)
    ensures LeftCode(lens, k) < 0x8000
  {
    CodeFits(lens, k);
    Pow2Add(5, 10);
    Pow2Add(5, 5);
    assert Pow2(5) == 32;
  }

  lemma IndexIs(lens: seq<nat>, k: nat)
    requires k < |lens| && 0 < lens[k] <= MAX_BITS
    ensures Index(lens, k) == Reverse(MAX_BITS, LeftCode(lens, k))
  {
  }

  lemma FilledSizes(lens: seq<nat>, k: nat, y: Layout, e: seq<nat>, next: nat)
    requires Filled(lens, k, y, e, next)
    ensures y.Valid() && y.Main() <= next <= |e|
  {
    ProductGrows(0, |y.sub|, y.SubLength());
  }

  lemma SuffixFits(index: nat, q: nat, bits: nat)
    requires q < bits && index < Pow2(bits)
    ensures index / Pow2(q) < Pow2(bits - q)
  {
    hide Pow2;
    Pow2Add(q, bits - q);
    DivMod(index, Pow2(q));
    ProductGrows(Pow2(bits - q), index / Pow2(q), Pow2(q));
  }

  lemma SubtableStart(lens: seq<nat>, k: nat, y: Layout, e: seq<nat>, next: nat, p: nat)
    requires Filled(lens, k, y, e, next) && p in y.sub
    ensures p < |e| && e[p] == Pointer(y.Base(y.sub[p])) && Target(e[p]) == y.Base(y.sub[p])
    ensures y.Base(y.sub[p]) + y.SubLength() <= |e|
  {
    hide Pow2;
    Distributes(y.sub[p], 1, y.SubLength());
    ProductGrows(y.sub[p] + 1, |y.sub|, y.SubLength());
  }

  // ----- looking up -----

  /** A filled table decodes: both directions, for every input. */
  lemma FilledDecodes(lens: seq<nat>, y: Layout, e: seq<nat>, next: nat)
    requires Filled(lens, |lens|, y, e, next) && !Oversubscribed(lens) && Lengths(lens) && |lens| <= 2048
    requires forall s | 0 <= s < |lens| :: lens[s] <= y.mx
    requires forall i | 0 <= i < |e| :: e[i] < 0x1_0000
    ensures Decodes(CodeTable(y.q, y.mx, e), lens)
  {
    var t := CodeTable(y.q, y.mx, e);
    forall w: nat
      ensures InRange(t, w)
      ensures forall s: nat | Matches(lens, s, w) :: Entry(t, w) == Huff(lens, s)
      ensures Entry(t, w) != 0 ==> exists s: nat :: Matches(lens, s, w)
    {
      FilledLookup(lens, y, e, next, w);
    }
  }

  lemma FilledLookup(lens: seq<nat>, y: Layout, e: seq<nat>, next: nat, w: nat)
    requires Filled(lens, |lens|, y, e, next) && !Oversubscribed(lens) && Lengths(lens) && |lens| <= 2048
    requires forall s | 0 <= s < |lens| :: lens[s] <= y.mx
    ensures var t := CodeTable(y.q, y.mx, e);
            && InRange(t, w)
            && (forall s: nat | Matches(lens, s, w) :: Entry(t, w) == Huff(lens, s))
            && (Entry(t, w) != 0 ==> exists s: nat :: Matches(lens, s, w))
  {
    hide Pow2, Index;
    var j := w % Pow2(y.q);
    var t := CodeTable(y.q, y.mx, e);
    if j in y.sub {
      SubLookup(lens, y, e, next, w, j);
    } else {
      forall s: nat | Matches(lens, s, w) ensures FitsMain(lens, s, y.q, j) {
        MatchesIndex(lens, s, w);
        if lens[s] <= y.q {
          ModMod(w, lens[s], y.q);
        } else {
          ModMod(w, y.q, lens[s]);
        }
      }
      if e[j] != 0 {
        var s: nat :| s < |lens| && FitsMain(lens, s, y.q, j);
        ModMod(w, lens[s], y.q);
        MatchesIndex(lens, s, w);
        assert e[j] == Huff(lens, s);
      }
    }
  }

  lemma SubLookup(lens: seq<nat>, y: Layout, e: seq<nat>, next: nat, w: nat, j: nat)
    requires Filled(lens, |lens|, y, e, next) && !Oversubscribed(lens) && Lengths(lens)
    requires forall s | 0 <= s < |lens| :: lens[s] <= y.mx
    requires j == w % Pow2(y.q) && j in y.sub
    ensures var t := CodeTable(y.q, y.mx, e);
            && InRange(t, w)
            && (forall s: nat | Matches(lens, s, w) :: Entry(t, w) == Huff(lens, s))
            && (Entry(t, w) != 0 ==> exists s: nat :: Matches(lens, s, w))
  {
    hide Pow2, Index, Matches, FitsSub, Target, Pointer, Filled, EntryIndex, InRange;
    var t := CodeTable(y.q, y.mx, e);
    FilledSizes(lens, |lens|, y, e, next);
    var i := (w % Pow2(y.mx)) / Pow2(y.q);
    SubEntryIndex(lens, y, e, next, w, j);
    forall s: nat | s < |lens| ensures Matches(lens, s, w) <==> FitsSub(lens, s, y.q, j, i) {
      if Short(lens, s, y.q) {
        ShortDoesNotMatch(lens, y, e, next, s, w, j);
      } else {
        MatchesSub(lens, y, s, w, j, i);
      }
    }
    SubEntries(lens, y, e, next, j, i);
    if Entry(t, w) != 0 {
      var s: nat :| s < |lens| && FitsSub(lens, s, y.q, j, i);
      assert Matches(lens, s, w);
    }
    assert forall s: nat | s < |lens| && Matches(lens, s, w) :: Entry(t, w) == Huff(lens, s);
    OnlySymbolsMatch(lens, w);
  }

  lemma OnlySymbolsMatch(lens: seq<nat>, w: nat)
    ensures forall s: nat | Matches(lens, s, w) :: s < |lens|
  {
  }

  lemma SubEntries(lens: seq<nat>, y: Layout, e: seq<nat>, next: nat, j: nat, i: nat)
    requires Filled(lens, |lens|, y, e, next) && j in y.sub && i < y.SubLength() && y.At(j, i) < |e|
    ensures forall s: nat | s < |lens| && FitsSub(lens, s, y.q, j, i) :: e[y.At(j, i)] == Huff(lens, s)
    ensures e[y.At(j, i)] != 0 ==> exists s: nat :: s < |lens| && FitsSub(lens, s, y.q, j, i)
  {
  }

  lemma SubEntryIndex(lens: seq<nat>, y: Layout, e: seq<nat>, next: nat, w: nat, j: nat)
    requires Filled(lens, |lens|, y, e, next) && j == w % Pow2(y.q) && j in y.sub
    ensures var i := (w % Pow2(y.mx)) / Pow2(y.q);
            && 0 <= i < y.SubLength()
            && InRange(CodeTable(y.q, y.mx, e), w)
            && EntryIndex(CodeTable(y.q, y.mx, e), w) == y.At(j, i) < |e|
  {
    hide Pow2, MainFilled, SubsFilled;
    CutParts(w, y.q, y.mx - y.q);
    var i := (w % Pow2(y.mx)) / Pow2(y.q);
    assert i == (w / Pow2(y.q)) % Pow2(y.mx - y.q);
    AtInRange(y, next, |e|, j, i);
    SubtableStart(lens, |lens|, y, e, next, j);
  }

  lemma ShortDoesNotMatch(lens: seq<nat>, y: Layout, e: seq<nat>, next: nat, s: nat, w: nat, j: nat)
    requires Filled(lens, |lens|, y, e, next) && !Oversubscribed(lens)
    requires Short(lens, s, y.q) && j == w % Pow2(y.q) && j in y.sub
    ensures !Matches(lens, s, w) && forall i: nat :: !FitsSub(lens, s, y.q, j, i)
  {
    hide Pow2, Index, MainFilled;
    MatchesIndex(lens, s, w);
    ModMod(w, lens[s], y.q);
    if Matches(lens, s, w) {
      var t: nat :| t <= |lens| && Long(lens, t, y.q) && Index(lens, t) % Pow2(y.q) == j;
      ShortLongClash(lens, s, t, y.q, j);
    }
  }

  /** Where a subtable applies, a window matches a long code when prefix and suffix do. */
  lemma MatchesSub(lens: seq<nat>, y: Layout, s: nat, w: nat, j: nat, i: nat)
    requires y.Valid() && !Oversubscribed(lens) && s < |lens| && !Short(lens, s, y.q) && lens[s] <= y.mx
    requires j == w % Pow2(y.q) && i == (w % Pow2(y.mx)) / Pow2(y.q)
    ensures Matches(lens, s, w) <==> FitsSub(lens, s, y.q, j, i)
  {
    hide Pow2, Index, Reverse, Code, Matches, Oversubscribed, Used, LeftCode;
    if lens[s] > 0 {
      MatchesIndex(lens, s, w);
      var n, m := lens[s] - y.q, y.mx - y.q;
      assert y.q + n == lens[s] && y.q + m == y.mx;
      SplitMatch(w, Index(lens, s), y.q, n, m);
    } else {
      NoCodeNoMatch(lens, s, w);
    }
  }

  lemma NoCodeNoMatch(lens: seq<nat>, s: nat, w: nat)
    requires s < |lens| && lens[s] == 0
    ensures !Matches(lens, s, w)
  {
  }

  lemma SplitMatch(w: nat, index: nat, q: nat, n: nat, m: nat)
    requires n <= m
    ensures w % Pow2(q + n) == index <==>
            index % Pow2(q) == w % Pow2(q) && ((w % Pow2(q + m)) / Pow2(q)) % Pow2(n) == index / Pow2(q)
  {
    hide Pow2;
    CutParts(w, q, m);
    CutParts(w, q, n);
    DivMod(w, Pow2(q));
    ModMod(w / Pow2(q), n, m);
    PrefixAndSuffix(w % Pow2(q + n), index, Pow2(q));
  }

  lemma PrefixAndSuffix(a: nat, b: nat, d: nat)
    requires d > 0
    ensures a == b <==> a % d == b % d && a / d == b / d
  {
    DivMod(a, d);
    DivMod(b, d);
  }

  // ----- the whole table -----

  lemma EmptyFilled(lens: seq<nat>, y: Layout, e: seq<nat>)
    requires y.Valid() && y.sub == map[] && y.Main() <= |e| && forall x | 0 <= x < |e| :: e[x] == 0
    ensures Filled(lens, 0, y, e, y.Main())
  {
  }

  lemma NoLongerCodes(lens: seq<nat>, mx: nat)
    requires Lengths(lens) && mx <= MAX_BITS && forall n | mx < n <= MAX_BITS :: Count(lens, n) == 0
    ensures forall s | 0 <= s < |lens| :: lens[s] <= mx
  {
    forall s | 0 <= s < |lens| ensures lens[s] <= mx {
      CountZero(lens, lens[s]);
    }
  }

  /** The number of subtables computed with a shift. */
  lemma SubtableNumber(lens: seq<nat>, q: nat)
    requires q <= MAX_BITS && !Oversubscribed(lens)
    ensures FirstTop(lens, q) <= Pow2(q)
    ensures (Pow2(MAX_BITS) - Used(lens, q)) / Room(q) == Pow2(q) - FirstTop(lens, q)
  {
    hide Pow2, Used;
    var m := UsedIsMultiple(lens, q, q);
    DivModIs(Used(lens, q), Room(q), m, 0);
    Pow2Add(q, MAX_BITS - q);
    UsedBelow(lens, q);
    Distributes(Pow2(q), -(m as int), Room(q));
    DivModIs(Pow2(MAX_BITS) - Used(lens, q), Room(q), Pow2(q) - m, 0);
    ProductGrows(Pow2(q) + 1, m, Room(q));
    Distributes(Pow2(q), 1, Room(q));
  }

  lemma UsedBelow(lens: seq<nat>, q: nat)
    requires q <= MAX_BITS && !Oversubscribed(lens)
    ensures Used(lens, q) <= Pow2(MAX_BITS)
  {
    UsedMonotone(lens, q, MAX_BITS);
  }

  /**
   makeCodeTable.  It fails exactly on an empty code; otherwise the table decodes every
   input, and all its values fit the 16-bit entries.
   */
  method MakeCodeTable(codelen: seq<nat>, maxQuickBits: nat) returns (table: Option<CodeTable>)
    requires Lengths(codelen) && !Oversubscribed(codelen)
    requires 0 < maxQuickBits <= MAX_BITS && OffsetsFit(|codelen|, maxQuickBits) && |codelen| <= 2048
    ensures table.None? <==> forall s | 0 <= s < |codelen| :: codelen[s] == 0
    ensures table.Some? ==> Decodes(table.value, codelen)
  {
    hide Pow2, Used, Count, Filled, Decodes, OffsetsFit;
    var bitLengthCount := CountLengths(codelen);
    CountAll(codelen, 0);
    if bitLengthCount[0] == |codelen| {
      return None;
    }
    var codes, maxCodeLen := FirstCodes(codelen, bitLengthCount);
    NoLongerCodes(codelen, maxCodeLen);
    var q := maxQuickBits;
    var numLongTables, longTableLength := 0, 0;
    ghost var y: Layout;
    if maxCodeLen <= maxQuickBits {
      q := maxCodeLen;
      y := Layout(q, maxCodeLen, map[]);
    } else {
      numLongTables := (Pow2(MAX_BITS) - codes[maxQuickBits + 1]) / Pow2(MAX_BITS - maxQuickBits);
      SubtableNumber(codelen, q);
      longTableLength := Pow2(maxCodeLen - maxQuickBits);
      y := Layout(q, maxCodeLen, map[]);
    }
    var mainTableLength := Pow2(q);
    ProductGrows(0, numLongTables, longTableLength);
    var entries := new nat[mainTableLength + numLongTables * longTableLength](_ => 0);
    EmptyFilled(codelen, y, entries[..]);
    var nextLongTable := FillTable(codelen, entries, codes, q, longTableLength, y);
    assert Complete(codelen) && q < maxCodeLen ==> nextLongTable == entries.Length;
    table := Some(CodeTable(q, maxCodeLen, entries[..]));
  }

  /** The second loop of makeCodeTable. */
  method FillTable(codelen: seq<nat>, entries: array<nat>, codes: array<nat>, q: nat, longTableLength: nat, ghost start: Layout)
    returns (nextLongTable: nat)
    requires Lengths(codelen) && !Oversubscribed(codelen) && entries != codes && start.Valid()
    requires Filled(codelen, 0, start, entries[..], start.Main())
    requires RoomForSubtables(codelen, start, entries.Length)
    requires |codelen| <= 2048 && (start.q < start.mx ==> OffsetsFit(|codelen|, start.q))
    requires forall x | 0 <= x < entries.Length :: entries[x] < 0x1_0000
    requires codes.Length == MAX_BITS + 1 && forall n | 1 <= n <= MAX_BITS :: codes[n] == Used(codelen, n - 1)
    requires q == start.q && (start.q < start.mx ==> longTableLength == start.SubLength())
    modifies entries, codes
    ensures Decodes(CodeTable(start.q, start.mx, entries[..]), codelen)
    ensures Complete(codelen) && start.q < start.mx ==> nextLongTable == entries.Length
  {
    hide Pow2, Used, Count, Filled, Decodes, OffsetsFit, Index;
    ghost var y := start;
    nextLongTable := Pow2(q);
    var p := 0;
    CountNone(codelen);
    while p < |codelen|
      invariant p <= |codelen|
      invariant y.q == start.q && y.mx == start.mx && y.Valid()
      invariant Filled(codelen, p, y, entries[..], nextLongTable)
      invariant forall x | 0 <= x < entries.Length :: entries[x] < 0x1_0000
      invariant forall n | 1 <= n <= MAX_BITS :: codes[n] == Used(codelen, n - 1) + Count(codelen[..p], n) * Room(n)
    {
      var bits := codelen[p];
      CountNext(codelen, p);
      if bits == 0 {
        SkipStep(codelen, p, y, entries[..], nextLongTable);
      } else {
        var code := codes[bits];
        Distributes(Count(codelen[..p], bits), 1, Room(bits));
        codes[bits] := code + Pow2(MAX_BITS - bits);
        nextLongTable, y := EnterSymbol(codelen, p, entries, code, nextLongTable, y, q, longTableLength);
      }
      p := p + 1;
    }
    FilledDecodes(codelen, y, entries[..], nextLongTable);
    if Complete(codelen) && start.q < start.mx {
      CompleteUsesAllSubtables(codelen, y, entries[..], nextLongTable);
    }
  }

  lemma CountNone(lens: seq<nat>)
    ensures forall n: nat | n <= MAX_BITS :: Count(lens[..0], n) * Room(n) == 0
  {
  }

  lemma CountNext(lens: seq<nat>, p: nat)
    requires p < |lens|
    ensures forall n :: Count(lens[..p + 1], n) == Count(lens[..p], n) + if lens[p] == n then 1 else 0
  {
    assert lens[..p + 1][..p] == lens[..p];
  }

  // ----- complete codes use every subtable -----

  lemma TopIsUsed(lens: seq<nat>, q: nat, x: nat) returns (s: nat)
    requires Complete(lens) && Lengths(lens) && q <= MAX_BITS && FirstTop(lens, q) <= x < Pow2(q)
    ensures Long(lens, s, q) && Top(lens, s, q) == x
  {
    hide Pow2, Reverse, Used, LeftCode;
    var y := x * Room(q);
    Pow2Add(q, MAX_BITS - q);
    Distributes(x, 1, Room(q));
    ProductGrows(x + 1, Pow2(q), Room(q));
    var w := Reverse(MAX_BITS, y);
    ReverseTwice(MAX_BITS, y);
    s := CompleteMatches(lens, w);
    MatchesInterval(lens, s, w);
    var m := UsedIsMultiple(lens, q, q);
    DivModIs(Used(lens, q), Room(q), m, 0);
    ProductGrows(m, x, Room(q));
    IntervalInside(lens, s);
    if lens[s] <= q {
      UsedMonotone(lens, lens[s], q);
    }
    LeftCodeIsCode(lens, s);
    var n, c := lens[s], Code(lens, s);
    Pow2Add(n - q, MAX_BITS - n);
    Associates(x, Pow2(n - q), Room(n));
    Distributes(c, 1, Room(n));
    ProductGrows(c + 1, x * Pow2(n - q), Room(n));
    ProductGrows(x * Pow2(n - q) + 1, c, Room(n));
    Distributes(x * Pow2(n - q), 1, Room(n));
    DivModIs(y, Room(q), x, 0);
  }

  lemma {:induction false} ReversedRange(q: nat, lo: nat, hi: nat, image: set<nat>)
    requires lo <= hi <= Pow2(q) && forall x: nat | lo <= x < hi :: Reverse(q, x) in image
    ensures |image| >= hi - lo
  {
    if lo < hi {
      var last := Reverse(q, hi - 1);
      forall x: nat | lo <= x < hi - 1 ensures Reverse(q, x) in image - {last} {
        ReverseTwice(q, x);
        ReverseTwice(q, hi - 1);
      }
      ReversedRange(q, lo, hi - 1, image - {last});
    }
  }

  /** A complete code fills exactly the subtables that were allocated. */
  lemma CompleteUsesAllSubtables(lens: seq<nat>, y: Layout, e: seq<nat>, next: nat)
    requires Filled(lens, |lens|, y, e, next) && Complete(lens) && Lengths(lens) && y.q < y.mx
    requires RoomForSubtables(lens, y, |e|)
    ensures next == |e|
  {
    hide Pow2, Reverse, Index, FirstTop, Top;
    var lo := FirstTop(lens, y.q);
    forall x: nat | lo <= x < Pow2(y.q) ensures Reverse(y.q, x) in y.sub.Keys {
      var s := TopIsUsed(lens, y.q, x);
      PrefixIsReversedTop(lens, s, y.q);
    }
    ReversedRange(y.q, lo, Pow2(y.q), y.sub.Keys);
    NextIsBase(y, next, |e|);
    var d := y.SubLength();
    ProductGrows(Pow2(y.q) - lo + 1, |y.sub|, d);
    Distributes(Pow2(y.q) - lo, 1, d);
  }
}
