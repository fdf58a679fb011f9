/** What a DEFLATE stream expands to, after sections 3.2.3 to 3.2.7 of RFC 1951. */
module Deflate {
  import opened Octets
  import opened Types
  import opened Bits
  import opened Canonical

  const LENGTH_BASE: seq<nat> := [
    3, 4, 5, 6, 7, 8, 9, 10, 11, 13, 15, 17, 19, 23, 27, 31, 35, 43, 51, 59,
    67, 83, 99, 115, 131, 163, 195, 227, 258]

  const LENGTH_EXTRA: seq<nat> := [
    0, 0, 0, 0, 0, 0, 0, 0, 1, 1, 1, 1, 2, 2, 2, 2, 3, 3, 3, 3, 4, 4, 4, 4, 5, 5, 5, 5, 0]

  const DISTANCE_BASE: seq<nat> := [
    1, 2, 3, 4, 5, 7, 9, 13, 17, 25, 33, 49, 65, 97, 129, 193, 257, 385, 513, 769,
    1025, 1537, 2049, 3073, 4097, 6145, 8193, 12289, 16385, 24577]

  const DISTANCE_EXTRA: seq<nat> := [
    0, 0, 0, 0, 1, 1, 2, 2, 3, 3, 4, 4, 5, 5, 6, 6, 7, 7, 8, 8, 9, 9, 10, 10, 11, 11, 12, 12, 13, 13]

  /** The order of the code length code lengths. */
  const LENGTH_ORDER: seq<nat> := [16, 17, 18, 0, 8, 7, 9, 6, 10, 5, 11, 4, 12, 3, 13, 2, 14, 1, 15]

  const END_OF_BLOCK: nat := 256

  // ----- symbols -----

  ghost predicate HasSymbol(lens: seq<nat>, file: seq<Byte>, pos: nat) {
    exists s: nat :: Matches(lens, s, Window(file, pos, MAX_BITS))
  }

  /** The symbol whose code comes next at bit `pos`. */
  ghost function Symbol(lens: seq<nat>, file: seq<Byte>, pos: nat): (s: nat)
    requires HasSymbol(lens, file, pos)
    ensures Matches(lens, s, Window(file, pos, MAX_BITS))
  {
    var s: nat :| Matches(lens, s, Window(file, pos, MAX_BITS));
    s
  }

  /** Repeat what stands `distance` bytes back; the copy may run into what it writes. */
  function Copy(out: seq<Byte>, distance: nat, length: nat): (r: seq<Byte>)
    requires 0 < distance <= |out|
    ensures |r| == |out| + length && r[..|out|] == out
    decreases length
  {
    if length == 0 then out
    else Copy(out + [out[|out| - distance]], distance, length - 1)
  }

  lemma CopyNothing(out: seq<Byte>, distance: nat)
    ensures 0 < distance <= |out| ==> Copy(out, distance, 0) == out
  {
  }

  lemma CopyOne(out: seq<Byte>, distance: nat, length: nat)
    requires 0 < distance <= |out| && length > 0
    ensures Copy(out, distance, length) == Copy(out + [out[|out| - distance]], distance, length - 1)
  {
  }

  /** A copy continues the output with a period of `distance`. */
  lemma {:induction false} CopyIsPeriodic(out: seq<Byte>, distance: nat, length: nat, i: nat)
    requires 0 < distance <= |out| && i < length
    ensures Copy(out, distance, length)[|out| + i] == out[|out| - distance + i % distance]
    decreases length
  {
    var r := Copy(out, distance, length);
    var next := out + [out[|out| - distance]];
    if i == 0 {
      assert r[..|next|] == next;
      assert r[|out|] == r[..|next|][|out|];
    } else {
      CopyIsPeriodic(next, distance, length - 1, i - 1);
      var j := (i - 1) % distance;
      if j + 1 == distance {
        DivModIs(i, distance, (i - 1) / distance + 1, 0);
        assert |next| - distance + j == |out|;
      } else {
        DivModIs(i, distance, (i - 1) / distance, j + 1);
      }
    }
  }

  // ----- one compressed block -----

  datatype Progress = More(pos: nat, out: seq<Byte>) | End(pos: nat, out: seq<Byte>) | Bad

  /** One literal, one length-distance pair, or the end of the block. */
  ghost function Step(lit: seq<nat>, dist: seq<nat>, file: seq<Byte>, pos: nat, out: seq<Byte>): Progress {
    if !HasSymbol(lit, file, pos) then Bad
    else
      var s := Symbol(lit, file, pos);
      var p := pos + lit[s];
      if s < 256 then More(p, out + [s])
      else if s == END_OF_BLOCK then End(p, out)
      else if s > 285 then Bad
      else CopyStep(dist, file, p, s, out)
  }

  datatype Distance = Distance(value: nat, pos: nat) | NoDistance

  ghost function DistanceAt(dist: seq<nat>, file: seq<Byte>, pos: nat): (r: Distance)
    ensures r.Distance? ==> r.value > 0 && r.pos >= pos
  {
    if !HasSymbol(dist, file, pos) then NoDistance
    else
      var d := Symbol(dist, file, pos);
      var q := pos + dist[d];
      if d > 29 then NoDistance
      else Distance(DISTANCE_BASE[d] + Window(file, q, DISTANCE_EXTRA[d]), q + DISTANCE_EXTRA[d])
  }

  ghost function CopyStep(dist: seq<nat>, file: seq<Byte>, pos: nat, s: nat, out: seq<Byte>): Progress
    requires 256 < s <= 285
  {
    var length := LENGTH_BASE[s - 257] + Window(file, pos, LENGTH_EXTRA[s - 257]);
    var r := DistanceAt(dist, file, pos + LENGTH_EXTRA[s - 257]);
    if r.NoDistance? || r.value > |out| then Bad
    else More(r.pos, Copy(out, r.value, length))
  }

  ghost function Steps(lit: seq<nat>, dist: seq<nat>, file: seq<Byte>, pos: nat, out: seq<Byte>, n: nat): Progress
    decreases n
  {
    if n == 0 then More(pos, out)
    else
      var r := Step(lit, dist, file, pos, out);
      if r.More? then Steps(lit, dist, file, r.pos, r.out, n - 1) else r
  }

  lemma StepGrows(lit: seq<nat>, dist: seq<nat>, file: seq<Byte>, pos: nat, out: seq<Byte>)
    ensures var r := Step(lit, dist, file, pos, out);
            !r.Bad? ==> r.pos > pos && |r.out| >= |out|
  {
  }

  lemma {:induction false} StepsGrow(lit: seq<nat>, dist: seq<nat>, file: seq<Byte>, pos: nat, out: seq<Byte>, n: nat)
    ensures var r := Steps(lit, dist, file, pos, out, n);
            !r.Bad? ==> r.pos >= pos && |r.out| >= |out|
    decreases n
  {
    hide Step;
    if n > 0 {
      StepGrows(lit, dist, file, pos, out);
      var r := Step(lit, dist, file, pos, out);
      if r.More? {
        StepsGrow(lit, dist, file, r.pos, r.out, n - 1);
      }
    }
  }

  /** Taking n steps and then k more. */
  lemma {:induction false} StepsThen(lit: seq<nat>, dist: seq<nat>, file: seq<Byte>, pos: nat, out: seq<Byte>, n: nat, k: nat)
    ensures var r := Steps(lit, dist, file, pos, out, n);
            Steps(lit, dist, file, pos, out, n + k) ==
            if r.More? then Steps(lit, dist, file, r.pos, r.out, k) else r
    decreases n
  {
    hide Step;
    if n > 0 {
      var r := Step(lit, dist, file, pos, out);
      if r.More? {
        StepsThen(lit, dist, file, r.pos, r.out, n - 1, k);
      }
    }
  }

  ghost predicate Ends(lit: seq<nat>, dist: seq<nat>, file: seq<Byte>, pos: nat, out: seq<Byte>, r: Progress) {
    r.End? && exists n: nat :: Steps(lit, dist, file, pos, out, n) == r
  }

  lemma EndsOnce(lit: seq<nat>, dist: seq<nat>, file: seq<Byte>, pos: nat, out: seq<Byte>, a: Progress, b: Progress)
    requires Ends(lit, dist, file, pos, out, a) && Ends(lit, dist, file, pos, out, b)
    ensures a == b
  {
    hide Step, Steps;
    var n: nat :| Steps(lit, dist, file, pos, out, n) == a;
    var k: nat :| Steps(lit, dist, file, pos, out, k) == b;
    if n <= k { StepsThen(lit, dist, file, pos, out, n, k - n); } else { StepsThen(lit, dist, file, pos, out, k, n - k); }
  }

  // ----- code lengths of a dynamic block -----

  /** The code length code: hclen 3-bit lengths in the given order, the rest 0. */
  function LengthCode(file: seq<Byte>, pos: nat, hclen: nat): (r: seq<nat>)
    requires hclen <= 19
    ensures |r| == 19
  {
    if hclen == 0 then seq(19, _ => 0)
    else LengthCode(file, pos, hclen - 1)[LENGTH_ORDER[hclen - 1] := Window(file, pos + 3 * (hclen - 1), 3)]
  }

  function Repeated(n: nat, value: nat): (r: seq<nat>)
    ensures |r| == n && forall i | 0 <= i < n :: r[i] == value
  {
    seq(n, _ => value)
  }

  datatype LengthList = LengthList(lens: seq<nat>, pos: nat) | BadLengths

  function RepeatBits(s: nat): nat {
    if s == 16 then 2 else if s == 17 then 3 else 7
  }

  /** The lengths after a repeat code whose extra bits start at `pos`. */
  function Extended(file: seq<Byte>, pos: nat, s: nat, lens: seq<nat>): (r: seq<nat>)
    requires 16 <= s <= 18 && (s == 16 ==> lens != [])
    ensures |r| >= |lens| + 3
  {
    var n := (if s == 18 then 11 else 3) + Window(file, pos, RepeatBits(s));
    lens + Repeated(n, if s == 16 then lens[|lens| - 1] else 0)
  }

  /** The code lengths, run-length coded with the code length code. */
  ghost function CodeLengths(code: seq<nat>, file: seq<Byte>, pos: nat, lens: seq<nat>, total: nat): (r: LengthList)
    ensures r.LengthList? ==> |r.lens| == total && r.pos >= pos
    decreases total - |lens|
  {
    if |lens| == total then LengthList(lens, pos)
    else if |lens| > total || !HasSymbol(code, file, pos) then BadLengths
    else
      var s := Symbol(code, file, pos);
      var p := pos + code[s];
      if s <= 15 then CodeLengths(code, file, p, lens + [s], total)
      else if s > 18 || (s == 16 && lens == []) then BadLengths
      else CodeLengths(code, file, p + RepeatBits(s), Extended(file, p, s, lens), total)
  }

  datatype Header = Header(lit: seq<nat>, dist: seq<nat>, pos: nat) | BadHeader

  predicate AllZero(lens: seq<nat>) {
    forall s | 0 <= s < |lens| :: lens[s] == 0
  }

  const MAX_LENGTHS: nat := 318

  /** The lengths of both codes, from the code length code at `pos`. */
  ghost function HeaderLengths(file: seq<Byte>, pos: nat, total: nat, hclen: nat): (r: LengthList)
    requires hclen <= 19
    ensures r.LengthList? ==> |r.lens| == total && r.pos >= pos + 3 * hclen
  {
    var code := LengthCode(file, pos, hclen);
    if total > MAX_LENGTHS || AllZero(code) || Oversubscribed(code) then BadLengths
    else CodeLengths(code, file, pos + 3 * hclen, [], total)
  }

  /** The three counts a dynamic header starts with. */
  function HLit(file: seq<Byte>, pos: nat): (n: nat)
    ensures 257 <= n <= 288
  {
    assert Pow2(5) == 32;
    257 + Window(file, pos, 5)
  }

  function HDist(file: seq<Byte>, pos: nat): (n: nat)
    ensures 1 <= n <= 32
  {
    assert Pow2(5) == 32;
    1 + Window(file, pos + 5, 5)
  }

  function HCLen(file: seq<Byte>, pos: nat): (n: nat)
    ensures 4 <= n <= 19
  {
    assert Pow2(4) == 16;
    4 + Window(file, pos + 10, 4)
  }

  /** The header of a dynamic block (section 3.2.7). */
  ghost function DynamicHeader(file: seq<Byte>, pos: nat): (h: Header)
    ensures h.Header? ==> h.pos >= pos + 14 + 3 * HCLen(file, pos)
  {
    var hlit := HLit(file, pos);
    var r := HeaderLengths(file, pos + 14, hlit + HDist(file, pos), HCLen(file, pos));
    if r.BadLengths? then BadHeader
    else if Oversubscribed(r.lens[..hlit]) || Oversubscribed(r.lens[hlit..]) || AllZero(r.lens[..hlit]) then BadHeader
    else Header(r.lens[..hlit], r.lens[hlit..], r.pos)
  }

  // ----- blocks and streams -----

  /** The fixed literal/length code lengths (section 3.2.6). */
  function FixedLength(s: nat): nat {
    if s < 144 then 8 else if s < 256 then 9 else if s < 280 then 7 else 8
  }

  function FixedLiterals(): (r: seq<nat>)
    ensures |r| == 288 && forall s | 0 <= s < 288 :: r[s] == FixedLength(s)
  {
    seq(288, s requires 0 <= s => FixedLength(s))
  }

  /** All distance codes take five bits. */
  function FixedDistances(): (r: seq<nat>)
    ensures |r| == 32 && forall s | 0 <= s < 32 :: r[s] == 5
  {
    seq(32, _ => 5)
  }

  datatype Block = Block(final: bool, pos: nat, out: seq<Byte>) | BadBlock

  ghost function HuffmanBlock(final: bool, lit: seq<nat>, dist: seq<nat>, file: seq<Byte>, pos: nat, out: seq<Byte>): (b: Block)
    ensures b.Block? ==> Ends(lit, dist, file, pos, out, End(b.pos, b.out)) && b.final == final
    ensures b.BadBlock? ==> forall r :: !Ends(lit, dist, file, pos, out, r)
  {
    if exists r :: Ends(lit, dist, file, pos, out, r) then
      var r: Progress :| Ends(lit, dist, file, pos, out, r);
      Block(final, r.pos, r.out)
    else BadBlock
  }

  function AlignUp(pos: nat): nat {
    (pos + 7) / 8 * 8
  }

  function StoredBlock(final: bool, file: seq<Byte>, pos: nat, out: seq<Byte>): Block {
    var p := AlignUp(pos);
    StoredBytes(final, file, p, p / 8 + 4, Window(file, p, 16), Window(file, p + 16, 16), out)
  }

  /** The bytes of a stored block start at byte k. */
  function StoredBytes(final: bool, file: seq<Byte>, pos: nat, k: nat, len: nat, nlen: nat, out: seq<Byte>): Block {
    if len + nlen != 0xFFFF || k + len > |file| then BadBlock
    else Block(final, pos + 32 + 8 * len, out + file[k..k + len])
  }

  /**
   One block.  With `strict` a dynamic block must also use at least one distance code,
   which is what the program asks for.
   */
  ghost function BlockAt(strict: bool, file: seq<Byte>, pos: nat, out: seq<Byte>): Block {
    var kind := Window(file, pos + 1, 2);
    if kind == 0 then StoredBlock(IsFinal(file, pos), file, pos + 3, out)
    else if kind == 1 then HuffmanBlock(IsFinal(file, pos), FixedLiterals(), FixedDistances(), file, pos + 3, out)
    else if kind == 2 then DynamicBlock(strict, IsFinal(file, pos), DynamicHeader(file, pos + 3), file, out)
    else BadBlock
  }

  predicate IsFinal(file: seq<Byte>, pos: nat) {
    BitAt(file, pos) == 1
  }

  ghost function DynamicBlock(strict: bool, final: bool, h: Header, file: seq<Byte>, out: seq<Byte>): Block {
    if h.BadHeader? || (strict && AllZero(h.dist)) then BadBlock
    else HuffmanBlock(final, h.lit, h.dist, file, h.pos, out)
  }

  ghost function Blocks(strict: bool, file: seq<Byte>, pos: nat, out: seq<Byte>, n: nat): Progress
    decreases n
  {
    if n == 0 then More(pos, out)
    else
      match BlockAt(strict, file, pos, out)
      case BadBlock => Bad
      case Block(final, p, o) => if final then End(p, o) else Blocks(strict, file, p, o, n - 1)
  }

  /** The stream from its first bit expands to `out` and ends just before bit `pos`. */
  ghost predicate Expands(strict: bool, file: seq<Byte>, pos: nat, out: seq<Byte>) {
    exists n: nat :: Blocks(strict, file, 0, [], n) == End(pos, out)
  }

  lemma BlockGrows(strict: bool, file: seq<Byte>, pos: nat, out: seq<Byte>)
    ensures var b := BlockAt(strict, file, pos, out);
            b.Block? ==> b.pos > pos && |b.out| >= |out|
  {
    hide DynamicHeader, Steps;
    var b := BlockAt(strict, file, pos, out);
    forall lit: seq<nat>, dist: seq<nat>, p: nat, n: nat, r | Steps(lit, dist, file, p, out, n) == r && r.End?
      ensures r.pos >= p && |r.out| >= |out|
    {
      StepsGrow(lit, dist, file, p, out, n);
    }
  }

  lemma {:induction false} BlocksGrow(strict: bool, file: seq<Byte>, pos: nat, out: seq<Byte>, n: nat)
    ensures var r := Blocks(strict, file, pos, out, n);
            !r.Bad? ==> r.pos >= pos && |r.out| >= |out|
    decreases n
  {
    hide BlockAt;
    if n > 0 {
      BlockGrows(strict, file, pos, out);
      var b := BlockAt(strict, file, pos, out);
      if b.Block? && !b.final {
        BlocksGrow(strict, file, b.pos, b.out, n - 1);
      }
    }
  }

  lemma {:induction false} BlocksThen(strict: bool, file: seq<Byte>, pos: nat, out: seq<Byte>, n: nat, k: nat)
    ensures var r := Blocks(strict, file, pos, out, n);
            Blocks(strict, file, pos, out, n + k) ==
            if r.More? then Blocks(strict, file, r.pos, r.out, k) else r
    decreases n
  {
    hide BlockAt;
    if n > 0 {
      var b := BlockAt(strict, file, pos, out);
      if b.Block? && !b.final {
        BlocksThen(strict, file, b.pos, b.out, n - 1, k);
      }
    }
  }

  /** A stream has at most one expansion. */
  lemma ExpandsOnce(strict: bool, file: seq<Byte>, p: nat, a: seq<Byte>, q: nat, b: seq<Byte>)
    requires Expands(strict, file, p, a) && Expands(strict, file, q, b)
    ensures p == q && a == b
  {
    hide BlockAt;
    var n: nat :| Blocks(strict, file, 0, [], n) == End(p, a);
    var k: nat :| Blocks(strict, file, 0, [], k) == End(q, b);
    if n <= k { BlocksThen(strict, file, 0, [], n, k - n); } else { BlocksThen(strict, file, 0, [], k, n - k); }
  }
}
