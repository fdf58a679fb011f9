/** Big-endian items of a class file and the constant pool as bytes. */
module ClassBytes {
  import opened Octets
  import opened Types
  import opened ModifiedUtf8
  import opened ConstantPool

  function U2(v: nat): (b: seq<Byte>)
    ensures |b| == 2
  {
    [v / 256 % 256, v % 256]
  }

  function U4(v: nat): (b: seq<Byte>)
    ensures |b| == 4
  {
    U2(v / 0x1_0000) + U2(v)
  }

  function Get2(b: seq<Byte>, p: nat): (v: nat)
    requires p + 2 <= |b|
    ensures v < 0x1_0000
  {
    (b[p] as int) * 256 + b[p + 1]
  }

  function Get4(b: seq<Byte>, p: nat): (v: nat)
    requires p + 4 <= |b|
    ensures v < 0x1_0000_0000
  {
    Get2(b, p) * 0x1_0000 + Get2(b, p + 2)
  }

  /** The bytes w stand at position p. */
  predicate Has(b: seq<Byte>, p: nat, w: seq<Byte>) {
    p + |w| <= |b| && b[p..p + |w|] == w
  }

  lemma HasEach(b: seq<Byte>, p: nat, w: seq<Byte>)
    ensures Has(b, p, w) <==> p + |w| <= |b| && forall i {:trigger w[i]} | 0 <= i < |w| :: b[p + i] == w[i]
  {
    if p + |w| <= |b| {
      var t := b[p..p + |w|];
      assert forall i {:trigger w[i]} | 0 <= i < |w| :: t[i] == b[p + i];
      if forall i {:trigger w[i]} | 0 <= i < |w| :: b[p + i] == w[i] {
        assert t == w;
      }
    }
  }

  lemma HasBoth(b: seq<Byte>, p: nat, x: seq<Byte>, y: seq<Byte>)
    requires Has(b, p, x + y)
    ensures Has(b, p, x) && Has(b, p + |x|, y)
  {
    var w := x + y;
    HasEach(b, p, w);
    HasEach(b, p, x);
    HasEach(b, p + |x|, y);
    hide Has;
    forall i | 0 <= i < |x| ensures b[p + i] == x[i] {
      assert w[i] == x[i];
    }
    forall i | 0 <= i < |y| ensures b[p + |x| + i] == y[i] {
      assert w[|x| + i] == y[i];
    }
  }

  lemma ReadsU2(b: seq<Byte>, p: nat, v: nat)
    requires Has(b, p, U2(v)) && v < 0x1_0000
    ensures p + 2 <= |b| && Get2(b, p) == v
  {
    assert b[p..p + 2][0] == b[p] && b[p..p + 2][1] == b[p + 1];
  }

  lemma LowHalf(v: nat)
    ensures U2(v) == U2(v % 0x1_0000)
  {
    var h, l := v / 0x1_0000, v % 0x1_0000;
    assert v == 256 * (256 * h) + l;
    assert v / 256 == 256 * h + l / 256;
  }

  lemma ReadsU4(b: seq<Byte>, p: nat, v: nat)
    requires Has(b, p, U4(v)) && v < 0x1_0000_0000
    ensures p + 4 <= |b| && Get4(b, p) == v
  {
    LowHalf(v);
    hide Has, U2, Get2;
    HasBoth(b, p, U2(v / 0x1_0000), U2(v));
    ReadsU2(b, p, v / 0x1_0000);
    ReadsU2(b, p + 2, v % 0x1_0000);
  }

  // ----- writing the pool -----

  /** One entry; a written pool has no ClassNamed. */
  function ConstBytes(c: Const): seq<Byte> {
    match c
    case Utf8(s) => [UTF8] + U2(|s|) + s
    case ClassIndex(n) => [CLASS] + U2(n)
    case ClassNamed(_) => []
    case StringIndex(n) => [STRING] + U2(n)
    case Member(kind, c, nt) => [kind % 256] + U2(c) + U2(nt)
    case NameType(n, d) => [NAME_AND_TYPE] + U2(n) + U2(d)
    case Word(kind, v) => [kind % 256] + U4(v)
    case Wide(kind, h, l) => [kind % 256] + U4(h) + U4(l)
    case Unusable => []
  }

  function EntryBytes(cs: seq<Const>): seq<Byte> {
    if cs == [] then [] else ConstBytes(cs[0]) + EntryBytes(cs[1..])
  }

  function PoolBytes(pool: seq<Const>): seq<Byte>
    requires pool != []
  {
    U2(|pool|) + EntryBytes(pool[1..])
  }

  lemma {:induction false} EntryBytesPlus(a: seq<Const>, b: seq<Const>)
    ensures EntryBytes(a + b) == EntryBytes(a) + EntryBytes(b)
  {
    if a == [] {
      assert a + b == b;
    } else {
      assert (a + b)[0] == a[0] && (a + b)[1..] == a[1..] + b;
      EntryBytesPlus(a[1..], b);
    }
  }

  lemma EntryBytesOne(c: Const)
    ensures EntryBytes([c]) == ConstBytes(c)
  {
    assert [c][1..] == [];
  }

  // ----- reading the pool -----

  /** The entry at p and the position behind it. */
  function ParseConst(b: seq<Byte>, p: nat): Option<(Const, nat)> {
    if p >= |b| then None
    else
      var tag, q := b[p], p + 1;
      if tag == UTF8 then
        if q + 2 > |b| || q + 2 + Get2(b, q) > |b| then None
        else
          var s := b[q + 2..q + 2 + Get2(b, q)];
          if Acceptable(s, 0) then Some((Utf8(s), q + 2 + |s|)) else None
      else if tag == CLASS || tag == STRING then
        if q + 2 > |b| then None
        else Some((if tag == CLASS then ClassIndex(Get2(b, q)) else StringIndex(Get2(b, q)), q + 2))
      else if FIELDREF <= tag <= NAME_AND_TYPE then
        if q + 4 > |b| then None
        else Some((if tag == NAME_AND_TYPE then NameType(Get2(b, q), Get2(b, q + 2)) else Member(tag, Get2(b, q), Get2(b, q + 2)), q + 4))
      else if tag == INTEGER || tag == FLOAT then
        if q + 4 > |b| then None else Some((Word(tag, Get4(b, q)), q + 4))
      else if tag == LONG || tag == DOUBLE then
        if q + 8 > |b| then None else Some((Wide(tag, Get4(b, q), Get4(b, q + 4)), q + 8))
      else None
  }

  /** n slots from p on; a long or double takes two. */
  function ParseEntries(b: seq<Byte>, p: nat, n: nat): Option<(seq<Const>, nat)>
    decreases n
  {
    if n == 0 then Some(([], p))
    else
      var first := ParseConst(b, p);
      if first.None? then None
      else
        var c, q := first.value.0, first.value.1;
        var slots := if c.Wide? then [c, Unusable] else [c];
        if |slots| > n then None
        else
          var rest := ParseEntries(b, q, n - |slots|);
          if rest.None? then None else Some((slots + rest.value.0, rest.value.1))
  }

  function ParsePool(b: seq<Byte>, p: nat): Option<(seq<Const>, nat)> {
    if p + 2 > |b| || !(1 <= Get2(b, p) <= MOST_CONSTANTS) then None
    else
      var entries := ParseEntries(b, p + 2, Get2(b, p) - 1);
      if entries.None? then None else Some(([Unusable] + entries.value.0, entries.value.1))
  }

  // ----- reading back what was written -----

  /** An entry that can be written. */
  predicate Writable(c: Const) {
    match c
    case Utf8(s) => |s| < 0x1_0000 && Acceptable(s, 0)
    case ClassIndex(n) => n < 0x1_0000
    case ClassNamed(_) => false
    case StringIndex(n) => n < 0x1_0000
    case Member(kind, c, nt) => FIELDREF <= kind <= INTERFACE_METHODREF && c < 0x1_0000 && nt < 0x1_0000
    case NameType(n, d) => n < 0x1_0000 && d < 0x1_0000
    case Word(kind, v) => (kind == INTEGER || kind == FLOAT) && v < 0x1_0000_0000
    case Wide(kind, h, l) => (kind == LONG || kind == DOUBLE) && h < 0x1_0000_0000 && l < 0x1_0000_0000
    case Unusable => false
  }

  /** Longs and doubles take two slots, nothing else does. */
  predicate Slotted(cs: seq<Const>) {
    cs == [] ||
    if cs[0].Wide? then |cs| > 1 && cs[1].Unusable? && Writable(cs[0]) && Slotted(cs[2..])
    else Writable(cs[0]) && Slotted(cs[1..])
  }

  lemma ParsesConst(b: seq<Byte>, p: nat, c: Const)
    requires Writable(c) && Has(b, p, ConstBytes(c))
    ensures ParseConst(b, p) == Some((c, p + |ConstBytes(c)|))
  {
    hide Get2, Get4, U2, U4;
    match c {
      case Utf8(s) =>
        HasBoth(b, p, [UTF8] + U2(|s|), s);
        HasBoth(b, p, [UTF8], U2(|s|));
        Tag(b, p, UTF8);
        ReadsU2(b, p + 1, |s|);
      case ClassIndex(n) => TagAndU2(b, p, CLASS, n);
      case ClassNamed(_) =>
      case StringIndex(n) => TagAndU2(b, p, STRING, n);
      case Member(kind, x, y) => TagAndTwo(b, p, kind, x, y);
      case NameType(x, y) => TagAndTwo(b, p, NAME_AND_TYPE, x, y);
      case Word(kind, v) =>
        HasBoth(b, p, [kind], U4(v));
        Tag(b, p, kind);
        ReadsU4(b, p + 1, v);
      case Wide(kind, h, l) =>
        HasBoth(b, p, [kind] + U4(h), U4(l));
        HasBoth(b, p, [kind], U4(h));
        Tag(b, p, kind);
        ReadsU4(b, p + 1, h);
        ReadsU4(b, p + 5, l);
      case Unusable =>
    }
  }

  lemma Tag(b: seq<Byte>, p: nat, tag: Byte)
    requires Has(b, p, [tag])
    ensures p < |b| && b[p] == tag
  {
    assert b[p..p + 1][0] == b[p];
  }

  lemma TagAndU2(b: seq<Byte>, p: nat, tag: Byte, n: nat)
    requires Has(b, p, [tag] + U2(n)) && n < 0x1_0000
    ensures p + 3 <= |b| && b[p] == tag && Get2(b, p + 1) == n
  {
    HasBoth(b, p, [tag], U2(n));
    Tag(b, p, tag);
    ReadsU2(b, p + 1, n);
  }

  lemma TagAndTwo(b: seq<Byte>, p: nat, tag: Byte, x: nat, y: nat)
    requires Has(b, p, [tag] + U2(x) + U2(y)) && x < 0x1_0000 && y < 0x1_0000
    ensures p + 5 <= |b| && b[p] == tag && Get2(b, p + 1) == x && Get2(b, p + 3) == y
  {
    HasBoth(b, p, [tag] + U2(x), U2(y));
    TagAndU2(b, p, tag, x);
    ReadsU2(b, p + 3, y);
  }

  lemma ParseStep(b: seq<Byte>, p: nat, n: nat, c: Const, q: nat, rest: seq<Const>, end: nat)
    requires ParseConst(b, p) == Some((c, q))
    requires var slots := if c.Wide? then 2 else 1; slots <= n && ParseEntries(b, q, n - slots) == Some((rest, end))
    ensures ParseEntries(b, p, n) == Some(((if c.Wide? then [c, Unusable] else [c]) + rest, end))
  {
    hide ParseConst;
  }

  lemma SlottedParts(cs: seq<Const>)
    requires Slotted(cs) && cs != []
    ensures Writable(cs[0]) && EntryBytes(cs) == ConstBytes(cs[0]) + EntryBytes(cs[1..])
    ensures if cs[0].Wide? then |cs| > 1 && cs[1].Unusable? && Slotted(cs[2..]) && EntryBytes(cs[1..]) == EntryBytes(cs[2..]) else Slotted(cs[1..])
  {
    if cs[0].Wide? {
      UnusableIsNothing(cs[1..]);
      assert cs[1..][1..] == cs[2..];
    }
  }

  lemma NoEntries(b: seq<Byte>, p: nat)
    ensures ParseEntries(b, p, 0) == Some(([], p)) && EntryBytes([]) == []
  {
  }

  lemma {:induction false} ParsesEntries(b: seq<Byte>, p: nat, cs: seq<Const>)
    requires Slotted(cs) && Has(b, p, EntryBytes(cs))
    ensures ParseEntries(b, p, |cs|) == Some((cs, p + |EntryBytes(cs)|))
    decreases |cs|
  {
    hide *;
    if cs == [] {
      NoEntries(b, p);
    } else {
      SlottedParts(cs);
      var first, q := cs[0], p + |ConstBytes(cs[0])|;
      var rest := if first.Wide? then cs[2..] else cs[1..];
      HasBoth(b, p, ConstBytes(first), EntryBytes(cs[1..]));
      ParsesConst(b, p, first);
      ParsesEntries(b, q, rest);
      ParseStep(b, p, |cs|, first, q, rest, q + |EntryBytes(rest)|);
      assert cs == (if first.Wide? then [first, Unusable] else [first]) + rest;
    }
  }

  lemma UnusableIsNothing(cs: seq<Const>)
    requires cs != [] && cs[0].Unusable?
    ensures EntryBytes(cs) == EntryBytes(cs[1..])
  {
  }

  /** The reader takes in the very pool that was written. */
  lemma PoolRoundTrip(b: seq<Byte>, p: nat, pool: seq<Const>)
    requires 0 < |pool| <= MOST_CONSTANTS && pool[0].Unusable? && Slotted(pool[1..]) && Has(b, p, PoolBytes(pool))
    ensures ParsePool(b, p) == Some((pool, p + |PoolBytes(pool)|))
  {
    hide Has, U2, Get2, EntryBytes, ParseEntries, Slotted;
    HasBoth(b, p, U2(|pool|), EntryBytes(pool[1..]));
    ReadsU2(b, p, |pool|);
    ParsesEntries(b, p + 2, pool[1..]);
    assert [Unusable] + pool[1..] == pool;
  }
}
