/** write_constant_pool and the items it is made of, and that the reader takes it in. */
module ClassWriter {
  import opened Octets
  import opened Types
  import opened ModifiedUtf8
  import opened ConstantPool
  import opened ClassBytes

  /** The strings added for the classes of the stack maps. */
  function AddedFor(pool: seq<Const>, hasStackMaps: bool, classes: seq<Text>): seq<Text> {
    if hasStackMaps then Added(pool, [StackMapName()] + classes) else []
  }

  /** Class names that fit in a class file; without stack maps none is added. */
  predicate ClassesOk(hasStackMaps: bool, classes: seq<Text>) {
    && (!hasStackMaps ==> classes == [])
    && forall k | 0 <= k < |classes| :: |classes[k]| < 0x1_0000 && Acceptable(classes[k], 0)
  }

  /** The pool that is written. */
  function NewPool(pool: seq<Const>, hasStackMaps: bool, classes: seq<Text>): seq<Const>
    requires pool != [] && pool[0].Unusable?
  {
    Written(pool, classes, AddedFor(pool, hasStackMaps, classes))
  }

  // ----- the written pool can be read -----

  lemma NewNamesKnown(pool: seq<Const>, hasStackMaps: bool, classes: seq<Text>)
    requires ClassesOk(hasStackMaps, classes)
    ensures NamesKnown(pool, classes, AddedFor(pool, hasStackMaps, classes))
  {
    forall k | 0 <= k < |classes| ensures Known(pool, AddedFor(pool, hasStackMaps, classes), classes[k]) {
      var texts := [StackMapName()] + classes;
      assert texts[k + 1] == classes[k];
      AddedKnows(pool, texts, classes[k]);
    }
  }

  lemma StackMapAcceptable()
    ensures Acceptable(StackMapName(), 0)
  {
    AsciiAcceptable(StackMapName(), 0);
  }

  lemma {:induction false} AsciiAcceptable(s: Text, p: nat)
    requires p <= |s| && forall i | 0 <= i < |s| :: 0 < s[i] < 0x80
    ensures Acceptable(s, p)
    decreases |s| - p
  {
    if p < |s| {
      AsciiAcceptable(s, p + 1);
    }
  }

  predicate TextOk(s: Text) {
    |s| < 0x1_0000 && Acceptable(s, 0)
  }

  lemma AddedOk(pool: seq<Const>, hasStackMaps: bool, classes: seq<Text>)
    requires ClassesOk(hasStackMaps, classes)
    ensures forall s | s in AddedFor(pool, hasStackMaps, classes) :: TextOk(s)
  {
    StackMapAcceptable();
    hide Added, Acceptable;
    forall s | s in AddedFor(pool, hasStackMaps, classes) ensures TextOk(s) {
      assert s in [StackMapName()] + classes;
    }
  }

  /** Entry k of the written pool is writable, or behind a long or double. */
  lemma WrittenEntry(pool: seq<Const>, classes: seq<Text>, added: seq<Text>, k: nat)
    requires ValidPool(pool) && NamesKnown(pool, classes, added) && (forall s | s in added :: TextOk(s))
    requires |pool| + |classes| + |added| <= MOST_CONSTANTS && 0 < k < |pool| + |classes| + |added|
    ensures var w := Written(pool, classes, added);
            && (w[k].Unusable? <==> w[k - 1].Wide?)
            && (!w[k].Unusable? ==> Writable(w[k]))
            && (w[k].Wide? ==> k + 1 < |w|)
  {
    var w, last := Written(pool, classes, added), LastNotUtf8(pool);
    if k <= last {
      assert ValidConst(pool, k) && ValidConst(pool, k - 1);
      if pool[k].ClassNamed? {
        var i :| 0 < i < |pool| && pool[i] == Utf8(pool[k].className);
        assert FindText(pool, pool[k].className, 0) < |pool|;
        LookupResolves(pool, classes, added, pool[k].className);
      }
    } else if k <= last + |classes| {
      LookupResolves(pool, classes, added, classes[k - last - 1]);
      assert !pool[last].Wide? by { assert ValidConst(pool, last); }
    } else if k < |pool| + |classes| {
      assert ValidConst(pool, k - |classes|) && ValidConst(pool, last);
    } else {
      assert ValidConst(pool, last);
      assert added[k - |pool| - |classes|] in added;
    }
  }

  lemma {:induction false} WrittenSlotted(pool: seq<Const>, classes: seq<Text>, added: seq<Text>, k: nat)
    requires ValidPool(pool) && NamesKnown(pool, classes, added) && (forall s | s in added :: TextOk(s))
    requires |pool| + |classes| + |added| <= MOST_CONSTANTS && 0 < k <= |pool| + |classes| + |added|
    requires !Written(pool, classes, added)[k - 1].Wide?
    ensures Slotted(Written(pool, classes, added)[k..])
    decreases |pool| + |classes| + |added| - k
  {
    FirstUnusable(pool, classes, added);
    hide ValidPool, Written, NamesKnown, Writable, TextOk;
    var w := Written(pool, classes, added);
    if k < |w| {
      WrittenEntry(pool, classes, added, k);
      assert w[k..][0] == w[k] && w[k..][1..] == w[k + 1..];
      if w[k].Wide? {
        WrittenEntry(pool, classes, added, k + 1);
        assert w[k..][1] == w[k + 1] && w[k..][2..] == w[k + 2..];
        WrittenSlotted(pool, classes, added, k + 2);
        WideWritable(pool, classes, added, k);
      } else {
        WrittenSlotted(pool, classes, added, k + 1);
      }
    }
  }

  lemma WideWritable(pool: seq<Const>, classes: seq<Text>, added: seq<Text>, k: nat)
    requires ValidPool(pool) && NamesKnown(pool, classes, added) && (forall s | s in added :: TextOk(s))
    requires |pool| + |classes| + |added| <= MOST_CONSTANTS && 0 < k < |pool| + |classes| + |added|
    ensures !Written(pool, classes, added)[k].Unusable? ==> Writable(Written(pool, classes, added)[k])
  {
    WrittenEntry(pool, classes, added, k);
  }

  /** Every constant has the same meaning under its new index. */
  ghost predicate MeaningsKept(pool: seq<Const>, w: seq<Const>, n: nat)
    requires pool != [] && pool[0].Unusable?
  {
    forall i: nat | i < |pool| :: NewIndex(pool, n, i) < |w| && Meaning(w, NewIndex(pool, n, i)) == Meaning(pool, i)
  }

  /** The added classes resolve to their names under the indices that the stack maps use. */
  ghost predicate ClassesResolve(pool: seq<Const>, w: seq<Const>, classes: seq<Text>)
    requires pool != [] && pool[0].Unusable?
  {
    forall k: nat | k < |classes| ::
      LastNotUtf8(pool) + 1 + k < |w| && Meaning(w, LastNotUtf8(pool) + 1 + k) == CClass(classes[k])
  }

  /** The bytes written for the pool are read back as the new pool, and nothing changes its meaning. */
  lemma WrittenPoolIsRead(pool: seq<Const>, hasStackMaps: bool, classes: seq<Text>, b: seq<Byte>, p: nat)
    requires ValidPool(pool) && ClassesOk(hasStackMaps, classes) && |NewPool(pool, hasStackMaps, classes)| <= MOST_CONSTANTS
    requires Has(b, p, PoolBytes(NewPool(pool, hasStackMaps, classes)))
    ensures var w := NewPool(pool, hasStackMaps, classes);
            ParsePool(b, p) == Some((w, p + |PoolBytes(w)|)) && MeaningsKept(pool, w, |classes|) && ClassesResolve(pool, w, classes)
  {
    hide *;
    var added := AddedFor(pool, hasStackMaps, classes);
    FirstUnusable(pool, classes, added);
    NewPoolIs(pool, hasStackMaps, classes);
    NewNamesKnown(pool, hasStackMaps, classes);
    AddedOk(pool, hasStackMaps, classes);
    WrittenSlotted(pool, classes, added, 1);
    PoolRoundTrip(b, p, Written(pool, classes, added));
    AllKept(pool, classes, added);
  }

  lemma AllKept(pool: seq<Const>, classes: seq<Text>, added: seq<Text>)
    requires ValidPool(pool) && NamesKnown(pool, classes, added)
    ensures MeaningsKept(pool, Written(pool, classes, added), |classes|) && ClassesResolve(pool, Written(pool, classes, added), classes)
  {
    hide Meaning, Written, NewIndex, LastNotUtf8, NamesKnown;
    forall i: nat | i < |pool|
      ensures NewIndex(pool, |classes|, i) < |Written(pool, classes, added)|
      ensures Meaning(Written(pool, classes, added), NewIndex(pool, |classes|, i)) == Meaning(pool, i)
    {
      MeaningKept(pool, classes, added, i);
    }
    forall k: nat | k < |classes|
      ensures LastNotUtf8(pool) + 1 + k < |Written(pool, classes, added)|
      ensures Meaning(Written(pool, classes, added), LastNotUtf8(pool) + 1 + k) == CClass(classes[k])
    {
      AddedClassResolves(pool, classes, added, k);
    }
  }

  lemma NewPoolIs(pool: seq<Const>, hasStackMaps: bool, classes: seq<Text>)
    requires pool != [] && pool[0].Unusable?
    ensures NewPool(pool, hasStackMaps, classes) == Written(pool, classes, AddedFor(pool, hasStackMaps, classes))
  {
  }

  lemma FirstUnusable(pool: seq<Const>, classes: seq<Text>, added: seq<Text>)
    requires ValidPool(pool)
    ensures pool != [] && pool[0].Unusable? && Written(pool, classes, added)[0].Unusable?
  {
  }

  // ----- writing -----

  class Writer {
    const pool: seq<Const>
    const hasStackMaps: bool
    const classes: seq<Text>
    /** class_buf up to class_index. */
    var buf: seq<Byte>
    /** The strings added so far. */
    var newUtf8: seq<Text>

    constructor (pool: seq<Const>, hasStackMaps: bool, classes: seq<Text>)
      ensures this.pool == pool && this.hasStackMaps == hasStackMaps && this.classes == classes && buf == [] && newUtf8 == []
    {
      this.pool, this.hasStackMaps, this.classes := pool, hasStackMaps, classes;
      buf, newUtf8 := [], [];
    }

    method WriteU1(v: nat)
      modifies this`buf
      ensures buf == old(buf) + [v % 256]
    {
      buf := buf + [v % 256];
    }

    method WriteU2(v: nat)
      modifies this`buf
      ensures buf == old(buf) + U2(v)
    {
      WriteU1(v / 256);
      WriteU1(v);
    }

    method WriteU4(v: nat)
      modifies this`buf
      ensures buf == old(buf) + U4(v)
    {
      WriteU1(v / 0x100_0000);
      WriteU1(v / 0x1_0000);
      WriteU1(v / 0x100);
      WriteU1(v);
      HighBytes(v);
    }

    method WriteBytes(s: seq<Byte>)
      modifies this`buf
      ensures buf == old(buf) + s
    {
      var j := 0;
      while j < |s|
        invariant 0 <= j <= |s| && buf == old(buf) + s[..j]
      {
        WriteU1(s[j]);
        assert s[..j + 1] == s[..j] + [s[j]];
        j := j + 1;
      }
      assert s[..|s|] == s;
    }

    /** lookup_utf8 */
    method LookupUtf8(s: Text) returns (i: nat)
      requires pool != [] && pool[0].Unusable?
      modifies this`newUtf8
      ensures newUtf8 == if Known(pool, old(newUtf8), s) then old(newUtf8) else old(newUtf8) + [s]
      ensures i == Lookup(pool, |classes|, newUtf8, s)
    {
      i := 0;
      while i < |pool| && pool[i] != Utf8(s)
        invariant i <= |pool| && FindText(pool, s, 0) == FindText(pool, s, i)
      {
        i := i + 1;
      }
      if i < |pool| {
        return NewIndex(pool, |classes|, i);
      }
      i := 0;
      while i < |newUtf8| && newUtf8[i] != s
        invariant i <= |newUtf8| && FindNew(newUtf8, s, 0) == FindNew(newUtf8, s, i)
      {
        i := i + 1;
      }
      if i == |newUtf8| {
        NotFound(newUtf8, s);
        newUtf8 := newUtf8 + [s];
        FoundLast(newUtf8, s, 0);
      }
      i := i + |pool| + |classes|;
    }

    /** The first part of write_constant_pool: all strings needed are added before anything is written. */
    method SealStrings()
      requires pool != [] && pool[0].Unusable? && (!hasStackMaps ==> classes == [])
      modifies this`newUtf8
      ensures newUtf8 == AddedFor(pool, hasStackMaps, classes) && |newUtf8| <= |classes| + 1
    {
      hide *;
      StringsFor(pool, hasStackMaps, classes);
      newUtf8 := [];
      if hasStackMaps {
        var _ := LookupUtf8(StackMapName());
        var k := 0;
        while k < |classes|
          invariant 0 <= k <= |classes| && newUtf8 == Added(pool, [StackMapName()] + classes[..k])
        {
          StringsNext(pool, classes, k);
          var _ := LookupUtf8(classes[k]);
          k := k + 1;
        }
      }
    }

    method WriteTagged(tag: nat, rest: seq<nat>)
      requires |rest| <= 2
      modifies this`buf
      ensures |rest| == 1 ==> buf == old(buf) + ([tag % 256] + U2(rest[0]))
      ensures |rest| == 2 ==> buf == old(buf) + ([tag % 256] + U2(rest[0]) + U2(rest[1]))
    {
      hide U2;
      WriteU1(tag);
      if |rest| > 0 {
        WriteU2(rest[0]);
      }
      if |rest| > 1 {
        WriteU2(rest[1]);
      }
    }

    method WriteWords(tag: nat, words: seq<nat>)
      requires |words| <= 2
      modifies this`buf
      ensures |words| == 1 ==> buf == old(buf) + ([tag % 256] + U4(words[0]))
      ensures |words| == 2 ==> buf == old(buf) + ([tag % 256] + U4(words[0]) + U4(words[1]))
    {
      hide U4;
      WriteU1(tag);
      if |words| > 0 {
        WriteU4(words[0]);
      }
      if |words| > 1 {
        WriteU4(words[1]);
      }
    }

    method WriteUtf8(s: Text)
      modifies this`buf
      ensures buf == old(buf) + ConstBytes(Utf8(s))
    {
      hide U2;
      WriteU1(UTF8);
      WriteU2(|s|);
      WriteBytes(s);
    }

    /** One old entry, with its references renumbered. */
    method WriteEntry(i: nat)
      requires ValidPool(pool) && 0 < i < |pool| && !pool[i].Unusable?
      modifies this`buf, this`newUtf8
      ensures newUtf8 == old(newUtf8)
      ensures buf == old(buf) + ConstBytes(Renumbered(pool, |classes|, newUtf8, pool[i]))
    {
      NamedIsKnown(pool, i);
      hide ValidPool, U2, U4, Known, Lookup, NewIndex;
      match pool[i] {
        case Utf8(s) => WriteUtf8(s);
        case ClassIndex(n) => WriteTagged(CLASS, [NewIndex(pool, |classes|, n)]);
        case ClassNamed(s) =>
          var index := LookupUtf8(s);
          WriteTagged(CLASS, [index]);
        case StringIndex(n) => WriteTagged(STRING, [NewIndex(pool, |classes|, n)]);
        case Member(kind, c, nt) => WriteTagged(kind, [c, nt]);
        case NameType(n, d) => WriteTagged(NAME_AND_TYPE, [NewIndex(pool, |classes|, n), NewIndex(pool, |classes|, d)]);
        case Word(kind, v) => WriteWords(kind, [v]);
        case Wide(kind, h, l) => WriteWords(kind, [h, l]);
        case Unusable =>
      }
    }

    /** The added class entries, behind the last old entry that is no string. */
    method WriteClasses(ghost w: seq<Const>, ghost start: seq<Byte>)
      requires ValidPool(pool) && newUtf8 == AddedFor(pool, hasStackMaps, classes) && ClassesOk(hasStackMaps, classes)
      requires w == NewPool(pool, hasStackMaps, classes)
      requires LastNotUtf8(pool) + 1 + |classes| <= |w| && buf == start + EntryBytes(w[1..LastNotUtf8(pool) + 1])
      modifies this`buf, this`newUtf8
      ensures newUtf8 == old(newUtf8)
      ensures buf == start + EntryBytes(w[1..LastNotUtf8(pool) + 1 + |classes|])
    {
      hide *;
      ghost var added := newUtf8;
      FirstUnusable(pool, classes, added);
      NewPoolIs(pool, hasStackMaps, classes);
      var last := LastNotUtf8(pool);
      var j := 0;
      while j < |classes|
        invariant 0 <= j <= |classes| && newUtf8 == added
        invariant buf == start + EntryBytes(w[1..last + 1 + j])
      {
        ClassEntryAt(pool, hasStackMaps, classes, j);
        var index := LookupUtf8(classes[j]);
        WriteTagged(CLASS, [index]);
        ClassBytesAre(index);
        AppendEntry(start, w, last + 1 + j);
        j := j + 1;
      }
    }

    /** The added strings at the end. */
    method WriteStrings(ghost w: seq<Const>, ghost start: seq<Byte>)
      requires pool != [] && pool[0].Unusable? && w == Written(pool, classes, newUtf8)
      requires buf == start + EntryBytes(w[1..|pool| + |classes|])
      modifies this`buf
      ensures buf == start + EntryBytes(w[1..])
    {
      hide EntryBytes, ConstBytes;
      ghost var base := |pool| + |classes|;
      var i := 0;
      while i < |newUtf8|
        invariant 0 <= i <= |newUtf8| && buf == start + EntryBytes(w[1..base + i])
      {
        WriteUtf8(newUtf8[i]);
        assert w[base + i] == Utf8(newUtf8[i]);
        EntryBytesNext(w, base + i);
        i := i + 1;
      }
      assert w[1..base + i] == w[1..];
    }

    /** The old entries, and the added classes among them. */
    method WriteEntries(ghost w: seq<Const>, ghost start: seq<Byte>)
      requires ValidPool(pool) && newUtf8 == AddedFor(pool, hasStackMaps, classes) && ClassesOk(hasStackMaps, classes)
      requires w == NewPool(pool, hasStackMaps, classes) && buf == start
      modifies this`buf, this`newUtf8
      ensures newUtf8 == old(newUtf8)
      ensures buf == start + EntryBytes(w[1..|pool| + |classes|])
    {
      hide *;
      ghost var added := newUtf8;
      FirstUnusable(pool, classes, added);
      NewPoolIs(pool, hasStackMaps, classes);
      LastIsEntry(pool);
      var last := LastNotUtf8(pool);
      var i := 1;
      assert w[1..1] == [];
      NoEntries([], 0);
      while i < |pool|
        invariant 1 <= i <= |pool| && newUtf8 == added && (i < |pool| ==> !pool[i].Unusable?)
        invariant buf == start + EntryBytes(w[1..if i <= last then i else i + |classes|])
      {
        EntryWritten(pool, classes, added, i);
        ghost var k := if i <= last then i else i + |classes|;
        WriteEntry(i);
        AppendEntry(start, w, k);
        if pool[i].Wide? {
          i := i + 1;
          AppendEntry(start, w, k + 1);
          NothingWritten(w, k + 1);
        }
        if i == last {
          WriteClasses(w, start);
        }
        i := i + 1;
      }
    }

    /** write_constant_pool: count and entries of the new pool. */
    method WriteConstantPool()
      requires ValidPool(pool) && ClassesOk(hasStackMaps, classes) && |NewPool(pool, hasStackMaps, classes)| < 0x1_0000
      modifies this
      ensures newUtf8 == AddedFor(pool, hasStackMaps, classes) && buf == old(buf) + PoolBytes(NewPool(pool, hasStackMaps, classes))
    {
      hide *;
      FirstUnusable(pool, classes, []);
      ghost var w := NewPool(pool, hasStackMaps, classes);
      NewPoolIs(pool, hasStackMaps, classes);
      PoolBytesAre(w);
      NotAddedWithout(hasStackMaps, classes);
      SealStrings();
      WriteU2(|pool| + |classes| + |newUtf8|);
      ghost var start := buf;
      WriteEntries(w, start);
      WriteStrings(w, start);
    }
  }

  lemma NamedIsKnown(pool: seq<Const>, i: nat)
    requires ValidPool(pool) && i < |pool|
    ensures pool != [] && pool[0].Unusable?
    ensures pool[i].ClassNamed? ==> forall added :: Known(pool, added, pool[i].className)
  {
    assert ValidConst(pool, i);
    if pool[i].ClassNamed? {
      var s := pool[i].className;
      var k :| 0 < k < |pool| && pool[k] == Utf8(s);
      assert FindText(pool, s, 0) < |pool|;
    }
  }

  lemma WrittenClassAt(pool: seq<Const>, classes: seq<Text>, added: seq<Text>, j: nat)
    requires pool != [] && pool[0].Unusable? && j < |classes|
    ensures LastNotUtf8(pool) + 1 + j < |Written(pool, classes, added)|
    ensures Written(pool, classes, added)[LastNotUtf8(pool) + 1 + j] == ClassIndex(Lookup(pool, |classes|, added, classes[j]))
  {
    hide Lookup;
  }

  lemma KnownAt(pool: seq<Const>, classes: seq<Text>, added: seq<Text>, j: nat)
    requires NamesKnown(pool, classes, added) && j < |classes|
    ensures Known(pool, added, classes[j])
  {
  }

  lemma ClassEntryAt(pool: seq<Const>, hasStackMaps: bool, classes: seq<Text>, j: nat)
    requires ValidPool(pool) && ClassesOk(hasStackMaps, classes) && j < |classes|
    ensures pool != [] && pool[0].Unusable?
    ensures var added, last := AddedFor(pool, hasStackMaps, classes), LastNotUtf8(pool);
            && Known(pool, added, classes[j]) && last + 1 + j < |Written(pool, classes, added)|
            && Written(pool, classes, added)[last + 1 + j] == ClassIndex(Lookup(pool, |classes|, added, classes[j]))
  {
    hide *;
    var added := AddedFor(pool, hasStackMaps, classes);
    FirstUnusable(pool, classes, added);
    NewNamesKnown(pool, hasStackMaps, classes);
    KnownAt(pool, classes, added, j);
    WrittenClassAt(pool, classes, added, j);
  }

  lemma ClassBytesAre(n: nat)
    ensures ConstBytes(ClassIndex(n)) == [CLASS] + U2(n)
  {
  }

  lemma PoolBytesAre(w: seq<Const>)
    requires w != []
    ensures PoolBytes(w) == U2(|w|) + EntryBytes(w[1..])
  {
  }

  lemma NotAddedWithout(hasStackMaps: bool, classes: seq<Text>)
    requires ClassesOk(hasStackMaps, classes)
    ensures !hasStackMaps ==> classes == []
  {
  }

  lemma AppendEntry(start: seq<Byte>, w: seq<Const>, k: nat)
    requires 1 <= k < |w|
    ensures start + EntryBytes(w[1..k]) + ConstBytes(w[k]) == start + EntryBytes(w[1..k + 1])
  {
    EntryBytesNext(w, k);
    hide EntryBytes, ConstBytes;
  }

  lemma EntryBytesNext(w: seq<Const>, k: nat)
    requires 1 <= k < |w|
    ensures EntryBytes(w[1..k + 1]) == EntryBytes(w[1..k]) + ConstBytes(w[k])
  {
    assert w[1..k + 1] == w[1..k] + [w[k]];
    EntryBytesPlus(w[1..k], [w[k]]);
    EntryBytesOne(w[k]);
  }

  lemma NothingWritten(w: seq<Const>, k: nat)
    requires k < |w| && w[k].Unusable?
    ensures ConstBytes(w[k]) == []
  {
  }

  lemma LastIsEntry(pool: seq<Const>)
    requires ValidPool(pool)
    ensures LastNotUtf8(pool) > 0 && !pool[LastNotUtf8(pool)].Wide?
    ensures |pool| > 1 ==> !pool[1].Unusable?
  {
    var i :| 0 < i < |pool| && pool[i].ClassNamed?;
    assert ValidConst(pool, LastNotUtf8(pool));
    assert |pool| > 1 && ValidConst(pool, 1);
  }

  /** Where entry i is in the new pool, and what follows it in the old one. */
  lemma EntryWritten(pool: seq<Const>, classes: seq<Text>, added: seq<Text>, i: nat)
    requires ValidPool(pool) && 0 < i < |pool|
    ensures var w, last := Written(pool, classes, added), LastNotUtf8(pool);
            var k := if i <= last then i else i + |classes|;
            && k < |w| && w[k] == Renumbered(pool, |classes|, added, pool[i])
            && (pool[i].Wide? ==> i < last && i + 1 < |pool| && w[k + 1].Unusable? && pool[i + 1].Unusable? && (i + 2 < |pool| ==> !pool[i + 2].Unusable?))
            && (!pool[i].Wide? && i + 1 < |pool| ==> !pool[i + 1].Unusable?)
  {
    assert ValidConst(pool, i);
    if i + 1 < |pool| {
      assert ValidConst(pool, i + 1);
    }
    if i + 2 < |pool| {
      assert ValidConst(pool, i + 2);
    }
  }

  lemma HighBytes(v: nat)
    ensures U4(v) == [v / 0x100_0000 % 256, v / 0x1_0000 % 256, v / 0x100 % 256, v % 256]
  {
    assert v / 0x1_0000 / 256 == v / 0x100_0000;
  }

  lemma NotFound(added: seq<Text>, s: Text)
    requires FindNew(added, s, 0) == |added|
    ensures s !in added
  {
  }

  lemma {:induction false} FoundLast(added: seq<Text>, s: Text, from: nat)
    requires from < |added| && added[|added| - 1] == s && forall i | from <= i < |added| - 1 :: added[i] != s
    ensures FindNew(added, s, from) == |added| - 1
    decreases |added| - from
  {
    if from < |added| - 1 {
      FoundLast(added, s, from + 1);
    }
  }

  /** The strings added before and after the loop over the classes. */
  lemma StringsFor(pool: seq<Const>, hasStackMaps: bool, classes: seq<Text>)
    requires !hasStackMaps ==> classes == []
    ensures !hasStackMaps ==> AddedFor(pool, hasStackMaps, classes) == []
    ensures hasStackMaps ==> AddedFor(pool, hasStackMaps, classes) == Added(pool, [StackMapName()] + classes[..|classes|])
    ensures |AddedFor(pool, hasStackMaps, classes)| <= |classes| + 1
    ensures Added(pool, [StackMapName()] + classes[..0]) == if Known(pool, [], StackMapName()) then [] else [] + [StackMapName()]
  {
    AddedStep(pool, [], StackMapName());
    hide Known, StackMapName, Added;
    assert classes[..|classes|] == classes;
    assert [StackMapName()] + classes[..0] == [StackMapName()] == [] + [StackMapName()];
    NothingAdded(pool);
  }

  lemma NothingAdded(pool: seq<Const>)
    ensures Added(pool, []) == []
  {
  }

  lemma StringsNext(pool: seq<Const>, classes: seq<Text>, k: nat)
    requires k < |classes|
    ensures Added(pool, [StackMapName()] + classes[..k + 1]) ==
            var before := Added(pool, [StackMapName()] + classes[..k]); if Known(pool, before, classes[k]) then before else before + [classes[k]]
  {
    AddedStep(pool, [StackMapName()] + classes[..k], classes[k]);
    hide Known, StackMapName, Added;
    assert [StackMapName()] + classes[..k + 1] == [StackMapName()] + classes[..k] + [classes[k]];
  }

  lemma AddedStep(pool: seq<Const>, texts: seq<Text>, s: Text)
    ensures Added(pool, texts + [s]) == var before := Added(pool, texts); if Known(pool, before, s) then before else before + [s]
  {
    assert (texts + [s])[..|texts|] == texts;
  }
}
