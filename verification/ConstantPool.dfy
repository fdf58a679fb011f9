/**
 The constant pool: the writer of file.c adds classes behind the last entry that is no
 Utf8 string, and strings at the end; the reader of classloader.c takes it in again.
 */
module ConstantPool {
  import opened Octets
  import opened Types
  import opened ModifiedUtf8

  type Text = seq<Byte>

  const MOST_CONSTANTS: nat := 16384

  /**
   Entries as the program keeps them.  ClassNamed is a class entry that was resolved when
   the class itself was loaded; Unusable stands for slot 0 and behind a long or double.
   */
  datatype Const =
    | Utf8(text: Text)
    | ClassIndex(name: nat)
    | ClassNamed(className: Text)
    | StringIndex(text_: nat)
    | Member(kind: nat, class_: nat, nameType: nat)
    | NameType(name_: nat, descriptor: nat)
    | Word(kind: nat, value: nat)
    | Wide(kind: nat, high: nat, low: nat)
    | Unusable

  const UTF8: nat := 1
  const INTEGER: nat := 3
  const FLOAT: nat := 4
  const LONG: nat := 5
  const DOUBLE: nat := 6
  const CLASS: nat := 7
  const STRING: nat := 8
  const FIELDREF: nat := 9
  const INTERFACE_METHODREF: nat := 11
  const NAME_AND_TYPE: nat := 12

  /** StackMap: the one attribute name that may have to be added. */
  function StackMapName(): Text { [83, 116, 97, 99, 107, 77, 97, 112] }

  // ----- the pool of a verified class -----

  predicate IsUtf8(pool: seq<Const>, i: nat) {
    0 < i < |pool| && pool[i].Utf8?
  }

  predicate IsClass(pool: seq<Const>, i: nat) {
    0 < i < |pool| && (pool[i].ClassIndex? || pool[i].ClassNamed?)
  }

  predicate HasText(pool: seq<Const>, s: Text) {
    exists i :: 0 < i < |pool| && pool[i] == Utf8(s)
  }

  predicate ValidConst(pool: seq<Const>, i: nat)
    requires i < |pool|
  {
    match pool[i]
    case Utf8(s) => |s| < 0x1_0000 && Acceptable(s, 0)
    case ClassIndex(n) => IsUtf8(pool, n)
    case ClassNamed(s) => HasText(pool, s)
    case StringIndex(n) => IsUtf8(pool, n)
    case Member(kind, c, nt) => FIELDREF <= kind <= INTERFACE_METHODREF && IsClass(pool, c) && 0 < nt < |pool| && pool[nt].NameType?
    case NameType(n, d) => IsUtf8(pool, n) && IsUtf8(pool, d)
    case Word(kind, v) => (kind == INTEGER || kind == FLOAT) && v < 0x1_0000_0000
    case Wide(kind, h, l) =>
      && (kind == LONG || kind == DOUBLE) && h < 0x1_0000_0000 && l < 0x1_0000_0000
      && i + 1 < |pool| && pool[i + 1].Unusable?
    case Unusable => i == 0 || pool[i - 1].Wide?
  }

  predicate ValidPool(pool: seq<Const>) {
    && 0 < |pool| <= MOST_CONSTANTS && pool[0].Unusable?
    && (forall i | 0 <= i < |pool| :: ValidConst(pool, i))
    && exists i :: 0 < i < |pool| && pool[i].ClassNamed?
  }

  // ----- what an entry means -----

  datatype Content =
    | CUtf8(text: Text) | CClass(name: Text) | CString(text: Text)
    | CMember(kind: nat, class_: Text, name: Text, descriptor: Text)
    | CNameType(name: Text, descriptor: Text)
    | CWord(kind: nat, value: nat) | CWide(kind: nat, high: nat, low: nat) | CNone

  function TextAt(pool: seq<Const>, i: nat): Text {
    if IsUtf8(pool, i) then pool[i].text else []
  }

  function ClassAt(pool: seq<Const>, i: nat): Text {
    if !IsClass(pool, i) then [] else if pool[i].ClassNamed? then pool[i].className else TextAt(pool, pool[i].name)
  }

  /** The entry with all indices followed. */
  function Meaning(pool: seq<Const>, i: nat): Content
    requires i < |pool|
  {
    match pool[i]
    case Utf8(s) => CUtf8(s)
    case ClassIndex(_) => CClass(ClassAt(pool, i))
    case ClassNamed(_) => CClass(ClassAt(pool, i))
    case StringIndex(n) => CString(TextAt(pool, n))
    case Member(kind, c, nt) =>
      if nt < |pool| && pool[nt].NameType? then CMember(kind, ClassAt(pool, c), TextAt(pool, pool[nt].name_), TextAt(pool, pool[nt].descriptor))
      else CNone
    case NameType(n, d) => CNameType(TextAt(pool, n), TextAt(pool, d))
    case Word(kind, v) => CWord(kind, v)
    case Wide(kind, h, l) => CWide(kind, h, l)
    case Unusable => CNone
  }

  // ----- renumbering -----

  /** get_last_not_utf8_index */
  function LastNotUtf8(pool: seq<Const>): (last: nat)
    requires pool != [] && pool[0].Unusable?
    ensures last < |pool| && !pool[last].Utf8? && forall i | last < i < |pool| :: pool[i].Utf8?
    decreases |pool|
  {
    var n := |pool| - 1;
    if !pool[n].Utf8? then n else LastNotUtf8(pool[..n])
  }

  method GetLastNotUtf8Index(pool: seq<Const>) returns (result: int)
    requires pool != [] && pool[0].Unusable?
    ensures result == LastNotUtf8(pool)
  {
    result := -1;
    var i := 0;
    while i < |pool|
      invariant 0 <= i <= |pool| && (i == 0 ==> result == -1) && (i > 0 ==> result == LastNotUtf8(pool[..i]))
    {
      assert pool[..i + 1][..i] == pool[..i];
      if !pool[i].Utf8? {
        result := i;
      }
      i := i + 1;
    }
    assert pool[..|pool|] == pool;
  }

  /** new_utf8_index, when n classes are added. */
  function NewIndex(pool: seq<Const>, n: nat, i: nat): nat
    requires pool != [] && pool[0].Unusable?
  {
    if i > LastNotUtf8(pool) then i + n else i
  }

  /** The first entry that is the text; the length if there is none. */
  function FindText(pool: seq<Const>, s: Text, from: nat): (i: nat)
    requires from <= |pool|
    ensures from <= i <= |pool| && (i < |pool| ==> pool[i] == Utf8(s))
    ensures i == |pool| ==> forall k | from <= k < |pool| :: pool[k] != Utf8(s)
    decreases |pool| - from
  {
    if from == |pool| || pool[from] == Utf8(s) then from else FindText(pool, s, from + 1)
  }

  function FindNew(added: seq<Text>, s: Text, from: nat): (i: nat)
    requires from <= |added|
    ensures from <= i <= |added| && (i < |added| ==> added[i] == s)
    ensures i == |added| ==> forall k | from <= k < |added| :: added[k] != s
    decreases |added| - from
  {
    if from == |added| || added[from] == s then from else FindNew(added, s, from + 1)
  }

  /** The index lookup_utf8 returns, after the text has been added if need be. */
  function Lookup(pool: seq<Const>, n: nat, added: seq<Text>, s: Text): nat
    requires pool != [] && pool[0].Unusable?
  {
    var i := FindText(pool, s, 0);
    if i < |pool| then NewIndex(pool, n, i) else FindNew(added, s, 0) + |pool| + n
  }

  predicate Known(pool: seq<Const>, added: seq<Text>, s: Text) {
    FindText(pool, s, 0) < |pool| || s in added
  }

  /** The strings added for some texts, in order and without repetition. */
  function Added(pool: seq<Const>, texts: seq<Text>): (r: seq<Text>)
    ensures |r| <= |texts|
    ensures forall s | s in r :: s in texts
  {
    if texts == [] then []
    else
      var before, s := Added(pool, texts[..|texts| - 1]), texts[|texts| - 1];
      if Known(pool, before, s) then before else before + [s]
  }

  lemma {:induction false} AddedKnows(pool: seq<Const>, texts: seq<Text>, s: Text)
    requires s in texts
    ensures Known(pool, Added(pool, texts), s)
  {
    var last := texts[|texts| - 1];
    if s != last {
      AddedKnows(pool, texts[..|texts| - 1], s);
    }
  }

  // ----- the pool that is written -----

  function Renumbered(pool: seq<Const>, n: nat, added: seq<Text>, c: Const): Const
    requires pool != [] && pool[0].Unusable?
  {
    match c
    case Utf8(s) => c
    case ClassIndex(i) => ClassIndex(NewIndex(pool, n, i))
    case ClassNamed(s) => ClassIndex(Lookup(pool, n, added, s))
    case StringIndex(i) => StringIndex(NewIndex(pool, n, i))
    case Member(_, _, _) => c
    case NameType(i, d) => NameType(NewIndex(pool, n, i), NewIndex(pool, n, d))
    case Word(_, _) => c
    case Wide(_, _, _) => c
    case Unusable => c
  }

  /** Entry i of the written pool. */
  function WrittenAt(pool: seq<Const>, classes: seq<Text>, added: seq<Text>, i: nat): Const
    requires pool != [] && pool[0].Unusable? && i < |pool| + |classes| + |added|
  {
    var last, n := LastNotUtf8(pool), |classes|;
    if i <= last then Renumbered(pool, n, added, pool[i])
    else if i <= last + n then ClassIndex(Lookup(pool, n, added, classes[i - last - 1]))
    else if i < |pool| + n then pool[i - n]
    else Utf8(added[i - |pool| - n])
  }

  function Written(pool: seq<Const>, classes: seq<Text>, added: seq<Text>): (w: seq<Const>)
    requires pool != [] && pool[0].Unusable?
    ensures |w| == |pool| + |classes| + |added|
  {
    seq(|pool| + |classes| + |added|, i requires 0 <= i < |pool| + |classes| + |added| => WrittenAt(pool, classes, added, i))
  }

  /** The strings that the class entries need are known. */
  predicate NamesKnown(pool: seq<Const>, classes: seq<Text>, added: seq<Text>) {
    forall k | 0 <= k < |classes| :: Known(pool, added, classes[k])
  }

  /** An index lookup_utf8 gives resolves to the very text. */
  lemma LookupResolves(pool: seq<Const>, classes: seq<Text>, added: seq<Text>, s: Text)
    requires ValidPool(pool) && Known(pool, added, s)
    ensures var w, i := Written(pool, classes, added), Lookup(pool, |classes|, added, s);
            0 < i < |w| && w[i] == Utf8(s)
  {
    var last, n := LastNotUtf8(pool), |classes|;
    var i := FindText(pool, s, 0);
    if i == |pool| {
      var k := FindNew(added, s, 0);
    }
  }

  /** A string keeps its content under its new index. */
  lemma TextKept(pool: seq<Const>, classes: seq<Text>, added: seq<Text>, i: nat)
    requires ValidPool(pool) && IsUtf8(pool, i)
    ensures IsUtf8(Written(pool, classes, added), NewIndex(pool, |classes|, i))
    ensures TextAt(Written(pool, classes, added), NewIndex(pool, |classes|, i)) == TextAt(pool, i)
  {
  }

  /** Entries other than strings do not move. */
  lemma OthersStay(pool: seq<Const>, classes: seq<Text>, added: seq<Text>, i: nat)
    requires ValidPool(pool) && i < |pool| && !pool[i].Utf8?
    ensures NewIndex(pool, |classes|, i) == i && Written(pool, classes, added)[i] == Renumbered(pool, |classes|, added, pool[i])
  {
  }

  lemma ClassKept(pool: seq<Const>, classes: seq<Text>, added: seq<Text>, i: nat)
    requires ValidPool(pool) && IsClass(pool, i)
    ensures IsClass(Written(pool, classes, added), i) && ClassAt(Written(pool, classes, added), i) == ClassAt(pool, i)
  {
    OthersStay(pool, classes, added, i);
    assert ValidConst(pool, i);
    if pool[i].ClassNamed? {
      var s := pool[i].className;
      var k :| 0 < k < |pool| && pool[k] == Utf8(s);
      assert FindText(pool, s, 0) < |pool|;
      LookupResolves(pool, classes, added, s);
    } else {
      TextKept(pool, classes, added, pool[i].name);
    }
  }

  /** Every old reference resolves to the same content in the written pool. */
  lemma MeaningKept(pool: seq<Const>, classes: seq<Text>, added: seq<Text>, i: nat)
    requires ValidPool(pool) && i < |pool|
    ensures var w := Written(pool, classes, added);
            NewIndex(pool, |classes|, i) < |w| && Meaning(w, NewIndex(pool, |classes|, i)) == Meaning(pool, i)
  {
    assert ValidConst(pool, i);
    if pool[i].Utf8? {
    } else {
      OthersStay(pool, classes, added, i);
      match pool[i] {
        case Utf8(_) =>
        case ClassIndex(_) => ClassKept(pool, classes, added, i);
        case ClassNamed(_) => ClassKept(pool, classes, added, i);
        case StringIndex(n) => TextKept(pool, classes, added, n);
        case Member(_, c, nt) =>
          ClassKept(pool, classes, added, c);
          OthersStay(pool, classes, added, nt);
          assert ValidConst(pool, nt);
          TextKept(pool, classes, added, pool[nt].name_);
          TextKept(pool, classes, added, pool[nt].descriptor);
        case NameType(n, d) =>
          TextKept(pool, classes, added, n);
          TextKept(pool, classes, added, d);
        case Word(_, _) =>
        case Wide(_, _, _) =>
        case Unusable =>
      }
    }
  }

  /** The index a stack map uses for the k-th added class resolves to its name. */
  lemma AddedClassResolves(pool: seq<Const>, classes: seq<Text>, added: seq<Text>, k: nat)
    requires ValidPool(pool) && NamesKnown(pool, classes, added) && k < |classes|
    ensures var w, i := Written(pool, classes, added), LastNotUtf8(pool) + 1 + k;
            i < |w| && Meaning(w, i) == CClass(classes[k])
  {
    var w, i := Written(pool, classes, added), LastNotUtf8(pool) + 1 + k;
    assert w[i] == ClassIndex(Lookup(pool, |classes|, added, classes[k]));
    LookupResolves(pool, classes, added, classes[k]);
  }
}
