/** The types of the stack maps: the entries made for them, and that the entries lead back to the types. */
module StackMapTypes {
  import opened Octets
  import opened Types
  import opened ModifiedUtf8
  import opened ConstantPool
  import opened ClassWriter
  import opened MethodFormat
  import MethodWriter

  const ARRAY: Byte := 91
  const CLASS_NAME: Byte := 76
  const END_CLASS: Byte := 59

  const ITEM_BOGUS: nat := 0
  const ITEM_INTEGER: nat := 1
  const ITEM_FLOAT: nat := 2
  const ITEM_DOUBLE: nat := 3
  const ITEM_LONG: nat := 4
  const ITEM_NULL: nat := 5
  const ITEM_INIT_OBJECT: nat := 6

  // ----- printing a type: get_type_name -----

  function NameOf(c: ClassRef): string {
    match c
    case Interface(n) => n
    case Cls(JavaLangObject) => "java/lang/Object"
    case Cls(Subclass(n, _)) => n
  }

  /** Class names are byte strings in which the marks of descriptors do not occur. */
  predicate LegalName(c: ClassRef) {
    NameOf(c) != "" && forall i | 0 <= i < |NameOf(c)| :: (NameOf(c)[i] as int) < 256 && NameOf(c)[i] != '[' && NameOf(c)[i] != ';'
  }

  function ClassText(c: ClassRef): (s: Text)
    requires LegalName(c)
    ensures |s| == |NameOf(c)| && s != [] && forall i | 0 <= i < |s| :: s[i] != ARRAY && s[i] != END_CLASS
  {
    seq(|NameOf(c)|, i requires 0 <= i < |NameOf(c)| => NameOf(c)[i] as int)
  }

  function Letter(p: Prim): Byte {
    match p
    case PBoolean => 90
    case PByte => 66
    case PShort => 83
    case PChar => 67
    case PInt => 73
    case PFloat => 70
    case PLong => 74
    case PDouble => 68
  }

  function Brackets(n: nat): (s: Text)
    ensures |s| == n && forall i | 0 <= i < n :: s[i] == ARRAY
  {
    seq(n, _ => ARRAY)
  }

  predicate Printable(t: Type) {
    t.PrimArray? || (t.Obj? && LegalName(t.base))
  }

  /** The name of a class or array type in the constant pool. */
  function TypeName(t: Type): Text
    requires Printable(t)
  {
    match t
    case Obj(d, c) => if d == 0 then ClassText(c) else Brackets(d) + ([CLASS_NAME] + ClassText(c) + [END_CLASS])
    case PrimArray(k, p) => Brackets(k + 1) + [Letter(p)]
  }

  method GetTypeName(t: Type) returns (buf: Text)
    requires Printable(t)
    ensures buf == TypeName(t)
  {
    buf := [];
    var indirection := if t.Obj? then t.dims else t.more + 1;
    var i := indirection;
    while i > 0
      invariant 0 <= i <= indirection && buf == Brackets(indirection - i)
    {
      i := i - 1;
      buf := buf + [ARRAY];
    }
    if t.PrimArray? {
      buf := buf + [Letter(t.prim)];
    } else {
      if indirection > 0 {
        buf := buf + [CLASS_NAME];
      }
      buf := buf + ClassText(t.base);
      if indirection > 0 {
        buf := buf + [END_CLASS];
        assert buf == TypeName(t);
      }
    }
  }

  /** The bytes of the buffer that get_type_code has the name printed into. */
  const BUFFER_SIZE: nat := 1024

  /** The name and the zero behind it fit into the buffer. */
  predicate FitsBuffer(t: Type)
    requires Printable(t)
  {
    |TypeName(t)| + 1 <= BUFFER_SIZE
  }

  /** Exactly when a name fits: arrays of primitives always do, as they have at most 255 dimensions. */
  lemma FitsBufferExactly(t: Type)
    requires Printable(t)
    ensures FitsBuffer(t) <==>
            match t
            case Obj(d, c) => if d == 0 then |NameOf(c)| <= 1023 else |NameOf(c)| + d <= 1021
            case PrimArray(k, _) => k <= 1021
  {
    hide ClassText, Brackets;
  }

  /** A class with a name of 1024 letters, which a class file may have, is printed over the end of the buffer. */
  lemma LongNameOverruns()
    ensures var t := Obj(0, Interface(seq(1024, _ => 'a'))); Printable(t) && !FitsBuffer(t)
  {
    var t := Obj(0, Interface(seq(1024, _ => 'a')));
    assert NameOf(t.base)[0] == 'a';
    FitsBufferExactly(t);
  }

  // ----- reading a name: cp_index_to_class_fullinfo -----

  /** Where the next `;` is; the length if there is none. */
  function NextEnd(s: Text, p: nat): (q: nat)
    requires p <= |s|
    ensures p <= q <= |s| && (q < |s| ==> s[q] == END_CLASS)
    decreases |s| - p
  {
    if p == |s| || s[p] == END_CLASS then p else NextEnd(s, p + 1)
  }

  function PrimOf(letter: Byte): Option<Prim> {
    match letter
    case 90 => Some(PBoolean)
    case 66 => Some(PByte)
    case 83 => Some(PShort)
    case 67 => Some(PChar)
    case 73 => Some(PInt)
    case 70 => Some(PFloat)
    case 74 => Some(PLong)
    case 68 => Some(PDouble)
    case _ => None
  }

  /** The primitive outside of an array. */
  function Item(p: Prim): Type {
    match p
    case PFloat => Float
    case PLong => Long
    case PDouble => Double
    case _ => Integer
  }

  /** The class ID table: the class of a name. */
  type Loader = Text -> ClassRef

  /** signature_to_fieldtype below `depth` brackets; None when a class name has no end. */
  function FieldType(load: Loader, s: Text, p: nat, depth: nat): Option<Type>
    requires p <= |s|
    decreases |s| - p
  {
    if p == |s| then Some(Bogus)
    else if s[p] == ARRAY then FieldType(load, s, p + 1, depth + 1)
    else if s[p] == CLASS_NAME then
      var finish := NextEnd(s, p + 1);
      if finish == |s| then None else Some(Obj(depth, load(s[p + 1..finish])))
    else if PrimOf(s[p]).Some? then
      Some(if depth > 0 then PrimArray(depth - 1, PrimOf(s[p]).value) else Item(PrimOf(s[p]).value))
    else Some(Bogus)
  }

  function TypeOfName(load: Loader, s: Text): Option<Type> {
    if s != [] && s[0] == ARRAY then FieldType(load, s, 0, 0) else Some(Obj(0, load(s)))
  }

  method CpIndexToClassFullinfo(load: Loader, s: Text) returns (t: Option<Type>)
    ensures t == TypeOfName(load, s)
  {
    if s == [] || s[0] != ARRAY {
      return Some(Obj(0, load(s)));
    }
    var p, depth := 0, 0;
    while p < |s| && s[p] == ARRAY
      invariant p <= |s| && FieldType(load, s, 0, 0) == FieldType(load, s, p, depth)
      decreases |s| - p
    {
      p, depth := p + 1, depth + 1;
    }
    if p < |s| && s[p] == CLASS_NAME {
      var finish := p + 1;
      while finish < |s| && s[finish] != END_CLASS
        invariant p + 1 <= finish <= |s| && NextEnd(s, p + 1) == NextEnd(s, finish)
      {
        finish := finish + 1;
      }
      t := if finish == |s| then None else Some(Obj(depth, load(s[p + 1..finish])));
    } else if p < |s| && PrimOf(s[p]).Some? {
      t := Some(if depth > 0 then PrimArray(depth - 1, PrimOf(s[p]).value) else Item(PrimOf(s[p]).value));
    } else {
      t := Some(Bogus);
    }
  }

  lemma {:induction false} BehindBrackets(load: Loader, s: Text, p: nat, n: nat)
    requires p <= n <= |s| && forall i | 0 <= i < n :: s[i] == ARRAY
    ensures FieldType(load, s, p, p) == FieldType(load, s, n, n)
    decreases n - p
  {
    if p < n {
      BehindBrackets(load, s, p + 1, n);
    }
  }

  lemma {:induction false} EndIs(s: Text, p: nat, q: nat)
    requires p <= q < |s| && s[q] == END_CLASS && forall i | p <= i < q :: s[i] != END_CLASS
    ensures NextEnd(s, p) == q
    decreases q - p
  {
    if p < q {
      EndIs(s, p + 1, q);
    }
  }

  lemma LettersDiffer(p: Prim)
    ensures PrimOf(Letter(p)) == Some(p) && Letter(p) != ARRAY && Letter(p) != CLASS_NAME
  {
  }

  /** The printed name is read as the very type it was printed from. */
  lemma ReadsBack(load: Loader, t: Type)
    requires Printable(t) && (t.Obj? ==> load(ClassText(t.base)) == t.base)
    ensures TypeOfName(load, TypeName(t)) == Some(t)
  {
    var s := TypeName(t);
    match t {
      case Obj(d, c) =>
        if d > 0 {
          var name := ClassText(c);
          assert s[d] == CLASS_NAME && s[d + 1..d + 1 + |name|] == name && s[d + 1 + |name|] == END_CLASS;
          assert forall i | d + 1 <= i < d + 1 + |name| :: s[i] == name[i - d - 1];
          BehindBrackets(load, s, 0, d);
          EndIs(s, d + 1, d + 1 + |name|);
        }
      case PrimArray(k, p) =>
        BehindBrackets(load, s, 0, k + 1);
        LettersDiffer(p);
        assert s[k + 1] == Letter(p);
    }
  }

  // ----- entries: get_type_code -----

  /** The name an entry's info stands for. */
  function NameBehind(pool: seq<Const>, classes: seq<Text>, info: int): Option<Text> {
    if info >= 0 then if IsClass(pool, info) then Some(ClassAt(pool, info)) else None
    else if -1 - info < |classes| then Some(classes[-1 - info])
    else None
  }

  /** The entry describes the type; offsets are those of the instructions. */
  predicate Denotes(pool: seq<Const>, classes: seq<Text>, offsets: seq<nat>, e: MapEntry, t: Type) {
    match t
    case Bogus => e.tag == ITEM_BOGUS
    case Double2 => e.tag == ITEM_BOGUS
    case Long2 => e.tag == ITEM_BOGUS
    case Integer => e.tag == ITEM_INTEGER
    case Float => e.tag == ITEM_FLOAT
    case Double => e.tag == ITEM_DOUBLE
    case Long => e.tag == ITEM_LONG
    case Null => e.tag == ITEM_NULL
    case InitObject => e.tag == ITEM_INIT_OBJECT
    case NewObject(i) => e.tag == ITEM_NEW_OBJECT && i < |offsets| && e.info == offsets[i]
    case Void => false
    case ReturnAddress(_) => false
    case _ => e.tag == ITEM_OBJECT && Printable(t) && NameBehind(pool, classes, e.info) == Some(TypeName(t))
  }

  /** The types that occur in registers and on the stack of code without subroutines. */
  predicate Coded(offsets: seq<nat>, t: Type) {
    && !t.Void? && !t.ReturnAddress? && (t.NewObject? ==> t.inumber < |offsets|) && (t.Obj? ==> LegalName(t.base))
  }

  /** The added classes are new and added once. */
  ghost predicate AllNew(pool: seq<Const>, classes: seq<Text>) {
    && (forall i, j | 0 <= i < j < |classes| :: classes[i] != classes[j])
    && forall i, k: nat | 0 <= i < |classes| && IsClass(pool, k) :: ClassAt(pool, k) != classes[i]
  }

  /** Classes added later do not change what an entry describes. */
  lemma StillDenotes(pool: seq<Const>, classes: seq<Text>, later: seq<Text>, offsets: seq<nat>, e: MapEntry, t: Type)
    requires Denotes(pool, classes, offsets, e, t) && classes <= later
    ensures Denotes(pool, later, offsets, e, t)
  {
  }

  class TypeCoder {
    const pool: seq<Const>
    const offsets: seq<nat>
    /** new_class_entries */
    var classes: seq<Text>

    constructor (pool: seq<Const>, offsets: seq<nat>)
      ensures this.pool == pool && this.offsets == offsets && classes == [] && AllNew(pool, classes)
    {
      this.pool, this.offsets, classes := pool, offsets, [];
    }

    /** check_class_constant */
    method CheckClassConstant(name: Text) returns (i: int)
      ensures i >= 0 ==> IsClass(pool, i) && ClassAt(pool, i) == name
      ensures i < 0 ==> forall k: nat | IsClass(pool, k) :: ClassAt(pool, k) != name
    {
      i := 0;
      while i < |pool|
        invariant 0 <= i <= |pool| && forall k: nat | k < i && IsClass(pool, k) :: ClassAt(pool, k) != name
      {
        if IsClass(pool, i) && ClassAt(pool, i) == name {
          return;
        }
        i := i + 1;
      }
      i := -1;
    }

    /** get_type_code */
    method GetTypeCode(t: Type) returns (e: MapEntry)
      requires Coded(offsets, t) && AllNew(pool, classes)
      modifies this
      ensures old(classes) <= classes <= old(classes) + (if Printable(t) then [TypeName(t)] else []) && AllNew(pool, classes)
      ensures Denotes(pool, classes, offsets, e, t)
    {
      match t {
        case Double2 => e := MapEntry(ITEM_BOGUS, 0);
        case Long2 => e := MapEntry(ITEM_BOGUS, 0);
        case Bogus => e := MapEntry(ITEM_BOGUS, 0);
        case Integer => e := MapEntry(ITEM_INTEGER, 0);
        case Float => e := MapEntry(ITEM_FLOAT, 0);
        case Double => e := MapEntry(ITEM_DOUBLE, 0);
        case Long => e := MapEntry(ITEM_LONG, 0);
        case InitObject => e := MapEntry(ITEM_INIT_OBJECT, 0);
        case NewObject(i) => e := MapEntry(ITEM_NEW_OBJECT, offsets[i]);
        case Null => e := MapEntry(ITEM_NULL, 0);
        case Obj(_, _) => e := ReferenceCode(t);
        case PrimArray(_, _) => e := ReferenceCode(t);
        case Void => assert false;
        case ReturnAddress(_) => assert false;
      }
    }

    method ReferenceCode(t: Type) returns (e: MapEntry)
      requires Printable(t) && AllNew(pool, classes)
      modifies this
      ensures old(classes) <= classes <= old(classes) + [TypeName(t)] && AllNew(pool, classes)
      ensures e.tag == ITEM_OBJECT && NameBehind(pool, classes, e.info) == Some(TypeName(t))
    {
      hide TypeName, AllNew, NameBehind;
      var name := GetTypeName(t);
      var info := ClassEntry(name);
      e := MapEntry(ITEM_OBJECT, info);
    }

    /** The class part of get_type_code: an old class, one added before, or a new one. */
    method ClassEntry(name: Text) returns (info: int)
      requires AllNew(pool, classes)
      modifies this
      ensures old(classes) <= classes <= old(classes) + [name] && AllNew(pool, classes)
      ensures NameBehind(pool, classes, info) == Some(name)
    {
      hide ClassAt;
      info := CheckClassConstant(name);
      if info >= 0 {
        return;
      }
      var i := 0;
      while i < |classes|
        invariant 0 <= i <= |classes| && forall k | 0 <= k < i :: classes[k] != name
      {
        if classes[i] == name {
          return -1 - i;
        }
        i := i + 1;
      }
      info := -1 - |classes|;
      classes := classes + [name];
    }

    // ----- one stack map: the end of verify_method -----

    /** The entries for the registers: a long or double takes one entry for its two registers. */
    method LocalEntries(registers: seq<Type>) returns (entries: seq<MapEntry>)
      requires AllNew(pool, classes) && forall i | 0 <= i < |registers| :: Coded(offsets, registers[i])
      modifies this
      ensures old(classes) <= classes && AllNew(pool, classes)
      ensures |entries| == |MapTypes(registers)|
      ensures forall i | 0 <= i < |entries| :: Denotes(pool, classes, offsets, entries[i], MapTypes(registers)[i])
    {
      hide AllNew, Denotes, Coded, TypeName, Printable, MapTypes;
      MapTypesEnd();
      entries := [];
      ghost var done: seq<Type> := [];
      var index := 0;
      while index < |registers|
        invariant 0 <= index <= |registers| && old(classes) <= classes && AllNew(pool, classes)
        invariant |entries| == |done| && done + MapTypes(registers[index..]) == MapTypes(registers)
        invariant forall i | 0 <= i < |entries| :: Denotes(pool, classes, offsets, entries[i], done[i])
      {
        MapTypesFrom(registers, index);
        var info := registers[index];
        var before := classes;
        var shown := if IsWide(info) && !Paired(registers, index) then Bogus else info;
        BogusCoded(offsets);
        var e := GetTypeCode(shown);
        AllStillDenote(pool, before, classes, offsets, entries, done);
        entries, done := entries + [e], done + [shown];
        index := index + if IsWide(info) && Paired(registers, index) then 2 else 1;
      }
      assert registers[index..] == [] && done + [] == done;
    }

    /** The entries for the stack, which is linked from the top: the last is the top. */
    method StackEntries(stack: seq<Type>) returns (entries: seq<MapEntry>)
      requires AllNew(pool, classes) && forall i | 0 <= i < |stack| :: Coded(offsets, stack[i])
      modifies this
      ensures old(classes) <= classes && AllNew(pool, classes)
      ensures |entries| == |stack|
      ensures forall i | 0 <= i < |stack| :: Denotes(pool, classes, offsets, entries[|stack| - 1 - i], stack[i])
    {
      hide AllNew, Denotes, Coded, TypeName;
      entries := [];
      var index := 0;
      while index < |stack|
        invariant 0 <= index <= |stack| == |stack| && old(classes) <= classes && AllNew(pool, classes) && |entries| == index
        invariant forall i | 0 <= i < index :: Denotes(pool, classes, offsets, entries[index - 1 - i], stack[i])
      {
        var before, was := classes, entries;
        var e := GetTypeCode(stack[index]);
        forall i | 0 <= i < index ensures Denotes(pool, classes, offsets, was[index - 1 - i], stack[i]) {
          StillDenotes(pool, before, classes, offsets, was[index - 1 - i], stack[i]);
        }
        entries := [e] + was;
        index := index + 1;
      }
    }
  }

  lemma AllStillDenote(pool: seq<Const>, before: seq<Text>, after: seq<Text>, offsets: seq<nat>, entries: seq<MapEntry>, types: seq<Type>)
    requires before <= after && |entries| == |types|
    requires forall i | 0 <= i < |entries| :: Denotes(pool, before, offsets, entries[i], types[i])
    ensures forall i | 0 <= i < |entries| :: Denotes(pool, after, offsets, entries[i], types[i])
  {
    hide Denotes;
    forall i | 0 <= i < |entries| ensures Denotes(pool, after, offsets, entries[i], types[i]) {
      StillDenotes(pool, before, after, offsets, entries[i], types[i]);
    }
  }

  lemma BogusCoded(offsets: seq<nat>)
    ensures Coded(offsets, Bogus)
  {
  }

  // ----- what the registers of a map stand for -----

  function SecondHalf(t: Type): Type {
    if t.Double? then Double2 else if t.Long? then Long2 else t
  }

  /** A long or double with its second half behind it. */
  predicate Paired(registers: seq<Type>, i: nat)
    requires i < |registers|
  {
    IsWide(registers[i]) && i + 1 < |registers| && registers[i + 1] == SecondHalf(registers[i])
  }

  /** The types listed for the registers, in the order of the loop. */
  function MapTypes(registers: seq<Type>): seq<Type> {
    if registers == [] then []
    else if Paired(registers, 0) then [registers[0]] + MapTypes(registers[2..])
    else [if IsWide(registers[0]) then Bogus else registers[0]] + MapTypes(registers[1..])
  }

  lemma MapTypesEnd()
    ensures MapTypes([]) == []
  {
  }

  lemma MapTypesFrom(registers: seq<Type>, i: nat)
    requires i < |registers|
    ensures Paired(registers, i) ==> i + 2 <= |registers| && MapTypes(registers[i..]) == [registers[i]] + MapTypes(registers[i + 2..])
    ensures !Paired(registers, i) ==>
              MapTypes(registers[i..]) == [if IsWide(registers[i]) then Bogus else registers[i]] + MapTypes(registers[i + 1..])
  {
    var rest := registers[i..];
    assert rest[1..] == registers[i + 1..];
    if Paired(registers, i) {
      assert rest[2..] == registers[i + 2..];
    }
  }

  /** The registers a reader of the map sees: an entry for a long or double covers two of them. */
  function Covered(types: seq<Type>): seq<Type> {
    if types == [] then []
    else (if IsWide(types[0]) then [types[0], SecondHalf(types[0])] else [if types[0] == Double2 || types[0] == Long2 then Bogus else types[0]])
         + Covered(types[1..])
  }

  /** What is left of register i when halves that have lost their partner are unusable. */
  function Usable(registers: seq<Type>, i: nat): Type
    requires i < |registers|
  {
    var t := registers[i];
    if IsWide(t) && !Paired(registers, i) then Bogus
    else if (t == Double2 || t == Long2) && !(i > 0 && Paired(registers, i - 1)) then Bogus
    else t
  }

  /** The map covers the registers one by one: each is shown as it is, or as unusable if it is a half without partner. */
  lemma {:induction false} MapCoversRegisters(registers: seq<Type>)
    ensures |Covered(MapTypes(registers))| == |registers|
    ensures forall i | 0 <= i < |registers| :: Covered(MapTypes(registers))[i] == Usable(registers, i)
    decreases |registers|
  {
    if registers != [] {
      var n := if Paired(registers, 0) then 2 else 1;
      var rest := registers[n..];
      MapCoversRegisters(rest);
      var first := [if IsWide(registers[0]) && n == 1 then Bogus else registers[0]];
      assert MapTypes(registers) == first + MapTypes(rest);
      assert (first + MapTypes(rest))[1..] == MapTypes(rest);
      forall i | n <= i < |registers| ensures Usable(registers, i) == Usable(rest, i - n) {
        assert rest[i - n] == registers[i];
        assert i + 1 < |registers| ==> rest[i + 1 - n] == registers[i + 1];
        assert i > n ==> rest[i - n - 1] == registers[i - 1];
      }
    }
  }

  // ----- through the written class file -----

  /**
   An entry for a class or array type is written as the index of a class constant of the
   new pool, and the verifier reads the name of that constant as the very type the entry
   was made for.
   */
  lemma EntryLeadsBack(load: Loader, pool: seq<Const>, classes: seq<Text>, offsets: seq<nat>, e: MapEntry, t: Type)
    requires ValidPool(pool) && ClassesOk(true, classes) && Denotes(pool, classes, offsets, e, t) && e.tag == ITEM_OBJECT
    requires t.Obj? ==> load(ClassText(t.base)) == t.base
    ensures var w := NewPool(pool, true, classes);
            var i := WrittenClass(MethodWriter.IndexIn(pool, |classes|, AddedFor(pool, true, classes)), e.info);
            && Printable(t) && i < |w| && Meaning(w, i) == CClass(TypeName(t))
            && Meaning(w, i).CClass? && TypeOfName(load, Meaning(w, i).name) == Some(t)
  {
    hide *;
    var added := AddedFor(pool, true, classes);
    FirstUnusable(pool, classes, added);
    NewPoolIs(pool, true, classes);
    ClassEntryDenotes(pool, classes, offsets, e, t);
    ReadsBack(load, t);
    NewNamesKnown(pool, true, classes);
    InfoResolves(pool, classes, added, e.info, TypeName(t));
  }

  lemma ClassEntryDenotes(pool: seq<Const>, classes: seq<Text>, offsets: seq<nat>, e: MapEntry, t: Type)
    requires Denotes(pool, classes, offsets, e, t) && e.tag == ITEM_OBJECT
    ensures Printable(t) && NameBehind(pool, classes, e.info) == Some(TypeName(t))
  {
    hide TypeName, NameBehind;
  }

  lemma InfoResolves(pool: seq<Const>, classes: seq<Text>, added: seq<Text>, info: int, name: Text)
    requires ValidPool(pool) && NamesKnown(pool, classes, added) && NameBehind(pool, classes, info) == Some(name)
    ensures pool != [] && pool[0].Unusable?
    ensures var w, i := Written(pool, classes, added), WrittenClass(MethodWriter.IndexIn(pool, |classes|, added), info);
            i < |w| && Meaning(w, i) == CClass(name)
  {
    if info >= 0 {
      OldClassResolves(pool, classes, added, info);
    } else {
      AddedClassResolves(pool, classes, added, -1 - info);
    }
    hide Meaning, Written, NamesKnown, LastNotUtf8, ClassAt;
  }

  lemma OldClassResolves(pool: seq<Const>, classes: seq<Text>, added: seq<Text>, i: nat)
    requires ValidPool(pool) && IsClass(pool, i)
    ensures i < |Written(pool, classes, added)| && Meaning(Written(pool, classes, added), i) == CClass(ClassAt(pool, i))
  {
    MeaningKept(pool, classes, added, i);
    OthersStay(pool, classes, added, i);
    hide Written, NewIndex, ClassAt;
  }
}
