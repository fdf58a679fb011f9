/** What WriteClass writes the loader reads back: the same class, to the last byte. */
module ClassRoundTrip {
  import opened Octets
  import opened Types
  import opened ModifiedUtf8
  import opened ConstantPool
  import opened ClassBytes
  import opened ClassWriter
  import opened MethodFormat
  import opened ClassFormat
  import MethodWriter

  // ----- attributes -----

  predicate InnerOk(w: seq<Const>, index: Indices, c: InnerClass) {
    && c.inner < 0x1_0000 && c.outer < 0x1_0000 && c.access < 0x1_0000
    && ZeroOrClass(w, c.inner) && ZeroOrClass(w, c.outer) && (c.name.Some? ==> Refers(w, index, c.name.value))
  }

  predicate AttributeOk(w: seq<Const>, index: Indices, a: Attribute) {
    && Refers(w, index, NameOf(a))
    && match a
       case ConstantValue(n) => n < 0x1_0000
       case SourceFile(s) => Refers(w, index, s)
       case AbsoluteSourcePath(s) => Refers(w, index, s)
       case TimeStamp(h, l) => h < 0x1_0000_0000 && l < 0x1_0000_0000
       case Deprecated => true
       case Synthetic => true
       case InnerClasses(cs) => |cs| < 0x1_0000 && forall i | 0 <= i < |cs| :: InnerOk(w, index, cs[i])
  }

  lemma AttributeNamesDiffer()
    ensures |ConstantValueName()| == 13 && |SourceFileName()| == 10 && |AbsoluteSourcePathName()| == 18 && |TimeStampName()| == 9
    ensures |DeprecatedName()| == 10 && |SyntheticName()| == 9 && |InnerClassesName()| == 12
    ensures SourceFileName()[0] != DeprecatedName()[0] && TimeStampName()[0] != SyntheticName()[0]
  {
  }

  /** Name, length and content of an attribute. */
  lemma AttributeHead(w: seq<Const>, b: seq<Byte>, p: nat, index: Indices, a: Attribute)
    requires AttributeOk(w, index, a) && Has(b, p, AttributeBytes(index, a))
    ensures GetText(w, b, p) == Some(NameOf(a)) && p + 6 <= |b| && Get4(b, p + 2) == |InfoOf(index, a)| && Has(b, p + 6, InfoOf(index, a))
    ensures |AttributeBytes(index, a)| == 6 + |InfoOf(index, a)|
  {
    ContentFits(w, index, a);
    hide InfoOf, NameOf, U2, U4, Get2, Get4, Has, Refers, GetText;
    HasBoth(b, p, U2(index.of(NameOf(a))), U4(|InfoOf(index, a)|) + InfoOf(index, a));
    HasBoth(b, p + 2, U4(|InfoOf(index, a)|), InfoOf(index, a));
    ReadsText(w, b, p, index, NameOf(a));
    ReadsU4(b, p + 2, |InfoOf(index, a)|);
  }

  lemma ContentFits(w: seq<Const>, index: Indices, a: Attribute)
    requires AttributeOk(w, index, a)
    ensures |InfoOf(index, a)| < 0x1_0000_0000
    ensures |InfoOf(index, a)| == match a
                                   case ConstantValue(_) => 2
                                   case SourceFile(_) => 2
                                   case AbsoluteSourcePath(_) => 2
                                   case TimeStamp(_, _) => 8
                                   case Deprecated => 0
                                   case Synthetic => 0
                                   case InnerClasses(cs) => 8 * |cs| + 2
  {
    hide U2, U4, NameOf, Refers;
  }

  lemma ReadsInner(w: seq<Const>, b: seq<Byte>, p: nat, index: Indices, c: InnerClass)
    requires InnerOk(w, index, c) && Has(b, p, InnerBytes(index, c))
    ensures ParseInner(w, b, p) == Some((c, p + 8))
  {
    var name := NameIndex(index, c.name);
    HasBoth(b, p, U2(c.inner), U2(c.outer) + (U2(name) + U2(c.access)));
    HasBoth(b, p + 2, U2(c.outer), U2(name) + U2(c.access));
    HasBoth(b, p + 4, U2(name), U2(c.access));
    ReadsU2(b, p, c.inner);
    ReadsU2(b, p + 2, c.outer);
    ReadsU2(b, p + 4, name);
    ReadsU2(b, p + 6, c.access);
    hide Has, U2, Get2, ClassText;
    if c.name.Some? {
      assert GetText(w, b, p + 4) == c.name;
    }
  }

  lemma {:induction false} ReadsInners(w: seq<Const>, b: seq<Byte>, p: nat, index: Indices, cs: seq<InnerClass>)
    requires (forall i | 0 <= i < |cs| :: InnerOk(w, index, cs[i])) && Has(b, p, InnersBytes(index, cs))
    ensures ParseInners(w, b, p, |cs|) == Some((cs, p + 8 * |cs|))
    decreases |cs|
  {
    hide Has, InnerOk, InnerBytes, ParseInner;
    if cs != [] {
      HasBoth(b, p, InnerBytes(index, cs[0]), InnersBytes(index, cs[1..]));
      ReadsInner(w, b, p, index, cs[0]);
      ReadsInners(w, b, p + 8, index, cs[1..]);
      assert [cs[0]] + cs[1..] == cs;
    }
  }

  lemma ReadsFieldAttribute(w: seq<Const>, b: seq<Byte>, p: nat, index: Indices, a: Attribute, isStatic: bool)
    requires AttributeOk(w, index, a) && Has(b, p, AttributeBytes(index, a))
    requires (a.ConstantValue? && isStatic) || a.Deprecated? || a.Synthetic?
    ensures ParseFieldAttribute(w, b, p, isStatic) == Some((Some(a), p + |AttributeBytes(index, a)|))
  {
    AttributeNamesDiffer();
    AttributeHead(w, b, p, index, a);
    ContentFits(w, index, a);
    if a.ConstantValue? {
      ReadsU2(b, p + 6, a.index);
    }
    hide ConstantValueName, DeprecatedName, SyntheticName, GetText, Get2, Get4, Has, AttributeBytes, Skipped, AttributeOk;
  }

  lemma ReadsSource(w: seq<Const>, b: seq<Byte>, p: nat, index: Indices, a: Attribute)
    requires AttributeOk(w, index, a) && Has(b, p, AttributeBytes(index, a)) && (a.SourceFile? || a.AbsoluteSourcePath?)
    ensures ParseClassAttribute(w, b, p) == Some((Some(a), p + |AttributeBytes(index, a)|))
  {
    AttributeNamesDiffer();
    AttributeHead(w, b, p, index, a);
    ContentFits(w, index, a);
    ReadsText(w, b, p + 6, index, if a.SourceFile? then a.file else a.path);
    hide ConstantValueName, DeprecatedName, SyntheticName, SourceFileName, AbsoluteSourcePathName, TimeStampName, InnerClassesName,
         GetText, Get2, Get4, Has, AttributeBytes, Skipped, ParseInners, AttributeOk;
  }

  lemma ReadsTimeStamp(w: seq<Const>, b: seq<Byte>, p: nat, index: Indices, a: Attribute)
    requires AttributeOk(w, index, a) && Has(b, p, AttributeBytes(index, a)) && a.TimeStamp?
    ensures ParseClassAttribute(w, b, p) == Some((Some(a), p + |AttributeBytes(index, a)|))
  {
    AttributeNamesDiffer();
    AttributeHead(w, b, p, index, a);
    ContentFits(w, index, a);
    HasBoth(b, p + 6, U4(a.high), U4(a.low));
    ReadsU4(b, p + 6, a.high);
    ReadsU4(b, p + 10, a.low);
    hide ConstantValueName, DeprecatedName, SyntheticName, SourceFileName, AbsoluteSourcePathName, TimeStampName, InnerClassesName,
         GetText, Get2, Get4, Has, AttributeBytes, Skipped, ParseInners, AttributeOk;
  }

  lemma ReadsFlag(w: seq<Const>, b: seq<Byte>, p: nat, index: Indices, a: Attribute)
    requires AttributeOk(w, index, a) && Has(b, p, AttributeBytes(index, a)) && (a.Deprecated? || a.Synthetic?)
    ensures ParseClassAttribute(w, b, p) == Some((Some(a), p + |AttributeBytes(index, a)|))
  {
    AttributeNamesDiffer();
    AttributeHead(w, b, p, index, a);
    ContentFits(w, index, a);
    hide ConstantValueName, DeprecatedName, SyntheticName, SourceFileName, AbsoluteSourcePathName, TimeStampName, InnerClassesName,
         GetText, Get2, Get4, Has, AttributeBytes, Skipped, ParseInners, AttributeOk;
  }

  lemma ReadsInnerClasses(w: seq<Const>, b: seq<Byte>, p: nat, index: Indices, a: Attribute)
    requires AttributeOk(w, index, a) && Has(b, p, AttributeBytes(index, a)) && a.InnerClasses?
    ensures ParseClassAttribute(w, b, p) == Some((Some(a), p + |AttributeBytes(index, a)|))
  {
    AttributeNamesDiffer();
    AttributeHead(w, b, p, index, a);
    ContentFits(w, index, a);
    HasBoth(b, p + 6, U2(|a.classes|), InnersBytes(index, a.classes));
    ReadsU2(b, p + 6, |a.classes|);
    ReadsInners(w, b, p + 8, index, a.classes);
    hide ConstantValueName, DeprecatedName, SyntheticName, SourceFileName, AbsoluteSourcePathName, TimeStampName, InnerClassesName,
         GetText, Get2, Get4, Has, AttributeBytes, Skipped, ParseInners, AttributeOk, InnersBytes;
  }

  lemma ReadsClassAttribute(w: seq<Const>, b: seq<Byte>, p: nat, index: Indices, a: Attribute)
    requires AttributeOk(w, index, a) && Has(b, p, AttributeBytes(index, a)) && !a.ConstantValue?
    ensures ParseClassAttribute(w, b, p) == Some((Some(a), p + |AttributeBytes(index, a)|))
  {
    hide *;
    if a.SourceFile? || a.AbsoluteSourcePath? {
      ReadsSource(w, b, p, index, a);
    } else if a.TimeStamp? {
      ReadsTimeStamp(w, b, p, index, a);
    } else if a.InnerClasses? {
      ReadsInnerClasses(w, b, p, index, a);
    } else {
      ReadsFlag(w, b, p, index, a);
    }
  }

  function AddAllToField(f: Field, attributes: seq<Attribute>): Option<Field>
    decreases |attributes|
  {
    if attributes == [] then Some(f)
    else
      var g := AddToField(f, attributes[0]);
      if g.None? then None else AddAllToField(g.value, attributes[1..])
  }

  function AddAllToClass(x: Extras, attributes: seq<Attribute>): Option<Extras>
    decreases |attributes|
  {
    if attributes == [] then Some(x)
    else
      var y := AddToClass(x, attributes[0]);
      if y.None? then None else AddAllToClass(y.value, attributes[1..])
  }

  predicate FieldAttributesOk(w: seq<Const>, index: Indices, f: Field, attributes: seq<Attribute>) {
    forall i | 0 <= i < |attributes| ::
      && AttributeOk(w, index, attributes[i])
      && ((attributes[i].ConstantValue? && IsStatic(f.access)) || attributes[i].Deprecated? || attributes[i].Synthetic?)
  }

  lemma {:induction false} ReadsFieldAttributes(w: seq<Const>, b: seq<Byte>, p: nat, index: Indices, f: Field, attributes: seq<Attribute>)
    requires FieldAttributesOk(w, index, f, attributes) && Has(b, p, AttributesBytes(index, attributes)) && AddAllToField(f, attributes).Some?
    ensures ParseFieldAttributes(w, b, p, |attributes|, f) ==
            Some((AddAllToField(f, attributes).value, p + |AttributesBytes(index, attributes)|))
    decreases |attributes|
  {
    hide Has, AttributeBytes, ParseFieldAttribute, AttributeOk;
    if attributes != [] {
      var a := attributes[0];
      HasBoth(b, p, AttributeBytes(index, a), AttributesBytes(index, attributes[1..]));
      ReadsFieldAttribute(w, b, p, index, a, IsStatic(f.access));
      ReadsFieldAttributes(w, b, p + |AttributeBytes(index, a)|, index, AddToField(f, a).value, attributes[1..]);
    }
  }

  lemma {:induction false} ReadsClassAttributes(w: seq<Const>, b: seq<Byte>, p: nat, index: Indices, x: Extras, attributes: seq<Attribute>)
    requires (forall i | 0 <= i < |attributes| :: AttributeOk(w, index, attributes[i]) && !attributes[i].ConstantValue?)
    requires Has(b, p, AttributesBytes(index, attributes)) && AddAllToClass(x, attributes).Some?
    ensures ParseClassAttributes(w, b, p, |attributes|, x) ==
            Some((AddAllToClass(x, attributes).value, p + |AttributesBytes(index, attributes)|))
    decreases |attributes|
  {
    hide Has, AttributeBytes, ParseClassAttribute, AttributeOk;
    if attributes != [] {
      var a := attributes[0];
      HasBoth(b, p, AttributeBytes(index, a), AttributesBytes(index, attributes[1..]));
      ReadsClassAttribute(w, b, p, index, a);
      ReadsClassAttributes(w, b, p + |AttributeBytes(index, a)|, index, AddToClass(x, a).value, attributes[1..]);
    }
  }

  // ----- fields -----

  predicate FieldOk(w: seq<Const>, index: Indices, f: Field) {
    && Refers(w, index, f.name) && Refers(w, index, f.descriptor)
    && FieldAttributesOk(w, index, f, FieldAttributes(f))
  }

  /** What comes back: the flags that are the loader's own are not written. */
  function RereadField(f: Field): Field {
    f.(access := WrittenFlags(f.access))
  }

  lemma FieldRebuilt(f: Field)
    ensures AddAllToField(RereadField(f).(constant := None, deprecated := false, synthetic := false), FieldAttributes(f)) == Some(RereadField(f))
    ensures |FieldAttributes(f)| <= 3 && IsStatic(WrittenFlags(f.access)) == IsStatic(f.access)
  {
    hide AddAllToField, IsStatic, WrittenFlags;
    StaticIsWritten(f.access);
    var f0 := RereadField(f).(constant := None, deprecated := false, synthetic := false);
    var a := if f.constant.Some? then [ConstantValue(f.constant.value)] else [];
    var d, s := if f.deprecated then [Deprecated] else [], if f.synthetic then [Synthetic] else [];
    var f1 := f0.(constant := f.constant);
    var f2 := f1.(deprecated := f.deprecated);
    AddMoreToField(f0, a, d + s);
    AddMoreToField(f1, d, s);
    AddMoreToField(f2, s, []);
    NoMoreToField(RereadField(f));
    assert s + [] == s;
    assert a + (d + s) == FieldAttributes(f);
  }

  lemma NoMoreToField(f: Field)
    ensures AddAllToField(f, []) == Some(f)
  {
  }

  lemma StaticIsWritten(access: nat)
    ensures IsStatic(WrittenFlags(access)) == IsStatic(access)
  {
  }

  lemma AddMoreToField(f: Field, a: seq<Attribute>, more: seq<Attribute>)
    requires |a| <= 1
    ensures a == [] ==> AddAllToField(f, a + more) == AddAllToField(f, more)
    ensures |a| == 1 && AddToField(f, a[0]).Some? ==> AddAllToField(f, a + more) == AddAllToField(AddToField(f, a[0]).value, more)
  {
    if a == [] {
      assert a + more == more;
    } else {
      assert (a + more)[1..] == more;
    }
  }

  lemma ReadsField(w: seq<Const>, b: seq<Byte>, p: nat, index: Indices, f: Field)
    requires FieldOk(w, index, f) && Has(b, p, FieldBytes(index, f))
    ensures ParseField(w, b, p) == Some((RereadField(f), p + |FieldBytes(index, f)|))
  {
    var attributes := FieldAttributes(f);
    FieldRebuilt(f);
    hide U2, Has, Get2, AttributesBytes, FieldAttributes, AddAllToField, Refers, GetText, IsStatic, AttributeOk, ParseFieldAttributes;
    var tail := CountedAttributes(index, attributes);
    HasBoth(b, p, U2(WrittenFlags(f.access)), U2(index.of(f.name)) + (U2(index.of(f.descriptor)) + tail));
    HasBoth(b, p + 2, U2(index.of(f.name)), U2(index.of(f.descriptor)) + tail);
    HasBoth(b, p + 4, U2(index.of(f.descriptor)), tail);
    HasBoth(b, p + 6, U2(|attributes|), AttributesBytes(index, attributes));
    ReadsU2(b, p, WrittenFlags(f.access));
    ReadsText(w, b, p + 2, index, f.name);
    ReadsText(w, b, p + 4, index, f.descriptor);
    ReadsU2(b, p + 6, |attributes|);
    ReadsFieldAttributes(w, b, p + 8, index, RereadField(f).(constant := None, deprecated := false, synthetic := false), attributes);
  }

  function RereadFields(fs: seq<Field>): (r: seq<Field>)
    ensures |r| == |fs|
  {
    seq(|fs|, i requires 0 <= i < |fs| => RereadField(fs[i]))
  }

  lemma {:induction false} ReadsFieldList(w: seq<Const>, b: seq<Byte>, p: nat, index: Indices, fs: seq<Field>)
    requires (forall i | 0 <= i < |fs| :: FieldOk(w, index, fs[i])) && Has(b, p, FieldListBytes(index, fs))
    ensures ParseFieldList(w, b, p, |fs|) == Some((RereadFields(fs), p + |FieldListBytes(index, fs)|))
    decreases |fs|
  {
    hide Has, FieldBytes, ParseField, FieldOk;
    if fs != [] {
      HasBoth(b, p, FieldBytes(index, fs[0]), FieldListBytes(index, fs[1..]));
      ReadsField(w, b, p, index, fs[0]);
      ReadsFieldList(w, b, p + |FieldBytes(index, fs[0])|, index, fs[1..]);
      assert [RereadField(fs[0])] + RereadFields(fs[1..]) == RereadFields(fs);
    }
  }

  lemma ReadsFields(w: seq<Const>, b: seq<Byte>, p: nat, index: Indices, fs: seq<Field>)
    requires |fs| < 0x1_0000 && (forall i | 0 <= i < |fs| :: FieldOk(w, index, fs[i])) && Has(b, p, FieldsBytes(index, fs))
    ensures ParseFields(w, b, p) == Some((RereadFields(fs), p + |FieldsBytes(index, fs)|))
  {
    hide Has, U2, Get2, FieldListBytes, ParseFieldList, FieldOk;
    HasBoth(b, p, U2(|fs|), FieldListBytes(index, fs));
    ReadsU2(b, p, |fs|);
    ReadsFieldList(w, b, p + 2, index, fs);
  }

  lemma ReadsInterfaces(b: seq<Byte>, p: nat, interfaces: seq<nat>)
    requires |interfaces| < 0x1_0000 && (forall i | 0 <= i < |interfaces| :: interfaces[i] < 0x1_0000)
    requires Has(b, p, InterfacesBytes(interfaces))
    ensures ParseInterfaces(b, p) == Some((interfaces, p + |InterfacesBytes(interfaces)|))
  {
    hide Has, U2, Get2, RowBytes, ParseRow;
    HasBoth(b, p, U2(|interfaces|), RowBytes(interfaces));
    ReadsU2(b, p, |interfaces|);
    ReadsRow(b, p + 2, interfaces);
  }

  // ----- the class attributes -----

  predicate ExtrasOk(w: seq<Const>, index: Indices, x: Extras) {
    forall i | 0 <= i < |ClassAttributes(x)| :: AttributeOk(w, index, ClassAttributes(x)[i])
  }

  lemma {:induction false} AddMoreToClass(x: Extras, a: seq<Attribute>, more: seq<Attribute>)
    requires |a| <= 1
    ensures a == [] ==> AddAllToClass(x, a + more) == AddAllToClass(x, more)
    ensures |a| == 1 && AddToClass(x, a[0]).Some? ==> AddAllToClass(x, a + more) == AddAllToClass(AddToClass(x, a[0]).value, more)
  {
    if a == [] {
      assert a + more == more;
    } else {
      assert (a + more)[1..] == more;
    }
  }

  function SourcePart(x: Extras): seq<Attribute> { if x.source.Some? then [SourceFile(x.source.value)] else [] }
  function PathPart(x: Extras): seq<Attribute> { if x.sourcePath.Some? then [AbsoluteSourcePath(x.sourcePath.value)] else [] }
  function StampPart(x: Extras): seq<Attribute> {
    if x.timeStamp.Some? then [TimeStamp(x.timeStamp.value.0, x.timeStamp.value.1)] else []
  }
  function DeprecatedPart(x: Extras): seq<Attribute> { if x.deprecated then [Deprecated] else [] }
  function SyntheticPart(x: Extras): seq<Attribute> { if x.synthetic then [Synthetic] else [] }
  function InnerPart(x: Extras): seq<Attribute> { if x.innerClasses.Some? then [InnerClasses(x.innerClasses.value)] else [] }

  lemma PartsOfClass(x: Extras)
    ensures ClassAttributes(x) ==
            SourcePart(x) + (PathPart(x) + (StampPart(x) + (DeprecatedPart(x) + (SyntheticPart(x) + InnerPart(x)))))
    ensures |ClassAttributes(x)| <= 6 && forall i | 0 <= i < |ClassAttributes(x)| :: !ClassAttributes(x)[i].ConstantValue?
  {
    Grouped(SourcePart(x), PathPart(x), StampPart(x), DeprecatedPart(x), SyntheticPart(x), InnerPart(x));
    hide SourcePart, PathPart, StampPart, DeprecatedPart, SyntheticPart, InnerPart;
    assert ClassAttributes(x) == SourcePart(x) + PathPart(x) + StampPart(x) + DeprecatedPart(x) + SyntheticPart(x) + InnerPart(x) by {
      PartsAre(x);
    }
    ShortParts(x);
  }

  lemma PartsAre(x: Extras)
    ensures ClassAttributes(x) == SourcePart(x) + PathPart(x) + StampPart(x) + DeprecatedPart(x) + SyntheticPart(x) + InnerPart(x)
  {
  }

  lemma ShortParts(x: Extras)
    ensures |SourcePart(x)| <= 1 && |PathPart(x)| <= 1 && |StampPart(x)| <= 1
    ensures |DeprecatedPart(x)| <= 1 && |SyntheticPart(x)| <= 1 && |InnerPart(x)| <= 1
    ensures forall i | 0 <= i < |ClassAttributes(x)| :: !ClassAttributes(x)[i].ConstantValue?
  {
  }

  lemma Grouped(a: seq<Attribute>, b: seq<Attribute>, c: seq<Attribute>, d: seq<Attribute>, e: seq<Attribute>, f: seq<Attribute>)
    ensures a + b + c + d + e + f == a + (b + (c + (d + (e + f))))
  {
  }

  lemma ExtrasRebuilt(x: Extras)
    ensures AddAllToClass(NoExtras(), ClassAttributes(x)) == Some(x)
  {
    var x1 := NoExtras().(source := x.source);
    var x2 := x1.(sourcePath := x.sourcePath);
    var x3 := x2.(timeStamp := x.timeStamp);
    var x4 := x3.(deprecated := x.deprecated);
    var x5 := x4.(synthetic := x.synthetic);
    PartsOfClass(x);
    hide AddAllToClass, ClassAttributes;
    AddMoreToClass(NoExtras(), SourcePart(x), PathPart(x) + (StampPart(x) + (DeprecatedPart(x) + (SyntheticPart(x) + InnerPart(x)))));
    AddMoreToClass(x1, PathPart(x), StampPart(x) + (DeprecatedPart(x) + (SyntheticPart(x) + InnerPart(x))));
    AddMoreToClass(x2, StampPart(x), DeprecatedPart(x) + (SyntheticPart(x) + InnerPart(x)));
    AddMoreToClass(x3, DeprecatedPart(x), SyntheticPart(x) + InnerPart(x));
    AddMoreToClass(x4, SyntheticPart(x), InnerPart(x));
    AddMoreToClass(x5, InnerPart(x), []);
    assert InnerPart(x) + [] == InnerPart(x);
    NoMoreToClass(x);
  }

  lemma NoMoreToClass(x: Extras)
    ensures AddAllToClass(x, []) == Some(x)
  {
  }

  lemma ReadsExtras(w: seq<Const>, b: seq<Byte>, p: nat, index: Indices, x: Extras)
    requires ExtrasOk(w, index, x) && Has(b, p, CountedAttributes(index, ClassAttributes(x)))
    ensures ParseExtras(w, b, p) == Some((x, p + |CountedAttributes(index, ClassAttributes(x))|))
  {
    var attributes := ClassAttributes(x);
    PartsOfClass(x);
    ExtrasRebuilt(x);
    hide Has, U2, Get2, AttributesBytes, ClassAttributes, AddAllToClass, ParseClassAttributes, AttributeOk;
    HasBoth(b, p, U2(|attributes|), AttributesBytes(index, attributes));
    ReadsU2(b, p, |attributes|);
    ReadsClassAttributes(w, b, p + 2, index, NoExtras(), attributes);
  }

  // ----- the file -----

  /** The names of the class and of its superclass are found under the indices written for them. */
  predicate NamesOk(wanted: Wanted, w: seq<Const>, pool: seq<Const>, c: ClassFile) {
    && FindClass(pool, c.name, 0) < 0x1_0000 && ClassText(w, FindClass(pool, c.name, 0)) == Some(c.name)
    && (wanted.name.Some? ==> wanted.name == Some(c.name))
    && (c.super.Some? ==>
          var i := SuperIndex(pool, c.super);
          0 < i < 0x1_0000 && ClassText(w, i) == c.super && wanted.legal(c.super.value))
  }

  predicate BodyOk(d: Derived, wanted: Wanted, w: seq<Const>, index: Indices, pool: seq<Const>, c: ClassFile) {
    && NamesOk(wanted, w, pool, c)
    && |c.interfaces| < 0x1_0000 && (forall i | 0 <= i < |c.interfaces| :: c.interfaces[i] < 0x1_0000)
    && |c.fields| < 0x1_0000 && (forall i | 0 <= i < |c.fields| :: FieldOk(w, index, c.fields[i]))
    && |c.methods| < 0x1_0000 && (forall i | 0 <= i < |c.methods| :: MethodOk(d, w, index, c.methods[i]))
    && ExtrasOk(w, index, c.extras)
  }

  /** The class as it comes back: without stack maps, and without flags of the loader's own. */
  function RereadClass(c: ClassFile): ClassFile {
    c.(access := WrittenFlags(c.access), fields := RereadFields(c.fields), methods := RereadAll(c.methods))
  }

  lemma ReadsNames(wanted: Wanted, w: seq<Const>, b: seq<Byte>, p: nat, pool: seq<Const>, c: ClassFile)
    requires NamesOk(wanted, w, pool, c) && Has(b, p, U2(FindClass(pool, c.name, 0))) && Has(b, p + 2, U2(SuperIndex(pool, c.super)))
    ensures ParseNames(wanted, w, b, p) == Some((c.name, c.super))
  {
    ReadsU2(b, p, FindClass(pool, c.name, 0));
    ReadsU2(b, p + 2, SuperIndex(pool, c.super));
    hide Has, U2, Get2, ClassText;
  }

  lemma BodyParts(index: Indices, pool: seq<Const>, c: ClassFile, b: seq<Byte>, p: nat)
    requires Has(b, p, Body(index, pool, c))
    ensures var i, f, m, x := |InterfacesBytes(c.interfaces)|, |FieldsBytes(index, c.fields)|, |MethodsBytes(index, c.methods)|,
                              CountedAttributes(index, ClassAttributes(c.extras));
            && p + 6 <= |b| && Has(b, p, U2(WrittenFlags(c.access))) && Has(b, p + 2, U2(FindClass(pool, c.name, 0)))
            && Has(b, p + 4, U2(SuperIndex(pool, c.super))) && Has(b, p + 6, InterfacesBytes(c.interfaces))
            && Has(b, p + 6 + i, FieldsBytes(index, c.fields)) && Has(b, p + 6 + i + f, MethodsBytes(index, c.methods))
            && Has(b, p + 6 + i + f + m, x) && |Body(index, pool, c)| == 6 + i + f + m + |x|
  {
    hide Has, U2, InterfacesBytes, FieldsBytes, MethodsBytes, CountedAttributes, FindClass, SuperIndex;
    var i, f, m, x := InterfacesBytes(c.interfaces), FieldsBytes(index, c.fields), MethodsBytes(index, c.methods),
                      CountedAttributes(index, ClassAttributes(c.extras));
    var u, v, t := U2(WrittenFlags(c.access)), U2(FindClass(pool, c.name, 0)), U2(SuperIndex(pool, c.super));
    HasBoth(b, p, u, v + (t + (i + (f + (m + x)))));
    HasBoth(b, p + 2, v, t + (i + (f + (m + x))));
    HasBoth(b, p + 4, t, i + (f + (m + x)));
    HasBoth(b, p + 6, i, f + (m + x));
    HasBoth(b, p + 6 + |i|, f, m + x);
    HasBoth(b, p + 6 + |i| + |f|, m, x);
    HasLength(b, p + 4, t);
  }

  lemma HasLength(b: seq<Byte>, p: nat, w: seq<Byte>)
    requires Has(b, p, w)
    ensures p + |w| <= |b|
  {
  }

  /** The body is read back if the file ends with it, and refused if anything follows. */
  lemma ReadsBody(d: Derived, wanted: Wanted, w: seq<Const>, b: seq<Byte>, p: nat, index: Indices, pool: seq<Const>, c: ClassFile)
    requires BodyOk(d, wanted, w, index, pool, c) && Has(b, p, Body(index, pool, c))
    ensures ParseBody(d, wanted, w, b, p, c.minor, c.major) == if |b| == p + |Body(index, pool, c)| then Some(RereadClass(c)) else None
  {
    hide *;
    BodyParts(index, pool, c, b, p);
    BodyNumbers(d, wanted, w, index, pool, c);
    var q := p + 6 + |InterfacesBytes(c.interfaces)|;
    var r := q + |FieldsBytes(index, c.fields)|;
    ReadsU2(b, p, WrittenFlags(c.access));
    ReadsNames(wanted, w, b, p + 2, pool, c);
    ReadsInterfaces(b, p + 6, c.interfaces);
    ReadsFields(w, b, q, index, c.fields);
    MethodsRoundTrip(d, w, b, r, index, c.methods);
    ReadsExtras(w, b, r + |MethodsBytes(index, c.methods)|, index, c.extras);
    BodyAssembled(d, wanted, w, b, p, c, q, r, r + |MethodsBytes(index, c.methods)|, p + |Body(index, pool, c)|);
  }

  lemma BodyNumbers(d: Derived, wanted: Wanted, w: seq<Const>, index: Indices, pool: seq<Const>, c: ClassFile)
    requires BodyOk(d, wanted, w, index, pool, c)
    ensures NamesOk(wanted, w, pool, c) && |c.interfaces| < 0x1_0000 && (forall i | 0 <= i < |c.interfaces| :: c.interfaces[i] < 0x1_0000)
    ensures |c.fields| < 0x1_0000 && (forall i | 0 <= i < |c.fields| :: FieldOk(w, index, c.fields[i]))
    ensures |c.methods| < 0x1_0000 && (forall i | 0 <= i < |c.methods| :: MethodOk(d, w, index, c.methods[i]))
    ensures ExtrasOk(w, index, c.extras) && WrittenFlags(c.access) < 0x1_0000
  {
    hide NamesOk, FieldOk, MethodOk, ExtrasOk;
  }

  /** The parts follow each other, and the last one ends the file. */
  lemma BodyAssembled(d: Derived, wanted: Wanted, w: seq<Const>, b: seq<Byte>, p: nat, c: ClassFile,
                      q: nat, r: nat, s: nat, end: nat)
    requires p + 6 <= |b| && Get2(b, p) == WrittenFlags(c.access) && ParseNames(wanted, w, b, p + 2) == Some((c.name, c.super))
    requires ParseInterfaces(b, p + 6) == Some((c.interfaces, q)) && ParseFields(w, b, q) == Some((RereadFields(c.fields), r))
    requires ParseMethods(d, w, b, r) == Some((RereadAll(c.methods), s)) && ParseExtras(w, b, s) == Some((c.extras, end))
    ensures ParseBody(d, wanted, w, b, p, c.minor, c.major) == if |b| == end then Some(RereadClass(c)) else None
  {
    FlagsKept(c.access);
    hide Get2, WrittenFlags, ParseNames, ParseInterfaces, ParseFields, ParseMethods, ParseExtras, RereadFields, RereadAll;
  }

  lemma FlagsKept(access: nat)
    ensures WrittenFlags(WrittenFlags(access)) == WrittenFlags(access)
  {
  }

  lemma FileParts(index: Indices, pool: seq<Const>, written: seq<Const>, c: ClassFile, junk: seq<Byte>)
    requires written != [] && c.minor < 0x1_0000 && c.major < 0x1_0000
    ensures var b := FileBytes(index, pool, written, c) + junk;
            && 8 <= |b| && Get4(b, 0) == MAGIC && Get2(b, 4) == c.minor && Get2(b, 6) == c.major && Has(b, 8, PoolBytes(written))
            && Has(b, 8 + |PoolBytes(written)|, Body(index, pool, c)) && |b| == 8 + |PoolBytes(written)| + |Body(index, pool, c)| + |junk|
  {
    hide *;
    FilePartsAre(index, pool, written, c);
    var f := FileBytes(index, pool, written, c);
    var b := f + junk;
    var p, body := PoolBytes(written), Body(index, pool, c);
    HasFirst(f, junk);
    HasBoth(b, 0, U4(MAGIC), U2(c.minor) + (U2(c.major) + (p + body)));
    HasBoth(b, 4, U2(c.minor), U2(c.major) + (p + body));
    HasBoth(b, 6, U2(c.major), p + body);
    HasBoth(b, 8, p, body);
    ReadsU4(b, 0, MAGIC);
    ReadsU2(b, 4, c.minor);
    ReadsU2(b, 6, c.major);
  }

  lemma FilePartsAre(index: Indices, pool: seq<Const>, written: seq<Const>, c: ClassFile)
    requires written != []
    ensures FileBytes(index, pool, written, c) == U4(MAGIC) + (U2(c.minor) + (U2(c.major) + (PoolBytes(written) + Body(index, pool, c))))
    ensures MAGIC < 0x1_0000_0000
  {
    hide U2, U4, PoolBytes, Body;
  }

  lemma HasFirst(f: seq<Byte>, junk: seq<Byte>)
    ensures Has(f + junk, 0, f)
  {
    assert (f + junk)[0..0 + |f|] == f;
  }

  // ----- from what the writer knows -----

  /** An attribute whose strings are known, and whose classes are classes. */
  predicate AttributeKnown(pool: seq<Const>, added: seq<Text>, a: Attribute) {
    && Known(pool, added, NameOf(a))
    && match a
       case ConstantValue(n) => n < 0x1_0000
       case SourceFile(s) => Known(pool, added, s)
       case AbsoluteSourcePath(s) => Known(pool, added, s)
       case TimeStamp(h, l) => h < 0x1_0000_0000 && l < 0x1_0000_0000
       case Deprecated => true
       case Synthetic => true
       case InnerClasses(cs) => |cs| < 0x1_0000 && forall i | 0 <= i < |cs| :: InnerKnown(pool, added, cs[i])
  }

  predicate InnerKnown(pool: seq<Const>, added: seq<Text>, c: InnerClass) {
    && (c.inner == 0 || IsClass(pool, c.inner)) && (c.outer == 0 || IsClass(pool, c.outer)) && c.access < 0x1_0000
    && (c.name.Some? ==> Known(pool, added, c.name.value))
  }

  predicate FieldKnown(pool: seq<Const>, added: seq<Text>, f: Field) {
    && Known(pool, added, f.name) && Known(pool, added, f.descriptor) && (f.constant.Some? ==> IsStatic(f.access))
    && forall i | 0 <= i < |FieldAttributes(f)| :: AttributeKnown(pool, added, FieldAttributes(f)[i])
  }

  /** A class as the loader leaves it and the verifier extends it; its own and its superclass's entries are in the pool. */
  predicate ClassFits(d: Derived, wanted: Wanted, pool: seq<Const>, added: seq<Text>, c: ClassFile) {
    && c.minor < 0x1_0000 && c.major < 0x1_0000
    && FindClass(pool, c.name, 0) < |pool| && (c.super.Some? ==> FindClass(pool, c.super.value, 0) < |pool|)
    && (wanted.name.Some? ==> wanted.name == Some(c.name)) && (c.super.Some? ==> wanted.legal(c.super.value))
    && |c.interfaces| < 0x1_0000 && (forall i | 0 <= i < |c.interfaces| :: IsClass(pool, c.interfaces[i]))
    && |c.fields| < 0x1_0000 && (forall i | 0 <= i < |c.fields| :: FieldKnown(pool, added, c.fields[i]))
    && |c.methods| < 0x1_0000
    && (forall i | 0 <= i < |c.methods| :: MethodWriter.NamesOf(pool, added, c.methods[i]) && MethodWriter.MethodFits(d, c.methods[i]))
    && forall i | 0 <= i < |ClassAttributes(c.extras)| :: AttributeKnown(pool, added, ClassAttributes(c.extras)[i])
  }

  /** A class entry is read as the class it was, under the same index. */
  lemma ClassIsRead(pool: seq<Const>, classes: seq<Text>, added: seq<Text>, i: nat)
    requires ValidPool(pool) && IsClass(pool, i)
    ensures ClassText(Written(pool, classes, added), i) == Some(ClassAt(pool, i))
  {
    OthersStay(pool, classes, added, i);
    assert ValidConst(pool, i);
    if pool[i].ClassNamed? {
      var s := pool[i].className;
      var k :| 0 < k < |pool| && pool[k] == Utf8(s);
      assert FindText(pool, s, 0) < |pool|;
      LookupResolves(pool, classes, added, s);
    } else {
      TextKept(pool, classes, added, pool[i].name);
    }
  }

  lemma AttributeIsOk(pool: seq<Const>, classes: seq<Text>, added: seq<Text>, a: Attribute)
    requires ValidPool(pool) && |pool| + |classes| + |added| <= MOST_CONSTANTS && AttributeKnown(pool, added, a)
    ensures AttributeOk(Written(pool, classes, added), MethodWriter.IndexIn(pool, |classes|, added), a)
  {
    var w, index := Written(pool, classes, added), MethodWriter.IndexIn(pool, |classes|, added);
    forall t | Known(pool, added, t) ensures Refers(w, index, t) {
      MethodWriter.KnownRefers(pool, classes, added, t);
    }
    forall i | IsClass(pool, i) ensures i < 0x1_0000 && ZeroOrClass(w, i) {
      ClassIsRead(pool, classes, added, i);
    }
    hide Known, Refers, Written, MethodWriter.IndexIn, NameOf, IsClass, ZeroOrClass, ValidPool;
  }

  lemma FieldIsOk(pool: seq<Const>, classes: seq<Text>, added: seq<Text>, f: Field)
    requires ValidPool(pool) && |pool| + |classes| + |added| <= MOST_CONSTANTS && FieldKnown(pool, added, f)
    ensures FieldOk(Written(pool, classes, added), MethodWriter.IndexIn(pool, |classes|, added), f)
  {
    MethodWriter.KnownRefers(pool, classes, added, f.name);
    MethodWriter.KnownRefers(pool, classes, added, f.descriptor);
    hide Known, Refers, Written, MethodWriter.IndexIn, ValidPool, AttributeKnown, AttributeOk, IsStatic;
    forall i | 0 <= i < |FieldAttributes(f)|
      ensures AttributeOk(Written(pool, classes, added), MethodWriter.IndexIn(pool, |classes|, added), FieldAttributes(f)[i])
    {
      AttributeIsOk(pool, classes, added, FieldAttributes(f)[i]);
    }
  }

  lemma NamesAreOk(d: Derived, wanted: Wanted, pool: seq<Const>, classes: seq<Text>, added: seq<Text>, c: ClassFile)
    requires ValidPool(pool) && |pool| <= MOST_CONSTANTS && ClassFits(d, wanted, pool, added, c)
    ensures NamesOk(wanted, Written(pool, classes, added), pool, c)
  {
    ClassIsRead(pool, classes, added, FindClass(pool, c.name, 0));
    if c.super.Some? {
      ClassIsRead(pool, classes, added, FindClass(pool, c.super.value, 0));
    }
    hide Written, ValidPool, ClassText;
  }

  lemma ClassIsOk(d: Derived, wanted: Wanted, pool: seq<Const>, classes: seq<Text>, added: seq<Text>, c: ClassFile)
    requires ValidPool(pool) && |pool| + |classes| + |added| <= MOST_CONSTANTS && ClassFits(d, wanted, pool, added, c)
    ensures BodyOk(d, wanted, Written(pool, classes, added), MethodWriter.IndexIn(pool, |classes|, added), pool, c)
  {
    var w, index := Written(pool, classes, added), MethodWriter.IndexIn(pool, |classes|, added);
    NamesAreOk(d, wanted, pool, classes, added, c);
    hide ValidPool, Written, MethodWriter.IndexIn, NamesOk, FieldKnown, FieldOk, MethodOk, AttributeKnown, AttributeOk, ClassAttributes, FindClass,
         MethodWriter.NamesOf, MethodWriter.MethodFits;
    forall i | 0 <= i < |c.fields| ensures FieldOk(w, index, c.fields[i]) {
      FieldIsOk(pool, classes, added, c.fields[i]);
    }
    forall i | 0 <= i < |c.methods| ensures MethodOk(d, w, index, c.methods[i]) {
      MethodWriter.MethodIsOk(d, pool, classes, added, c.methods[i]);
    }
    forall i | 0 <= i < |ClassAttributes(c.extras)| ensures AttributeOk(w, index, ClassAttributes(c.extras)[i]) {
      AttributeIsOk(pool, classes, added, ClassAttributes(c.extras)[i]);
    }
  }

  /** WriteClass: the bytes of the file. */
  function WrittenFile(pool: seq<Const>, hasStackMaps: bool, classes: seq<Text>, c: ClassFile): seq<Byte>
    requires pool != [] && pool[0].Unusable?
  {
    FileBytes(MethodWriter.IndexIn(pool, |classes|, AddedFor(pool, hasStackMaps, classes)), pool, NewPool(pool, hasStackMaps, classes), c)
  }

  /**
   A written class file is read back whole: the pool with its additions, in which every
   constant keeps its meaning, and the class with names, interfaces, fields, methods and
   attributes.  Only stack maps, which the loader skips, and flags of its own are not there.
   With anything behind its end the file is refused.
   */
  lemma WrittenFileIsRead(d: Derived, wanted: Wanted, pool: seq<Const>, hasStackMaps: bool, classes: seq<Text>, c: ClassFile, junk: seq<Byte>)
    requires ValidPool(pool) && ClassesOk(hasStackMaps, classes) && |NewPool(pool, hasStackMaps, classes)| <= MOST_CONSTANTS
    requires ClassFits(d, wanted, pool, AddedFor(pool, hasStackMaps, classes), c)
    ensures var w := NewPool(pool, hasStackMaps, classes);
            && ParseClass(d, wanted, WrittenFile(pool, hasStackMaps, classes, c) + junk) == (if junk == [] then Some((w, RereadClass(c))) else None)
            && MeaningsKept(pool, w, |classes|) && ClassesResolve(pool, w, classes)
            && forall i | 0 <= i < |c.interfaces| :: ClassText(w, c.interfaces[i]) == Some(ClassAt(pool, c.interfaces[i]))
  {
    hide *;
    var added := AddedFor(pool, hasStackMaps, classes);
    FirstUnusable(pool, classes, added);
    NewPoolIs(pool, hasStackMaps, classes);
    var w, index := Written(pool, classes, added), MethodWriter.IndexIn(pool, |classes|, added);
    var b := FileBytes(index, pool, w, c) + junk;
    ClassNumbers(d, wanted, pool, added, c);
    FileParts(index, pool, w, c, junk);
    WrittenPoolIsRead(pool, hasStackMaps, classes, b, 8);
    ClassIsOk(d, wanted, pool, classes, added, c);
    ReadsBody(d, wanted, w, b, 8 + |PoolBytes(w)|, index, pool, c);
    Assembled(d, wanted, b, w, if junk == [] then Some(RereadClass(c)) else None);
    WrittenFileIs(pool, hasStackMaps, classes, c);
    forall i | 0 <= i < |c.interfaces| ensures ClassText(w, c.interfaces[i]) == Some(ClassAt(pool, c.interfaces[i])) {
      ClassIsRead(pool, classes, added, c.interfaces[i]);
    }
  }

  lemma ClassNumbers(d: Derived, wanted: Wanted, pool: seq<Const>, added: seq<Text>, c: ClassFile)
    requires ClassFits(d, wanted, pool, added, c)
    ensures c.minor < 0x1_0000 && c.major < 0x1_0000 && forall i | 0 <= i < |c.interfaces| :: IsClass(pool, c.interfaces[i])
  {
  }

  lemma WrittenFileIs(pool: seq<Const>, hasStackMaps: bool, classes: seq<Text>, c: ClassFile)
    requires pool != [] && pool[0].Unusable?
    ensures NewPool(pool, hasStackMaps, classes) != []
    ensures WrittenFile(pool, hasStackMaps, classes, c) ==
            FileBytes(MethodWriter.IndexIn(pool, |classes|, AddedFor(pool, hasStackMaps, classes)), pool, NewPool(pool, hasStackMaps, classes), c)
  {
  }

  lemma Assembled(d: Derived, wanted: Wanted, b: seq<Byte>, w: seq<Const>, c: Option<ClassFile>)
    requires w != [] && 8 <= |b| && Get4(b, 0) == MAGIC && ParsePool(b, 8) == Some((w, 8 + |PoolBytes(w)|))
    requires ParseBody(d, wanted, w, b, 8 + |PoolBytes(w)|, Get2(b, 4), Get2(b, 6)) == c
    ensures ParseClass(d, wanted, b) == if c.None? then None else Some((w, c.value))
  {
    hide ParsePool, ParseBody, PoolBytes, Get2, Get4;
  }
}
