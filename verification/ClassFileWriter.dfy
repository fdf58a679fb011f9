/** WriteClass and the parts of the class file around pool and methods, appended to the class buffer. */
module ClassFileWriter {
  import opened Octets
  import opened Types
  import opened ModifiedUtf8
  import opened ConstantPool
  import opened ClassBytes
  import opened ClassWriter
  import opened ClassFormat
  import opened MethodWriter
  import MethodFormat
  import ClassRoundTrip

  // ----- the strings that are looked up -----

  predicate AttributeNames(pool: seq<Const>, added: seq<Text>, a: Attribute) {
    && Known(pool, added, NameOf(a))
    && match a
       case SourceFile(s) => Known(pool, added, s)
       case AbsoluteSourcePath(s) => Known(pool, added, s)
       case InnerClasses(cs) => forall i | 0 <= i < |cs| && cs[i].name.Some? :: Known(pool, added, cs[i].name.value)
       case _ => true
  }

  predicate FieldNames(pool: seq<Const>, added: seq<Text>, f: Field) {
    && Known(pool, added, f.name) && Known(pool, added, f.descriptor)
    && forall i | 0 <= i < |FieldAttributes(f)| :: AttributeNames(pool, added, FieldAttributes(f)[i])
  }

  predicate ClassNames(pool: seq<Const>, added: seq<Text>, c: ClassFile) {
    && (forall i | 0 <= i < |c.fields| :: FieldNames(pool, added, c.fields[i]))
    && (forall i | 0 <= i < |c.methods| :: NamesOf(pool, added, c.methods[i]))
    && forall i | 0 <= i < |ClassAttributes(c.extras)| :: AttributeNames(pool, added, ClassAttributes(c.extras)[i])
  }

  // ----- one more item at the end -----

  lemma {:induction false} InnersEnd(index: MethodFormat.Indices, cs: seq<InnerClass>, c: InnerClass)
    ensures InnersBytes(index, cs + [c]) == InnersBytes(index, cs) + InnerBytes(index, c)
  {
    hide InnerBytes;
    if cs == [] {
      assert [c][1..] == [];
      assert cs + [c] == [c];
    } else {
      assert (cs + [c])[1..] == cs[1..] + [c];
      InnersEnd(index, cs[1..], c);
    }
  }

  lemma {:induction false} FieldsEnd(index: MethodFormat.Indices, fs: seq<Field>, f: Field)
    ensures FieldListBytes(index, fs + [f]) == FieldListBytes(index, fs) + FieldBytes(index, f)
  {
    hide FieldBytes;
    if fs == [] {
      assert [f][1..] == [];
      assert fs + [f] == [f];
    } else {
      assert (fs + [f])[1..] == fs[1..] + [f];
      FieldsEnd(index, fs[1..], f);
    }
  }

  lemma {:induction false} AttributesPlus(index: MethodFormat.Indices, a: seq<Attribute>, b: seq<Attribute>)
    ensures AttributesBytes(index, a + b) == AttributesBytes(index, a) + AttributesBytes(index, b)
  {
    hide AttributeBytes;
    if a == [] {
      assert a + b == b;
    } else {
      assert (a + b)[1..] == a[1..] + b;
      AttributesPlus(index, a[1..], b);
    }
  }

  lemma OneAttribute(index: MethodFormat.Indices, a: Attribute)
    ensures AttributesBytes(index, [a]) == AttributeBytes(index, a) && AttributesBytes(index, []) == []
  {
    hide AttributeBytes;
    assert [a][1..] == [];
  }

  lemma NothingYet()
    ensures forall index :: InnersBytes(index, []) == [] && FieldListBytes(index, []) == []
  {
  }

  // ----- attributes -----

  method WriteInner(out: Writer, c: InnerClass)
    requires Sealed(out) && (c.name.Some? ==> Known(out.pool, out.newUtf8, c.name.value))
    modifies out`buf, out`newUtf8
    ensures out.newUtf8 == old(out.newUtf8) && Sealed(out)
    ensures out.buf == old(out.buf) + InnerBytes(IndexOf(out), c)
  {
    hide U2, Known, Lookup, IndexIn;
    out.WriteU2(c.inner);
    out.WriteU2(c.outer);
    if c.name.Some? {
      WriteName(out, c.name.value);
    } else {
      out.WriteU2(0);
    }
    out.WriteU2(c.access);
  }

  method WriteInners(out: Writer, cs: seq<InnerClass>)
    requires Sealed(out) && forall i | 0 <= i < |cs| && cs[i].name.Some? :: Known(out.pool, out.newUtf8, cs[i].name.value)
    modifies out`buf, out`newUtf8
    ensures out.newUtf8 == old(out.newUtf8) && Sealed(out)
    ensures out.buf == old(out.buf) + InnersBytes(IndexOf(out), cs)
  {
    hide Known, InnerBytes, InnersBytes, IndexIn;
    NothingYet();
    ghost var start, index, added := out.buf, IndexOf(out), out.newUtf8;
    var i := 0;
    while i < |cs|
      invariant 0 <= i <= |cs| && out.newUtf8 == added && Sealed(out)
      invariant out.buf == start + InnersBytes(index, cs[..i])
    {
      WriteInner(out, cs[i]);
      UpTo(cs, i);
      InnersEnd(index, cs[..i], cs[i]);
      Joined(start, InnersBytes(index, cs[..i]), InnerBytes(index, cs[i]));
      i := i + 1;
    }
    assert cs[..|cs|] == cs;
  }

  /** Length and content of an attribute. */
  method WriteInfo(out: Writer, a: Attribute)
    requires Sealed(out) && AttributeNames(out.pool, out.newUtf8, a)
    modifies out`buf, out`newUtf8
    ensures out.newUtf8 == old(out.newUtf8) && Sealed(out)
    ensures out.buf == old(out.buf) + (U4(|InfoOf(IndexOf(out), a)|) + InfoOf(IndexOf(out), a))
  {
    hide U2, U4, Known, Lookup, IndexIn, InnersBytes, NameOf;
    ghost var start, index := out.buf, IndexOf(out);
    match a {
      case ConstantValue(n) =>
        out.WriteU4(2);
        out.WriteU2(n);
      case SourceFile(s) =>
        out.WriteU4(2);
        WriteName(out, s);
      case AbsoluteSourcePath(s) =>
        out.WriteU4(2);
        WriteName(out, s);
      case TimeStamp(h, l) =>
        out.WriteU4(8);
        out.WriteU4(h);
        out.WriteU4(l);
      case InnerClasses(cs) =>
        out.WriteU4(8 * |cs| + 2);
        out.WriteU2(|cs|);
        WriteInners(out, cs);
      case Deprecated =>
        out.WriteU4(0);
      case Synthetic =>
        out.WriteU4(0);
    }
  }

  method WriteAttribute(out: Writer, a: Attribute)
    requires Sealed(out) && AttributeNames(out.pool, out.newUtf8, a)
    modifies out`buf, out`newUtf8
    ensures out.newUtf8 == old(out.newUtf8) && Sealed(out)
    ensures out.buf == old(out.buf) + AttributeBytes(IndexOf(out), a)
  {
    hide U2, U4, Known, Lookup, IndexIn, InfoOf, NameOf;
    ghost var start, index := out.buf, IndexOf(out);
    WriteName(out, NameOf(a));
    WriteInfo(out, a);
    Joined(start, U2(index.of(NameOf(a))), U4(|InfoOf(index, a)|) + InfoOf(index, a));
  }

  /** An attribute that is written if it is there. */
  method WriteOptional(out: Writer, part: seq<Attribute>)
    requires Sealed(out) && |part| <= 1 && forall i | 0 <= i < |part| :: AttributeNames(out.pool, out.newUtf8, part[i])
    modifies out`buf, out`newUtf8
    ensures out.newUtf8 == old(out.newUtf8) && Sealed(out)
    ensures out.buf == old(out.buf) + AttributesBytes(IndexOf(out), part)
  {
    hide AttributesBytes, AttributeBytes, AttributeNames, IndexIn;
    OneAttribute(IndexOf(out), if part == [] then Deprecated else part[0]);
    if |part| == 1 {
      assert part == [part[0]];
      WriteAttribute(out, part[0]);
    }
  }

  // ----- fields -----

  method WriteFieldAttributes(out: Writer, f: Field)
    requires Sealed(out) && FieldNames(out.pool, out.newUtf8, f)
    modifies out`buf, out`newUtf8
    ensures out.newUtf8 == old(out.newUtf8) && Sealed(out)
    ensures out.buf == old(out.buf) + AttributesBytes(IndexOf(out), FieldAttributes(f))
  {
    hide AttributesBytes, AttributeBytes, AttributeNames, IndexIn, Known;
    ghost var start, index := out.buf, IndexOf(out);
    var a := if f.constant.Some? then [ConstantValue(f.constant.value)] else [];
    var d, s := if f.deprecated then [Deprecated] else [], if f.synthetic then [Synthetic] else [];
    assert FieldAttributes(f) == a + d + s;
    PartsNamed(out.pool, out.newUtf8, a, d, s);
    WriteOptional(out, a);
    WriteOptional(out, d);
    WriteOptional(out, s);
    AttributesPlus(index, a, d);
    AttributesPlus(index, a + d, s);
    Joined(start, AttributesBytes(index, a), AttributesBytes(index, d));
    Joined(start, AttributesBytes(index, a + d), AttributesBytes(index, s));
  }

  lemma PartsNamed(pool: seq<Const>, added: seq<Text>, a: seq<Attribute>, b: seq<Attribute>, c: seq<Attribute>)
    requires forall i | 0 <= i < |a + b + c| :: AttributeNames(pool, added, (a + b + c)[i])
    ensures forall i | 0 <= i < |a| :: AttributeNames(pool, added, a[i])
    ensures forall i | 0 <= i < |b| :: AttributeNames(pool, added, b[i])
    ensures forall i | 0 <= i < |c| :: AttributeNames(pool, added, c[i])
  {
    hide AttributeNames;
    var s := a + b + c;
    forall i | 0 <= i < |a| ensures AttributeNames(pool, added, a[i]) { assert s[i] == a[i]; }
    forall i | 0 <= i < |b| ensures AttributeNames(pool, added, b[i]) { assert s[|a| + i] == b[i]; }
    forall i | 0 <= i < |c| ensures AttributeNames(pool, added, c[i]) { assert s[|a| + |b| + i] == c[i]; }
  }

  /** One round of the loop of write_fields. */
  method WriteField(out: Writer, f: Field)
    requires Sealed(out) && FieldNames(out.pool, out.newUtf8, f)
    modifies out`buf, out`newUtf8
    ensures out.newUtf8 == old(out.newUtf8) && Sealed(out)
    ensures out.buf == old(out.buf) + FieldBytes(IndexOf(out), f)
  {
    hide U2, Known, Lookup, IndexIn, AttributesBytes, AttributeNames, MethodFormat.WrittenFlags;
    ghost var start, index := out.buf, IndexOf(out);
    ghost var v := AttributesBytes(index, FieldAttributes(f));
    out.WriteU2(MethodFormat.WrittenFlags(f.access));
    WriteName(out, f.name);
    WriteName(out, f.descriptor);
    var count := MethodFormat.One(f.constant.Some?) + MethodFormat.One(f.synthetic) + MethodFormat.One(f.deprecated);
    assert count == |FieldAttributes(f)|;
    out.WriteU2(count);
    WriteFieldAttributes(out, f);
    Chain4(start, U2(MethodFormat.WrittenFlags(f.access)), U2(index.of(f.name)), U2(index.of(f.descriptor)), U2(count), v);
  }

  lemma Chain4(s: seq<Byte>, a: seq<Byte>, b: seq<Byte>, c: seq<Byte>, d: seq<Byte>, e: seq<Byte>)
    ensures s + a + b + c + d + e == s + (a + (b + (c + (d + e))))
  {
    Joined(s + a + b + c, d, e);
    Joined(s + a + b, c, d + e);
    Joined(s + a, b, c + (d + e));
    Joined(s, a, b + (c + (d + e)));
  }

  /** write_fields */
  method WriteFields(out: Writer, fs: seq<Field>)
    requires Sealed(out) && forall i | 0 <= i < |fs| :: FieldNames(out.pool, out.newUtf8, fs[i])
    modifies out`buf, out`newUtf8
    ensures out.newUtf8 == old(out.newUtf8) && Sealed(out)
    ensures out.buf == old(out.buf) + FieldsBytes(IndexOf(out), fs)
  {
    hide U2, FieldNames, FieldBytes, FieldListBytes, IndexIn;
    NothingYet();
    ghost var before, index, added := out.buf, IndexOf(out), out.newUtf8;
    out.WriteU2(|fs|);
    ghost var start := out.buf;
    var i := 0;
    while i < |fs|
      invariant 0 <= i <= |fs| && out.newUtf8 == added && Sealed(out)
      invariant out.buf == start + FieldListBytes(index, fs[..i])
    {
      WriteField(out, fs[i]);
      UpTo(fs, i);
      FieldsEnd(index, fs[..i], fs[i]);
      Joined(start, FieldListBytes(index, fs[..i]), FieldBytes(index, fs[i]));
      i := i + 1;
    }
    assert fs[..|fs|] == fs;
    Joined(before, U2(|fs|), FieldListBytes(index, fs));
  }

  // ----- the class -----

  /** write_interfaces */
  method WriteInterfaces(out: Writer, interfaces: seq<nat>)
    modifies out`buf
    ensures out.buf == old(out.buf) + InterfacesBytes(interfaces)
  {
    hide U2, MethodFormat.RowBytes;
    ghost var start := out.buf;
    out.WriteU2(|interfaces|);
    WriteRow(out, interfaces);
    Joined(start, U2(|interfaces|), MethodFormat.RowBytes(interfaces));
  }

  /** lookup_class; no result stands for its panic. */
  method LookupClass(pool: seq<Const>, name: Text) returns (r: Option<nat>)
    ensures r.Some? ==> r.value < |pool| && IsClass(pool, r.value) && ClassAt(pool, r.value) == name && r.value == FindClass(pool, name, 0)
    ensures r.None? <==> forall k | 0 <= k < |pool| && IsClass(pool, k) :: ClassAt(pool, k) != name
  {
    hide IsClass, ClassAt;
    var i := 0;
    while i < |pool|
      invariant 0 <= i <= |pool| && FindClass(pool, name, 0) == FindClass(pool, name, i)
      invariant forall k | 0 <= k < i && IsClass(pool, k) :: ClassAt(pool, k) != name
    {
      if IsClass(pool, i) && ClassAt(pool, i) == name {
        return Some(i);
      }
      i := i + 1;
    }
    r := None;
  }

  method WriteClassAttributes(out: Writer, x: Extras)
    requires Sealed(out) && forall i | 0 <= i < |ClassAttributes(x)| :: AttributeNames(out.pool, out.newUtf8, ClassAttributes(x)[i])
    modifies out`buf, out`newUtf8
    ensures out.newUtf8 == old(out.newUtf8) && Sealed(out)
    ensures out.buf == old(out.buf) + CountedAttributes(IndexOf(out), ClassAttributes(x))
  {
    hide U2, AttributesBytes, CountedAttributes, ClassAttributes, AttributeNames, IndexIn, MethodFormat.One,
         ClassRoundTrip.SourcePart, ClassRoundTrip.PathPart, ClassRoundTrip.StampPart,
         ClassRoundTrip.DeprecatedPart, ClassRoundTrip.SyntheticPart, ClassRoundTrip.InnerPart;
    ghost var start, index := out.buf, IndexOf(out);
    ClassPartsNamed(out.pool, out.newUtf8, x);
    CountIs(index, x);
    out.WriteU2(MethodFormat.One(x.source.Some?) + MethodFormat.One(x.sourcePath.Some?) + MethodFormat.One(x.timeStamp.Some?)
                + MethodFormat.One(x.deprecated) + MethodFormat.One(x.synthetic) + MethodFormat.One(x.innerClasses.Some?));
    WriteOptional(out, ClassRoundTrip.SourcePart(x));
    WriteOptional(out, ClassRoundTrip.PathPart(x));
    WriteOptional(out, ClassRoundTrip.StampPart(x));
    WriteOptional(out, ClassRoundTrip.DeprecatedPart(x));
    WriteOptional(out, ClassRoundTrip.SyntheticPart(x));
    WriteOptional(out, ClassRoundTrip.InnerPart(x));
    PartsJoined(index, start + U2(|ClassAttributes(x)|), x);
    Joined(start, U2(|ClassAttributes(x)|), AttributesBytes(index, ClassAttributes(x)));
  }

  lemma CountIs(index: MethodFormat.Indices, x: Extras)
    ensures |ClassAttributes(x)| == MethodFormat.One(x.source.Some?) + MethodFormat.One(x.sourcePath.Some?) + MethodFormat.One(x.timeStamp.Some?)
                                    + MethodFormat.One(x.deprecated) + MethodFormat.One(x.synthetic) + MethodFormat.One(x.innerClasses.Some?)
    ensures CountedAttributes(index, ClassAttributes(x)) == U2(|ClassAttributes(x)|) + AttributesBytes(index, ClassAttributes(x))
  {
    hide U2, AttributesBytes;
  }

  lemma ClassPartsNamed(pool: seq<Const>, added: seq<Text>, x: Extras)
    requires forall i | 0 <= i < |ClassAttributes(x)| :: AttributeNames(pool, added, ClassAttributes(x)[i])
    ensures forall i | 0 <= i < |ClassRoundTrip.SourcePart(x)| :: AttributeNames(pool, added, ClassRoundTrip.SourcePart(x)[i])
    ensures forall i | 0 <= i < |ClassRoundTrip.PathPart(x)| :: AttributeNames(pool, added, ClassRoundTrip.PathPart(x)[i])
    ensures forall i | 0 <= i < |ClassRoundTrip.StampPart(x)| :: AttributeNames(pool, added, ClassRoundTrip.StampPart(x)[i])
    ensures forall i | 0 <= i < |ClassRoundTrip.DeprecatedPart(x)| :: AttributeNames(pool, added, ClassRoundTrip.DeprecatedPart(x)[i])
    ensures forall i | 0 <= i < |ClassRoundTrip.SyntheticPart(x)| :: AttributeNames(pool, added, ClassRoundTrip.SyntheticPart(x)[i])
    ensures forall i | 0 <= i < |ClassRoundTrip.InnerPart(x)| :: AttributeNames(pool, added, ClassRoundTrip.InnerPart(x)[i])
    ensures |ClassRoundTrip.SourcePart(x)| <= 1 && |ClassRoundTrip.PathPart(x)| <= 1 && |ClassRoundTrip.StampPart(x)| <= 1
    ensures |ClassRoundTrip.DeprecatedPart(x)| <= 1 && |ClassRoundTrip.SyntheticPart(x)| <= 1 && |ClassRoundTrip.InnerPart(x)| <= 1
  {
    hide *;
    var a, b, c := ClassRoundTrip.SourcePart(x), ClassRoundTrip.PathPart(x), ClassRoundTrip.StampPart(x);
    var d, e, f := ClassRoundTrip.DeprecatedPart(x), ClassRoundTrip.SyntheticPart(x), ClassRoundTrip.InnerPart(x);
    ClassRoundTrip.PartsAre(x);
    ClassRoundTrip.ShortParts(x);
    PartsNamed(pool, added, a + b + c + d, e, f);
    PartsNamed(pool, added, a + b, c, d);
    assert [] + a + b == a + b;
    PartsNamed(pool, added, [], a, b);
  }

  lemma PartsJoined(index: MethodFormat.Indices, s: seq<Byte>, x: Extras)
    ensures s + AttributesBytes(index, ClassRoundTrip.SourcePart(x)) + AttributesBytes(index, ClassRoundTrip.PathPart(x))
            + AttributesBytes(index, ClassRoundTrip.StampPart(x)) + AttributesBytes(index, ClassRoundTrip.DeprecatedPart(x))
            + AttributesBytes(index, ClassRoundTrip.SyntheticPart(x)) + AttributesBytes(index, ClassRoundTrip.InnerPart(x))
            == s + AttributesBytes(index, ClassAttributes(x))
  {
    hide *;
    var a, b, c := ClassRoundTrip.SourcePart(x), ClassRoundTrip.PathPart(x), ClassRoundTrip.StampPart(x);
    var d, e, f := ClassRoundTrip.DeprecatedPart(x), ClassRoundTrip.SyntheticPart(x), ClassRoundTrip.InnerPart(x);
    ClassRoundTrip.PartsOfClass(x);
    AttributesPlus(index, a, b + (c + (d + (e + f))));
    AttributesPlus(index, b, c + (d + (e + f)));
    AttributesPlus(index, c, d + (e + f));
    AttributesPlus(index, d, e + f);
    AttributesPlus(index, e, f);
    Nested5(s, AttributesBytes(index, a), AttributesBytes(index, b), AttributesBytes(index, c), AttributesBytes(index, d),
            AttributesBytes(index, e), AttributesBytes(index, f));
  }

  /** What WriteClass appends behind the pool; false stands for a panic of lookup_class. */
  method WriteBody(out: Writer, c: ClassFile) returns (ok: bool)
    requires Sealed(out) && ClassNames(out.pool, out.newUtf8, c)
    modifies out`buf, out`newUtf8
    ensures out.newUtf8 == old(out.newUtf8) && Sealed(out)
    ensures ok <==> FindClass(out.pool, c.name, 0) < |out.pool| && (c.super.Some? ==> FindClass(out.pool, c.super.value, 0) < |out.pool|)
    ensures ok ==> out.buf == old(out.buf) + Body(IndexOf(out), out.pool, c)
  {
    hide U2, FindClass, IndexIn, FieldNames, NamesOf, AttributeNames, ClassAttributes, CountedAttributes, MethodFormat.WrittenFlags,
         InterfacesBytes, FieldsBytes, MethodFormat.MethodsBytes, Body, SuperIndex;
    ghost var start, index := out.buf, IndexOf(out);
    out.WriteU2(MethodFormat.WrittenFlags(c.access));
    var own := LookupClass(out.pool, c.name);
    FoundOrNot(out.pool, c.name);
    if own.None? {
      return false;
    }
    out.WriteU2(own.value);
    var super := Some(0);
    if c.super.Some? {
      super := LookupClass(out.pool, c.super.value);
      FoundOrNot(out.pool, c.super.value);
    }
    if super.None? {
      return false;
    }
    SuperIndexIs(out.pool, c);
    out.WriteU2(super.value);
    WriteInterfaces(out, c.interfaces);
    WriteFields(out, c.fields);
    WriteMethods(out, c.methods);
    WriteClassAttributes(out, c.extras);
    BodyJoined(index, out.pool, c, start);
    ok := true;
  }

  lemma FoundOrNot(pool: seq<Const>, name: Text)
    ensures FindClass(pool, name, 0) == |pool| <==> forall k | 0 <= k < |pool| && IsClass(pool, k) :: ClassAt(pool, k) != name
  {
    hide IsClass, ClassAt;
  }

  lemma SuperIndexIs(pool: seq<Const>, c: ClassFile)
    ensures SuperIndex(pool, c.super) == if c.super.Some? then FindClass(pool, c.super.value, 0) else 0
  {
  }

  lemma BodyJoined(index: MethodFormat.Indices, pool: seq<Const>, c: ClassFile, s: seq<Byte>)
    ensures s + U2(MethodFormat.WrittenFlags(c.access)) + U2(FindClass(pool, c.name, 0)) + U2(SuperIndex(pool, c.super))
            + InterfacesBytes(c.interfaces) + FieldsBytes(index, c.fields) + MethodFormat.MethodsBytes(index, c.methods)
            + CountedAttributes(index, ClassAttributes(c.extras))
            == s + Body(index, pool, c)
  {
    var u, v, t := U2(MethodFormat.WrittenFlags(c.access)), U2(FindClass(pool, c.name, 0)), U2(SuperIndex(pool, c.super));
    var i, f := InterfacesBytes(c.interfaces), FieldsBytes(index, c.fields);
    var m, x := MethodFormat.MethodsBytes(index, c.methods), CountedAttributes(index, ClassAttributes(c.extras));
    hide U2, FindClass, SuperIndex, MethodFormat.WrittenFlags, InterfacesBytes, FieldsBytes, MethodFormat.MethodsBytes, CountedAttributes;
    Nested5(s + u, v, t, i, f, m, x);
    Joined(s, u, v + (t + (i + (f + (m + x)))));
  }

  /** WriteClass: the whole file, from the magic number to the last attribute. */
  method WriteClass(out: Writer, c: ClassFile) returns (ok: bool)
    requires ValidPool(out.pool) && ClassesOk(out.hasStackMaps, out.classes) && |NewPool(out.pool, out.hasStackMaps, out.classes)| < 0x1_0000
    requires out.buf == [] && ClassNames(out.pool, AddedFor(out.pool, out.hasStackMaps, out.classes), c)
    modifies out
    ensures ok <==> FindClass(out.pool, c.name, 0) < |out.pool| && (c.super.Some? ==> FindClass(out.pool, c.super.value, 0) < |out.pool|)
    ensures out.pool != [] && out.pool[0].Unusable?
    ensures ok ==> out.buf == ClassRoundTrip.WrittenFile(out.pool, out.hasStackMaps, out.classes, c)
  {
    hide *;
    ghost var added := AddedFor(out.pool, out.hasStackMaps, out.classes);
    FirstUnusable(out.pool, out.classes, added);
    NewPoolIs(out.pool, out.hasStackMaps, out.classes);
    ghost var w := Written(out.pool, out.classes, added);
    out.WriteU4(MAGIC);
    out.WriteU2(c.minor);
    out.WriteU2(c.major);
    out.WriteConstantPool();
    SealedIs(out);
    ok := WriteBody(out, c);
    if ok {
      ClassRoundTrip.WrittenFileIs(out.pool, out.hasStackMaps, out.classes, c);
      ClassRoundTrip.FilePartsAre(IndexOf(out), out.pool, w, c);
      SealedIs(out);
      Chain4([], U4(MAGIC), U2(c.minor), U2(c.major), PoolBytes(w), Body(IndexOf(out), out.pool, c));
      FromNothing(U4(MAGIC));
      FromNothing(U4(MAGIC) + (U2(c.minor) + (U2(c.major) + (PoolBytes(w) + Body(IndexOf(out), out.pool, c)))));
    }
  }

  lemma SealedIs(out: Writer)
    requires out.pool != [] && out.pool[0].Unusable?
    ensures Sealed(out) && IndexOf(out) == IndexIn(out.pool, |out.classes|, out.newUtf8)
  {
  }

  lemma FromNothing(s: seq<Byte>)
    ensures [] + s == s
  {
  }

  /** Whatever fits can be written: the requirements of WriteClass are met, and it does not fail. */
  lemma FittingIsWritten(d: MethodFormat.Derived, wanted: Wanted, pool: seq<Const>, added: seq<Text>, c: ClassFile)
    requires ClassRoundTrip.ClassFits(d, wanted, pool, added, c)
    ensures ClassNames(pool, added, c)
    ensures FindClass(pool, c.name, 0) < |pool| && (c.super.Some? ==> FindClass(pool, c.super.value, 0) < |pool|)
  {
    hide Known, NamesOf, MethodFits, FindClass, NameOf, ClassAttributes, FieldAttributes, IsStatic, IsClass;
  }
}
