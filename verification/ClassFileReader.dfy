/** createInternalClass0 with its moving pointer, proved against the format of ClassFormat. */
module ClassFileReader {
  import opened Octets
  import opened Types
  import opened ModifiedUtf8
  import opened ConstantPool
  import opened ClassBytes
  import opened MethodFormat
  import opened ClassFormat
  import opened ClassReader
  import ClassRoundTrip

  // ----- one more step of each list -----

  lemma InnersStep(w: seq<Const>, b: seq<Byte>, p: nat, n: nat)
    ensures ParseInners(w, b, p, 0) == Some(([], p))
    ensures n > 0 ==>
              ParseInners(w, b, p, n) ==
              var first := ParseInner(w, b, p); if first.None? then None else Before([first.value.0], ParseInners(w, b, first.value.1, n - 1))
  {
    hide ParseInner;
  }

  lemma FieldsStep(w: seq<Const>, b: seq<Byte>, p: nat, n: nat)
    ensures ParseFieldList(w, b, p, 0) == Some(([], p))
    ensures n > 0 ==>
              ParseFieldList(w, b, p, n) ==
              var first := ParseField(w, b, p); if first.None? then None else Before([first.value.0], ParseFieldList(w, b, first.value.1, n - 1))
  {
    hide ParseField;
  }

  lemma FieldAttributesStep(w: seq<Const>, b: seq<Byte>, p: nat, n: nat, f: Field)
    ensures ParseFieldAttributes(w, b, p, 0, f) == Some((f, p))
    ensures n > 0 ==>
              ParseFieldAttributes(w, b, p, n, f) ==
              var first := TakeFieldAttribute(w, b, p, f);
              if first.None? then None else ParseFieldAttributes(w, b, first.value.1, n - 1, first.value.0)
  {
    hide ParseFieldAttribute, AddToField, IsStatic;
  }

  lemma ClassAttributesStep(w: seq<Const>, b: seq<Byte>, p: nat, n: nat, x: Extras)
    ensures ParseClassAttributes(w, b, p, 0, x) == Some((x, p))
    ensures n > 0 ==>
              ParseClassAttributes(w, b, p, n, x) ==
              var first := TakeClassAttribute(w, b, p, x);
              if first.None? then None else ParseClassAttributes(w, b, first.value.1, n - 1, first.value.0)
  {
    hide ParseClassAttribute, AddToClass;
  }

  /** One attribute taken into what is known of the field. */
  function TakeFieldAttribute(w: seq<Const>, b: seq<Byte>, p: nat, f: Field): Option<(Field, nat)> {
    var a := ParseFieldAttribute(w, b, p, IsStatic(f.access));
    if a.None? then None
    else
      var g := if a.value.0.None? then Some(f) else AddToField(f, a.value.0.value);
      if g.None? then None else Some((g.value, a.value.1))
  }

  /** One attribute taken into what is known of the class. */
  function TakeClassAttribute(w: seq<Const>, b: seq<Byte>, p: nat, x: Extras): Option<(Extras, nat)> {
    var a := ParseClassAttribute(w, b, p);
    if a.None? then None
    else
      var y := if a.value.0.None? then Some(x) else AddToClass(x, a.value.0.value);
      if y.None? then None else Some((y.value, a.value.1))
  }

  // ----- attributes -----

  /** getAsciz where 0 stands for no string. */
  method GetAscizOrNone(r: Reader, w: seq<Const>) returns (v: Option<Option<Text>>)
    modifies r
    ensures v == GetTextOrNone(w, r.b, old(r.p)) && (v.Some? ==> r.p == old(r.p) + 2 <= |r.b|)
  {
    hide Get2;
    var value :- r.Get2Bytes();
    if value == 0 {
      return Some(None);
    }
    if value >= |w| || !w[value].Utf8? {
      return None;
    }
    v := Some(Some(w[value].text));
  }

  method ReadInner(r: Reader, w: seq<Const>) returns (c: Option<InnerClass>)
    modifies r
    ensures Agrees(c, ParseInner(w, r.b, old(r.p)), r.p)
  {
    hide Get2, GetTextOrNone, ClassText;
    var inner :- r.Get2Bytes();
    var outer :- r.Get2Bytes();
    var name :- GetAscizOrNone(r, w);
    var access :- r.Get2Bytes();
    if inner != 0 && ClassText(w, inner).None? {
      return None;
    }
    if outer != 0 && ClassText(w, outer).None? {
      return None;
    }
    c := Some(InnerClass(inner, outer, name, access));
  }

  method ReadInners(r: Reader, w: seq<Const>, count: nat) returns (cs: Option<seq<InnerClass>>)
    modifies r
    ensures Agrees(cs, ParseInners(w, r.b, old(r.p), count), r.p)
  {
    hide ParseInner, ParseInners;
    ghost var start := r.p;
    var done: seq<InnerClass> := [];
    var i := 0;
    BeforeBefore([], [], ParseInners(w, r.b, r.p, count));
    while i < count
      invariant 0 <= i <= count && ParseInners(w, r.b, start, count) == Before(done, ParseInners(w, r.b, r.p, count - i))
    {
      InnersStep(w, r.b, r.p, count - i);
      var c :- ReadInner(r, w);
      BeforeBefore(done, [c], ParseInners(w, r.b, r.p, count - i - 1));
      done := done + [c];
      i := i + 1;
    }
    InnersStep(w, r.b, r.p, 0);
    ItIsAll(done, r.p);
    cs := Some(done);
  }

  method ReadFieldAttribute(r: Reader, w: seq<Const>, f: Field) returns (g: Option<Field>)
    modifies r
    ensures Agrees(g, TakeFieldAttribute(w, r.b, old(r.p), f), r.p)
  {
    hide GetText, Get2, Get4, ConstantValueName, DeprecatedName, SyntheticName, IsStatic;
    var name :- r.GetAsciz(w);
    var length :- r.Get4Bytes();
    ClassRoundTrip.AttributeNamesDiffer();
    if name == ConstantValueName() {
      if IsStatic(f.access) {
        if length != 2 {
          return None;
        }
        if f.constant.Some? {
          return None;
        }
        var n :- r.Get2Bytes();
        g := Some(f.(constant := Some(n)));
      } else {
        var _ :- r.GetNBytes(length);
        g := Some(f);
      }
    } else if name == DeprecatedName() {
      if length > 0 {
        return None;
      }
      g := Some(f.(deprecated := true));
    } else if name == SyntheticName() {
      if length > 0 {
        return None;
      }
      g := Some(f.(synthetic := true));
    } else {
      var _ :- r.GetNBytes(length);
      g := Some(f);
    }
  }

  method ReadFieldAttributes(r: Reader, w: seq<Const>, n: nat, into: Field) returns (g: Option<Field>)
    modifies r
    ensures Agrees(g, ParseFieldAttributes(w, r.b, old(r.p), n, into), r.p)
  {
    hide ParseFieldAttributes, TakeFieldAttribute;
    ghost var start := r.p;
    var f := into;
    var j := 0;
    while j < n
      invariant 0 <= j <= n && ParseFieldAttributes(w, r.b, start, n, into) == ParseFieldAttributes(w, r.b, r.p, n - j, f)
    {
      FieldAttributesStep(w, r.b, r.p, n - j, f);
      f :- ReadFieldAttribute(r, w, f);
      j := j + 1;
    }
    FieldAttributesStep(w, r.b, r.p, 0, f);
    g := Some(f);
  }

  method ReadField(r: Reader, w: seq<Const>) returns (f: Option<Field>)
    modifies r
    ensures Agrees(f, ParseField(w, r.b, old(r.p)), r.p)
  {
    hide Get2, GetText, ParseFieldAttributes, WrittenFlags;
    var flags :- r.Get2Bytes();
    var name :- r.GetAsciz(w);
    var descriptor :- r.GetAsciz(w);
    var count :- r.Get2Bytes();
    f := ReadFieldAttributes(r, w, count, Field(WrittenFlags(flags), name, descriptor, None, false, false));
  }

  /** The fields part of createInternalClass0. */
  method ReadFields(r: Reader, w: seq<Const>) returns (fs: Option<seq<Field>>)
    modifies r
    ensures Agrees(fs, ParseFields(w, r.b, old(r.p)), r.p)
  {
    hide Get2, ParseField, ParseFieldList;
    var count :- r.Get2Bytes();
    ghost var start := r.p;
    var done: seq<Field> := [];
    var i := count;
    BeforeBefore([], [], ParseFieldList(w, r.b, r.p, count));
    while i > 0
      invariant 0 <= i <= count && ParseFieldList(w, r.b, start, count) == Before(done, ParseFieldList(w, r.b, r.p, i))
    {
      FieldsStep(w, r.b, r.p, i);
      var f :- ReadField(r, w);
      BeforeBefore(done, [f], ParseFieldList(w, r.b, r.p, i - 1));
      done := done + [f];
      i := i - 1;
    }
    FieldsStep(w, r.b, r.p, 0);
    ItIsAll(done, r.p);
    fs := Some(done);
  }

  // ----- the class -----

  method ReadClassAttribute(r: Reader, w: seq<Const>, x: Extras) returns (y: Option<Extras>)
    modifies r
    ensures Agrees(y, TakeClassAttribute(w, r.b, old(r.p), x), r.p)
  {
    hide GetText, Get2, Get4, DeprecatedName, SyntheticName, SourceFileName, AbsoluteSourcePathName, TimeStampName, InnerClassesName, ParseInners;
    ClassNamesDiffer();
    var name :- r.GetAsciz(w);
    var length :- r.Get4Bytes();
    if name == SourceFileName() {
      if length != 2 {
        return None;
      }
      var file :- r.GetAsciz(w);
      y := Some(x.(source := Some(file)));
    } else if name == AbsoluteSourcePathName() {
      if length == 2 {
        var path :- r.GetAsciz(w);
        y := Some(x.(sourcePath := Some(path)));
      } else {
        var _ :- r.GetNBytes(length);
        y := Some(x);
      }
    } else if name == TimeStampName() {
      if length == 8 {
        var high :- r.Get4Bytes();
        var low :- r.Get4Bytes();
        y := Some(x.(timeStamp := Some((high, low))));
      } else {
        var _ :- r.GetNBytes(length);
        y := Some(x);
      }
    } else if name == DeprecatedName() {
      if length > 0 {
        return None;
      }
      y := Some(x.(deprecated := true));
    } else if name == SyntheticName() {
      if length > 0 {
        return None;
      }
      y := Some(x.(synthetic := true));
    } else if name == InnerClassesName() {
      var count :- r.Get2Bytes();
      if count * 8 + 2 != length {
        return None;
      }
      if x.innerClasses.Some? {
        return None;
      }
      var classes :- ReadInners(r, w, count);
      y := Some(x.(innerClasses := Some(classes)));
    } else {
      var _ :- r.GetNBytes(length);
      y := Some(x);
    }
  }

  lemma ClassNamesDiffer()
    ensures DeprecatedName() != AbsoluteSourcePathName() && SyntheticName() != AbsoluteSourcePathName() && InnerClassesName() != AbsoluteSourcePathName()
    ensures DeprecatedName() != TimeStampName() && SyntheticName() != TimeStampName() && InnerClassesName() != TimeStampName()
    ensures TimeStampName() != AbsoluteSourcePathName()
  {
    ClassRoundTrip.AttributeNamesDiffer();
    hide *;
  }

  method ReadClassAttributes(r: Reader, w: seq<Const>) returns (y: Option<Extras>)
    modifies r
    ensures Agrees(y, ParseExtras(w, r.b, old(r.p)), r.p)
  {
    hide Get2, ParseClassAttributes, TakeClassAttribute;
    var n :- r.Get2Bytes();
    ghost var start := r.p;
    var x := NoExtras();
    var j := 0;
    while j < n
      invariant 0 <= j <= n && ParseClassAttributes(w, r.b, start, n, NoExtras()) == ParseClassAttributes(w, r.b, r.p, n - j, x)
    {
      ClassAttributesStep(w, r.b, r.p, n - j, x);
      x :- ReadClassAttribute(r, w, x);
      j := j + 1;
    }
    ClassAttributesStep(w, r.b, r.p, 0, x);
    y := Some(x);
  }

  method ReadInterfaces(r: Reader) returns (row: Option<seq<nat>>)
    modifies r
    ensures Agrees(row, ParseInterfaces(r.b, old(r.p)), r.p)
  {
    hide Get2, ParseRow;
    var count :- r.Get2Bytes();
    row := r.ReadRow(count);
  }

  method ReadNames(r: Reader, wanted: Wanted, w: seq<Const>) returns (names: Option<(Text, Option<Text>)>)
    modifies r
    ensures names == ParseNames(wanted, w, r.b, old(r.p)) && (names.Some? ==> r.p == old(r.p) + 4 <= |r.b|)
  {
    hide Get2, ClassText;
    var i :- r.Get2Bytes();
    var name :- GetName(w, i);
    if wanted.name.Some? && wanted.name.value != name {
      return None;
    }
    var k :- r.Get2Bytes();
    if k == 0 {
      return Some((name, None));
    }
    var super :- GetName(w, k);
    if !wanted.legal(super) {
      return None;
    }
    names := Some((name, Some(super)));
  }

  /** getAscizFromClass */
  method GetName(w: seq<Const>, i: nat) returns (v: Option<Text>)
    ensures v == ClassText(w, i)
  {
    if i == 0 || i >= |w| || !w[i].ClassIndex? {
      return None;
    }
    var k := w[i].name;
    if k == 0 || k >= |w| || !w[k].Utf8? {
      return None;
    }
    v := Some(w[k].text);
  }

  /** From the access flags to the end of the file. */
  method ReadBody(r: Reader, d: Derived, wanted: Wanted, w: seq<Const>, minor: nat, major: nat) returns (c: Option<ClassFile>)
    modifies r
    ensures c == ParseBody(d, wanted, w, r.b, old(r.p), minor, major)
  {
    hide Get2, WrittenFlags, ParseNames, ParseInterfaces, ParseFields, ParseMethods, ParseExtras;
    var flags :- r.Get2Bytes();
    NamesNeedSpace(wanted, w, r.b, r.p);
    var names :- ReadNames(r, wanted, w);
    var interfaces :- ReadInterfaces(r);
    var fields :- ReadFields(r, w);
    var methods :- r.ReadMethods(d, w);
    var extras :- ReadClassAttributes(r, w);
    if r.p != |r.b| {
      return None;
    }
    c := Some(ClassFile(minor, major, WrittenFlags(flags), names.0, names.1, interfaces, fields, methods, extras));
  }

  lemma NamesNeedSpace(wanted: Wanted, w: seq<Const>, b: seq<Byte>, p: nat)
    ensures ParseNames(wanted, w, b, p).Some? ==> p + 4 <= |b|
  {
  }

  /** createInternalClass0 */
  method ReadClass(r: Reader, d: Derived, wanted: Wanted) returns (c: Option<(seq<Const>, ClassFile)>)
    requires r.p == 0
    modifies r
    ensures c == ParseClass(d, wanted, r.b)
  {
    hide Get2, Get4, ParsePool, ParseBody;
    var magic :- r.Get4Bytes();
    if magic != MAGIC {
      return None;
    }
    var minor :- r.Get2Bytes();
    var major :- r.Get2Bytes();
    var w :- r.LoadConstantPool();
    var body :- ReadBody(r, d, wanted, w, minor, major);
    c := Some((w, body));
  }
}
