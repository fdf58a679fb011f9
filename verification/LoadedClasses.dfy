/** Whatever the loader accepts, and the verifier has rewritten, can be written and is read back. */
module LoadedClasses {
  import opened Octets
  import opened Types
  import opened ModifiedUtf8
  import opened ConstantPool
  import opened ClassBytes
  import opened ClassWriter
  import opened MethodFormat
  import opened ClassFormat
  import opened ClassRoundTrip
  import opened ClassReader
  import ClassFileReader
  import MethodWriter

  /** The pool of a loaded class: some class entries hold their class instead of its name's index. */
  predicate ResolvedFrom(w: seq<Const>, pool: seq<Const>) {
    && |pool| == |w|
    && forall i | 0 <= i < |w| ::
         pool[i] == w[i] || (w[i].ClassIndex? && IsUtf8(w, w[i].name) && pool[i] == ClassNamed(w[w[i].name].text))
  }

  // ----- strings and classes that were read are in the pool -----

  lemma TextIsKnown(w: seq<Const>, pool: seq<Const>, added: seq<Text>, b: seq<Byte>, p: nat)
    requires ResolvedFrom(w, pool) && GetText(w, b, p).Some?
    ensures Known(pool, added, GetText(w, b, p).value)
  {
    IndexIsKnown(w, pool, added, Get2(b, p));
  }

  lemma IndexIsKnown(w: seq<Const>, pool: seq<Const>, added: seq<Text>, i: nat)
    requires ResolvedFrom(w, pool) && IsUtf8(w, i)
    ensures Known(pool, added, w[i].text)
  {
    assert pool[i] == Utf8(w[i].text);
    assert FindText(pool, w[i].text, 0) < |pool|;
  }

  lemma ClassIsThere(w: seq<Const>, pool: seq<Const>, i: nat)
    requires ResolvedFrom(w, pool) && ClassText(w, i).Some?
    ensures IsClass(pool, i) && ClassAt(pool, i) == ClassText(w, i).value && FindClass(pool, ClassText(w, i).value, 0) < |pool|
  {
    if pool[i] == w[i] {
      assert pool[w[i].name] == w[w[i].name];
    }
    hide IsClass, ClassAt;
  }

  // ----- tables -----

  lemma {:induction false} RowParsed(b: seq<Byte>, p: nat, n: nat)
    requires ParseRow(b, p, n).Some?
    ensures var row := ParseRow(b, p, n).value.0; |row| == n && forall j | 0 <= j < n :: row[j] < 0x1_0000
    decreases n
  {
    hide Get2;
    if n > 0 {
      RowParsed(b, p + 2, n - 1);
    }
  }

  lemma {:induction false} RowsParsed(b: seq<Byte>, p: nat, count: nat, n: nat)
    requires ParseRows(b, p, count, n).Some?
    ensures var rows := ParseRows(b, p, count, n).value.0; |rows| == count && Width(rows, n)
    decreases count
  {
    hide ParseRow;
    if count > 0 {
      RowParsed(b, p, n);
      RowsParsed(b, ParseRow(b, p, n).value.1, count - 1, n);
    }
  }

  lemma TableParsed(b: seq<Byte>, p: nat, n: nat)
    requires ParseTable(b, p, n).Some?
    ensures |ParseTable(b, p, n).value.0| < 0x1_0000 && Width(ParseTable(b, p, n).value.0, n)
  {
    hide Get2, Get4, ParseRows;
    RowsParsed(b, p + 6, Get2(b, p + 4), n);
  }

  /** A local variable with strings of the pool. */
  predicate VarGood(pool: seq<Const>, added: seq<Text>, v: LocalVar) {
    v.pc0 < 0x1_0000 && v.length < 0x1_0000 && v.slot < 0x1_0000 && Known(pool, added, v.name) && Known(pool, added, v.descriptor)
  }

  lemma VarParsed(w: seq<Const>, pool: seq<Const>, added: seq<Text>, b: seq<Byte>, p: nat)
    requires ResolvedFrom(w, pool) && ParseVar(w, b, p).Some?
    ensures VarGood(pool, added, ParseVar(w, b, p).value.0)
  {
    VarIs(w, b, p);
    hide Get2, GetText, Known, ParseVar;
    TextIsKnown(w, pool, added, b, p + 4);
    TextIsKnown(w, pool, added, b, p + 6);
  }

  lemma {:induction false} VarsParsed(w: seq<Const>, pool: seq<Const>, added: seq<Text>, b: seq<Byte>, p: nat, n: nat)
    requires ResolvedFrom(w, pool) && ParseVars(w, b, p, n).Some?
    ensures var vars := ParseVars(w, b, p, n).value.0; |vars| == n && forall i | 0 <= i < n :: VarGood(pool, added, vars[i])
    decreases n
  {
    VarsStepIs(w, b, p, n);
    hide ParseVar, ParseVars, VarGood, ResolvedFrom;
    if n > 0 {
      VarParsed(w, pool, added, b, p);
      VarsParsed(w, pool, added, b, ParseVar(w, b, p).value.1, n - 1);
    }
  }

  lemma VarTableParsed(w: seq<Const>, pool: seq<Const>, added: seq<Text>, b: seq<Byte>, p: nat)
    requires ResolvedFrom(w, pool) && ParseVarTable(w, b, p).Some?
    ensures var vars := ParseVarTable(w, b, p).value.0; |vars| < 0x1_0000 && forall i | 0 <= i < |vars| :: VarGood(pool, added, vars[i])
  {
    VarTableIs(w, b, p);
    hide Get2, Get4, ParseVars, ParseVarTable, VarGood, ResolvedFrom;
    VarsParsed(w, pool, added, b, p + 6, Get2(b, p + 4));
  }

  // ----- code -----

  /** Code as it is read: numbers that fit, strings of the pool, no stack maps. */
  predicate CodeGood(pool: seq<Const>, added: seq<Text>, c: Code, argsSize: nat) {
    && c.maps == [] && argsSize <= c.nlocals && c.maxStack < 0x1_0000 && c.nlocals < 0x1_0000 && |c.bytes| < 0x1_0000
    && |c.table| < 0x1_0000 && Width(c.table, 4) && |c.lines| < 0x1_0000 && Width(c.lines, 2) && |c.vars| < 0x1_0000
    && (forall i | 0 <= i < |c.vars| :: VarGood(pool, added, c.vars[i]))
    && (c.lines != [] ==> Known(pool, added, LineNumberTableName())) && (c.vars != [] ==> Known(pool, added, LocalVariableTableName()))
  }

  lemma {:induction false} CodeAttributesParsed(w: seq<Const>, pool: seq<Const>, added: seq<Text>, b: seq<Byte>, p: nat, n: nat, c: Code, argsSize: nat)
    requires ResolvedFrom(w, pool) && ParseCodeAttributes(w, b, p, n, c).Some? && CodeGood(pool, added, c, argsSize)
    ensures CodeGood(pool, added, ParseCodeAttributes(w, b, p, n, c).value.0, argsSize)
    decreases n
  {
    CodeAttributesStep(w, b, p, n, c);
    hide ParseCodeAttributes, ParseCodeAttribute, CodeGood, ResolvedFrom;
    if n > 0 {
      CodeAttributeParsed(w, pool, added, b, p, c, argsSize);
      var first := ParseCodeAttribute(w, b, p, c).value;
      CodeAttributesParsed(w, pool, added, b, first.1, n - 1, first.0, argsSize);
    }
  }

  lemma CodeAttributeParsed(w: seq<Const>, pool: seq<Const>, added: seq<Text>, b: seq<Byte>, p: nat, c: Code, argsSize: nat)
    requires ResolvedFrom(w, pool) && ParseCodeAttribute(w, b, p, c).Some? && CodeGood(pool, added, c, argsSize)
    ensures CodeGood(pool, added, ParseCodeAttribute(w, b, p, c).value.0, argsSize)
  {
    hide GetText, ParseTable, ParseVarTable, Skip, LineNumberTableName, LocalVariableTableName, Known, Width, VarGood, ResolvedFrom;
    TextIsKnown(w, pool, added, b, p);
    if ParseTable(b, p + 2, 2).Some? {
      TableParsed(b, p + 2, 2);
    }
    if ParseVarTable(w, b, p + 2).Some? {
      VarTableParsed(w, pool, added, b, p + 2);
    }
  }

  lemma CodeParsedGood(w: seq<Const>, pool: seq<Const>, added: seq<Text>, b: seq<Byte>, p: nat, argsSize: nat, earlier: Option<Code>)
    requires ResolvedFrom(w, pool) && ParseCode(w, b, p, argsSize, earlier).Some?
    requires earlier.Some? ==> CodeGood(pool, added, earlier.value, argsSize)
    ensures CodeGood(pool, added, ParseCode(w, b, p, argsSize, earlier).value.0, argsSize)
  {
    hide Get2, Get4, ParseRows, ParseCodeAttributes, ResolvedFrom;
    var q := p + 12 + Get4(b, p + 8);
    RowsParsed(b, q + 2, Get2(b, q), 4);
    var table := ParseRows(b, q + 2, Get2(b, q), 4).value;
    var c := Code(Get2(b, p + 4), Get2(b, p + 6), b[p + 12..q], table.0, KeptLines(earlier), KeptVars(earlier), []);
    CodeAttributesParsed(w, pool, added, b, table.1 + 2, Get2(b, table.1), c, argsSize);
  }

  // ----- methods -----

  /** A method as it is read. */
  predicate MethodGood(d: Derived, pool: seq<Const>, added: seq<Text>, m: Method) {
    && WrittenFlags(m.access) == m.access && Known(pool, added, m.name) && Known(pool, added, m.descriptor)
    && d.argsSize(m.access, m.descriptor) <= 255
    && (m.code.Some? ==> CodeGood(pool, added, m.code.value, d.argsSize(m.access, m.descriptor)) && d.mayHaveCode(m.access, m.name) && Known(pool, added, CodeName()))
    && |m.exceptions| < 0x1_0000 && (forall i | 0 <= i < |m.exceptions| :: m.exceptions[i] < 0x1_0000)
    && (m.exceptions != [] ==> Known(pool, added, ExceptionsName()))
    && (m.deprecated ==> Known(pool, added, DeprecatedName())) && (m.synthetic ==> Known(pool, added, SyntheticName()))
  }

  lemma {:induction false} FirstsFit(rows: seq<Row>)
    requires Width(rows, 1)
    ensures |Firsts(rows)| == |rows| && forall i | 0 <= i < |rows| :: Firsts(rows)[i] < 0x1_0000
  {
    if rows != [] {
      FirstsFit(rows[1..]);
      assert |rows[0]| == 1;
    }
  }

  lemma MethodAttributeParsed(d: Derived, w: seq<Const>, pool: seq<Const>, added: seq<Text>, b: seq<Byte>, p: nat, m: Method, exc: bool)
    requires ResolvedFrom(w, pool) && MethodGood(d, pool, added, m)
    requires ParseMethodAttribute(w, b, p, m, d.argsSize(m.access, m.descriptor), d.mayHaveCode(m.access, m.name), exc).Some?
    ensures var n := ParseMethodAttribute(w, b, p, m, d.argsSize(m.access, m.descriptor), d.mayHaveCode(m.access, m.name), exc).value.0.0;
            MethodGood(d, pool, added, n) && n.access == m.access && n.descriptor == m.descriptor && n.name == m.name
  {
    hide GetText, ParseTable, ParseCode, Skip, Firsts, CodeName, ExceptionsName, DeprecatedName, SyntheticName, Known, CodeGood, Width, ResolvedFrom, WrittenFlags;
    TextIsKnown(w, pool, added, b, p);
    if ParseCode(w, b, p + 2, d.argsSize(m.access, m.descriptor), m.code).Some? {
      CodeParsedGood(w, pool, added, b, p + 2, d.argsSize(m.access, m.descriptor), m.code);
    }
    if ParseTable(b, p + 2, 1).Some? {
      TableParsed(b, p + 2, 1);
      FirstsFit(ParseTable(b, p + 2, 1).value.0);
    }
  }

  lemma {:induction false} MethodAttributesParsed(d: Derived, w: seq<Const>, pool: seq<Const>, added: seq<Text>, b: seq<Byte>, p: nat, n: nat, m: Method, exc: bool)
    requires ResolvedFrom(w, pool) && MethodGood(d, pool, added, m)
    requires ParseMethodAttributes(w, b, p, n, m, d.argsSize(m.access, m.descriptor), d.mayHaveCode(m.access, m.name), exc).Some?
    ensures var r := ParseMethodAttributes(w, b, p, n, m, d.argsSize(m.access, m.descriptor), d.mayHaveCode(m.access, m.name), exc).value.0;
            MethodGood(d, pool, added, r) && r.access == m.access && r.descriptor == m.descriptor
    decreases n
  {
    var args, may := d.argsSize(m.access, m.descriptor), d.mayHaveCode(m.access, m.name);
    MethodAttributesStep(w, b, p, n, m, args, may, exc);
    hide ParseMethodAttributes, ParseMethodAttribute, MethodGood, ResolvedFrom;
    if n > 0 {
      MethodAttributeParsed(d, w, pool, added, b, p, m, exc);
      var first := ParseMethodAttribute(w, b, p, m, args, may, exc).value;
      MethodAttributesParsed(d, w, pool, added, b, first.1, n - 1, first.0.0, first.0.1);
    }
  }

  lemma MaskedFlags(flags: nat)
    ensures WrittenFlags(WrittenFlags(flags)) == WrittenFlags(flags)
  {
  }

  lemma MethodParsedGood(d: Derived, w: seq<Const>, pool: seq<Const>, added: seq<Text>, b: seq<Byte>, p: nat)
    requires ResolvedFrom(w, pool) && ParseMethod(d, w, b, p).Some?
    ensures MethodGood(d, pool, added, ParseMethod(d, w, b, p).value.0)
    ensures Some(ParseMethod(d, w, b, p).value.0.descriptor) == GetText(w, b, p + 4)
  {
    hide Get2, GetText, ParseMethodAttributes, Known, ResolvedFrom, WrittenFlags;
    MaskedFlags(Get2(b, p));
    TextIsKnown(w, pool, added, b, p + 2);
    TextIsKnown(w, pool, added, b, p + 4);
    var m := Method(WrittenFlags(Get2(b, p)), GetText(w, b, p + 2).value, GetText(w, b, p + 4).value, None, [], false, false);
    MethodAttributesParsed(d, w, pool, added, b, p + 8, Get2(b, p + 6), m, false);
  }

  lemma {:induction false} MethodListParsed(d: Derived, w: seq<Const>, pool: seq<Const>, added: seq<Text>, b: seq<Byte>, p: nat, n: nat)
    requires ResolvedFrom(w, pool) && ParseMethodList(d, w, b, p, n).Some?
    ensures var ms := ParseMethodList(d, w, b, p, n).value.0; |ms| == n && forall i | 0 <= i < n :: MethodGood(d, pool, added, ms[i])
    decreases n
  {
    hide ParseMethod, MethodGood, ResolvedFrom;
    if n > 0 {
      MethodParsedGood(d, w, pool, added, b, p);
      MethodListParsed(d, w, pool, added, b, ParseMethod(d, w, b, p).value.1, n - 1);
    }
  }

  // ----- fields -----

  /** A field as it is read. */
  predicate FieldGood(pool: seq<Const>, added: seq<Text>, f: Field) {
    && WrittenFlags(f.access) == f.access && Known(pool, added, f.name) && Known(pool, added, f.descriptor)
    && (f.constant.Some? ==> IsStatic(f.access) && f.constant.value < 0x1_0000 && Known(pool, added, ConstantValueName()))
    && (f.deprecated ==> Known(pool, added, DeprecatedName())) && (f.synthetic ==> Known(pool, added, SyntheticName()))
  }

  lemma FieldAttributeParsed(w: seq<Const>, pool: seq<Const>, added: seq<Text>, b: seq<Byte>, p: nat, f: Field)
    requires ResolvedFrom(w, pool) && FieldGood(pool, added, f) && ClassFileReader.TakeFieldAttribute(w, b, p, f).Some?
    ensures FieldGood(pool, added, ClassFileReader.TakeFieldAttribute(w, b, p, f).value.0)
  {
    hide GetText, Get2, Get4, ConstantValueName, DeprecatedName, SyntheticName, IsStatic, Known, ResolvedFrom, WrittenFlags;
    TextIsKnown(w, pool, added, b, p);
  }

  lemma {:induction false} FieldAttributesParsed(w: seq<Const>, pool: seq<Const>, added: seq<Text>, b: seq<Byte>, p: nat, n: nat, f: Field)
    requires ResolvedFrom(w, pool) && FieldGood(pool, added, f) && ParseFieldAttributes(w, b, p, n, f).Some?
    ensures FieldGood(pool, added, ParseFieldAttributes(w, b, p, n, f).value.0)
    decreases n
  {
    ClassFileReader.FieldAttributesStep(w, b, p, n, f);
    hide ParseFieldAttributes, ClassFileReader.TakeFieldAttribute, FieldGood, ResolvedFrom;
    if n > 0 {
      FieldAttributeParsed(w, pool, added, b, p, f);
      var first := ClassFileReader.TakeFieldAttribute(w, b, p, f).value;
      FieldAttributesParsed(w, pool, added, b, first.1, n - 1, first.0);
    }
  }

  lemma FieldParsed(w: seq<Const>, pool: seq<Const>, added: seq<Text>, b: seq<Byte>, p: nat)
    requires ResolvedFrom(w, pool) && ParseField(w, b, p).Some?
    ensures FieldGood(pool, added, ParseField(w, b, p).value.0)
  {
    hide Get2, GetText, ParseFieldAttributes, Known, ResolvedFrom, WrittenFlags;
    MaskedFlags(Get2(b, p));
    TextIsKnown(w, pool, added, b, p + 2);
    TextIsKnown(w, pool, added, b, p + 4);
    var f := Field(WrittenFlags(Get2(b, p)), GetText(w, b, p + 2).value, GetText(w, b, p + 4).value, None, false, false);
    FieldAttributesParsed(w, pool, added, b, p + 8, Get2(b, p + 6), f);
  }

  lemma {:induction false} FieldListParsed(w: seq<Const>, pool: seq<Const>, added: seq<Text>, b: seq<Byte>, p: nat, n: nat)
    requires ResolvedFrom(w, pool) && ParseFieldList(w, b, p, n).Some?
    ensures var fs := ParseFieldList(w, b, p, n).value.0; |fs| == n && forall i | 0 <= i < n :: FieldGood(pool, added, fs[i])
    decreases n
  {
    hide ParseField, FieldGood, ResolvedFrom;
    if n > 0 {
      FieldParsed(w, pool, added, b, p);
      FieldListParsed(w, pool, added, b, ParseField(w, b, p).value.1, n - 1);
    }
  }

  // ----- the class attributes -----

  predicate ExtrasGood(pool: seq<Const>, added: seq<Text>, x: Extras) {
    forall i | 0 <= i < |ClassAttributes(x)| :: AttributeKnown(pool, added, ClassAttributes(x)[i])
  }

  /** The same, attribute by attribute. */
  predicate EachGood(pool: seq<Const>, added: seq<Text>, x: Extras) {
    && (x.source.Some? ==> AttributeKnown(pool, added, SourceFile(x.source.value)))
    && (x.sourcePath.Some? ==> AttributeKnown(pool, added, AbsoluteSourcePath(x.sourcePath.value)))
    && (x.timeStamp.Some? ==> AttributeKnown(pool, added, TimeStamp(x.timeStamp.value.0, x.timeStamp.value.1)))
    && (x.deprecated ==> AttributeKnown(pool, added, Deprecated)) && (x.synthetic ==> AttributeKnown(pool, added, Synthetic))
    && (x.innerClasses.Some? ==> AttributeKnown(pool, added, InnerClasses(x.innerClasses.value)))
  }

  lemma EachIsAll(pool: seq<Const>, added: seq<Text>, x: Extras)
    requires EachGood(pool, added, x)
    ensures ExtrasGood(pool, added, x)
  {
    hide AttributeKnown;
  }

  lemma {:induction false} InnersParsed(w: seq<Const>, pool: seq<Const>, added: seq<Text>, b: seq<Byte>, p: nat, n: nat)
    requires ResolvedFrom(w, pool) && ParseInners(w, b, p, n).Some?
    ensures var cs := ParseInners(w, b, p, n).value.0; |cs| == n && forall i | 0 <= i < n :: InnerKnown(pool, added, cs[i])
    decreases n
  {
    hide ParseInner, InnerKnown, ResolvedFrom;
    if n > 0 {
      InnerParsed(w, pool, added, b, p);
      InnersParsed(w, pool, added, b, ParseInner(w, b, p).value.1, n - 1);
    }
  }

  lemma InnerParsed(w: seq<Const>, pool: seq<Const>, added: seq<Text>, b: seq<Byte>, p: nat)
    requires ResolvedFrom(w, pool) && ParseInner(w, b, p).Some?
    ensures InnerKnown(pool, added, ParseInner(w, b, p).value.0)
  {
    hide Get2, GetText, Known, ResolvedFrom, IsClass, ClassText;
    if GetText(w, b, p + 4).Some? {
      TextIsKnown(w, pool, added, b, p + 4);
    }
    if Get2(b, p) != 0 {
      ClassIsThere(w, pool, Get2(b, p));
    }
    if Get2(b, p + 2) != 0 {
      ClassIsThere(w, pool, Get2(b, p + 2));
    }
  }

  /** Whatever attribute is read, it could be written. */
  lemma AttributeParsed(w: seq<Const>, pool: seq<Const>, added: seq<Text>, b: seq<Byte>, p: nat)
    requires ResolvedFrom(w, pool) && ParseClassAttribute(w, b, p).Some? && ParseClassAttribute(w, b, p).value.0.Some?
    ensures AttributeKnown(pool, added, ParseClassAttribute(w, b, p).value.0.value)
  {
    hide GetText, Get2, Get4, Known, ResolvedFrom, ParseInners, InnerKnown, Skipped,
         SourceFileName, AbsoluteSourcePathName, TimeStampName, DeprecatedName, SyntheticName, InnerClassesName, ConstantValueName;
    TextIsKnown(w, pool, added, b, p);
    if GetText(w, b, p + 6).Some? {
      TextIsKnown(w, pool, added, b, p + 6);
    }
    if p + 8 <= |b| && ParseInners(w, b, p + 8, Get2(b, p + 6)).Some? {
      InnersParsed(w, pool, added, b, p + 8, Get2(b, p + 6));
    }
    SkippedIsNone(b, p + 2);
  }

  lemma SkippedIsNone(b: seq<Byte>, p: nat)
    ensures Skipped(b, p).Some? ==> Skipped(b, p).value.0.None?
  {
  }

  lemma ClassAttributeParsed(w: seq<Const>, pool: seq<Const>, added: seq<Text>, b: seq<Byte>, p: nat, x: Extras)
    requires ResolvedFrom(w, pool) && EachGood(pool, added, x) && ClassFileReader.TakeClassAttribute(w, b, p, x).Some?
    ensures EachGood(pool, added, ClassFileReader.TakeClassAttribute(w, b, p, x).value.0)
  {
    hide ParseClassAttribute, AttributeKnown, ResolvedFrom, EachGood, AddToClass;
    if ParseClassAttribute(w, b, p).value.0.Some? {
      AttributeParsed(w, pool, added, b, p);
      AddedIsGood(pool, added, x, ParseClassAttribute(w, b, p).value.0.value);
    }
  }

  lemma AddedIsGood(pool: seq<Const>, added: seq<Text>, x: Extras, a: Attribute)
    requires EachGood(pool, added, x) && AttributeKnown(pool, added, a) && AddToClass(x, a).Some?
    ensures EachGood(pool, added, AddToClass(x, a).value)
  {
    hide AttributeKnown;
  }

  lemma {:induction false} ClassAttributesParsed(w: seq<Const>, pool: seq<Const>, added: seq<Text>, b: seq<Byte>, p: nat, n: nat, x: Extras)
    requires ResolvedFrom(w, pool) && EachGood(pool, added, x) && ParseClassAttributes(w, b, p, n, x).Some?
    ensures EachGood(pool, added, ParseClassAttributes(w, b, p, n, x).value.0)
    decreases n
  {
    ClassFileReader.ClassAttributesStep(w, b, p, n, x);
    hide ParseClassAttributes, ClassFileReader.TakeClassAttribute, EachGood, ResolvedFrom;
    if n > 0 {
      ClassAttributeParsed(w, pool, added, b, p, x);
      var first := ClassFileReader.TakeClassAttribute(w, b, p, x).value;
      ClassAttributesParsed(w, pool, added, b, first.1, n - 1, first.0);
    }
  }

  // ----- the class -----

  /** A loaded class. */
  predicate Good(d: Derived, wanted: Wanted, pool: seq<Const>, added: seq<Text>, c: ClassFile) {
    && WrittenFlags(c.access) == c.access && c.minor < 0x1_0000 && c.major < 0x1_0000
    && FindClass(pool, c.name, 0) < |pool| && (wanted.name.Some? ==> wanted.name == Some(c.name))
    && (c.super.Some? ==> FindClass(pool, c.super.value, 0) < |pool| && wanted.legal(c.super.value))
    && |c.interfaces| < 0x1_0000 && |c.fields| < 0x1_0000 && |c.methods| < 0x1_0000
    && (forall i | 0 <= i < |c.fields| :: FieldGood(pool, added, c.fields[i]))
    && (forall i | 0 <= i < |c.methods| :: MethodGood(d, pool, added, c.methods[i]))
    && ExtrasGood(pool, added, c.extras)
  }

  lemma NamesParsed(wanted: Wanted, w: seq<Const>, pool: seq<Const>, b: seq<Byte>, p: nat)
    requires ResolvedFrom(w, pool) && ParseNames(wanted, w, b, p).Some?
    ensures var (name, super) := ParseNames(wanted, w, b, p).value;
            && FindClass(pool, name, 0) < |pool| && (wanted.name.Some? ==> wanted.name == Some(name))
            && (super.Some? ==> FindClass(pool, super.value, 0) < |pool| && wanted.legal(super.value))
  {
    hide Get2, ClassText, FindClass, ResolvedFrom;
    ClassIsThere(w, pool, Get2(b, p));
    if Get2(b, p + 2) != 0 {
      ClassIsThere(w, pool, Get2(b, p + 2));
    }
  }

  lemma FieldsParsed(w: seq<Const>, pool: seq<Const>, added: seq<Text>, b: seq<Byte>, p: nat)
    requires ResolvedFrom(w, pool) && ParseFields(w, b, p).Some?
    ensures var fs := ParseFields(w, b, p).value.0; |fs| < 0x1_0000 && forall i | 0 <= i < |fs| :: FieldGood(pool, added, fs[i])
  {
    hide Get2, ParseFieldList, FieldGood, ResolvedFrom;
    FieldListParsed(w, pool, added, b, p + 2, Get2(b, p));
  }

  lemma MethodsParsed(d: Derived, w: seq<Const>, pool: seq<Const>, added: seq<Text>, b: seq<Byte>, p: nat)
    requires ResolvedFrom(w, pool) && ParseMethods(d, w, b, p).Some?
    ensures var ms := ParseMethods(d, w, b, p).value.0; |ms| < 0x1_0000 && forall i | 0 <= i < |ms| :: MethodGood(d, pool, added, ms[i])
  {
    hide Get2, ParseMethodList, MethodGood, ResolvedFrom;
    MethodListParsed(d, w, pool, added, b, p + 2, Get2(b, p));
  }

  lemma ExtrasParsed(w: seq<Const>, pool: seq<Const>, added: seq<Text>, b: seq<Byte>, p: nat)
    requires ResolvedFrom(w, pool) && ParseExtras(w, b, p).Some?
    ensures ExtrasGood(pool, added, ParseExtras(w, b, p).value.0)
  {
    hide Get2, ParseClassAttributes, ResolvedFrom, ExtrasGood, AttributeKnown;
    ClassAttributesParsed(w, pool, added, b, p + 2, Get2(b, p), NoExtras());
    EachIsAll(pool, added, ParseExtras(w, b, p).value.0);
  }

  lemma InterfacesParsed(b: seq<Byte>, p: nat)
    requires ParseInterfaces(b, p).Some?
    ensures |ParseInterfaces(b, p).value.0| < 0x1_0000
  {
    hide Get2, ParseRow;
    RowParsed(b, p + 2, Get2(b, p));
  }

  lemma BodyParsed(d: Derived, wanted: Wanted, w: seq<Const>, pool: seq<Const>, added: seq<Text>, b: seq<Byte>, p: nat, minor: nat, major: nat)
    requires ResolvedFrom(w, pool) && minor < 0x1_0000 && major < 0x1_0000 && ParseBody(d, wanted, w, b, p, minor, major).Some?
    ensures Good(d, wanted, pool, added, ParseBody(d, wanted, w, b, p, minor, major).value)
  {
    hide Get2, WrittenFlags, ParseNames, ParseInterfaces, ParseFields, ParseMethods, ParseExtras, ResolvedFrom, FindClass, FieldGood, MethodGood, ExtrasGood;
    MaskedFlags(Get2(b, p));
    NamesParsed(wanted, w, pool, b, p + 2);
    InterfacesParsed(b, p + 6);
    var interfaces := ParseInterfaces(b, p + 6).value;
    FieldsParsed(w, pool, added, b, interfaces.1);
    var fields := ParseFields(w, b, interfaces.1).value;
    MethodsParsed(d, w, pool, added, b, fields.1);
    ExtrasParsed(w, pool, added, b, ParseMethods(d, w, b, fields.1).value.1);
  }

  lemma ClassParsed(d: Derived, wanted: Wanted, pool: seq<Const>, added: seq<Text>, b: seq<Byte>)
    requires ParseClass(d, wanted, b).Some? && ResolvedFrom(ParseClass(d, wanted, b).value.0, pool)
    ensures Good(d, wanted, pool, added, ParseClass(d, wanted, b).value.1)
  {
    hide Get2, Get4, ParsePool, ParseBody, ResolvedFrom, Good;
    var w := ParsePool(b, 8).value;
    BodyParsed(d, wanted, w.0, pool, added, b, w.1, Get2(b, 4), Get2(b, 6));
  }

  // ----- what is loaded can be written -----

  lemma GoodFieldKnown(pool: seq<Const>, added: seq<Text>, f: Field)
    requires FieldGood(pool, added, f)
    ensures FieldKnown(pool, added, f) && RereadField(f) == f
  {
    hide Known, IsStatic, WrittenFlags, ConstantValueName, DeprecatedName, SyntheticName;
  }

  lemma CodeIsShort(c: Code)
    requires |c.maps| == 0 && |c.bytes| < 0x1_0000 && |c.table| < 0x1_0000 && |c.lines| < 0x1_0000 && |c.vars| < 0x1_0000
    ensures CodeLength(c) < 0x1_0000_0000 && MapsSize(c.maps) == 0
  {
  }

  /** A Code attribute without bytes, which the loader accepts and the writer leaves out. */
  predicate HasEmptyCode(m: Method) {
    m.code.Some? && m.code.value.bytes == []
  }

  function WithoutEmptyCode(c: ClassFile): ClassFile {
    c.(methods := seq(|c.methods|, i requires 0 <= i < |c.methods| =>
      if HasEmptyCode(c.methods[i]) then c.methods[i].(code := None) else c.methods[i]))
  }

  lemma NoEmptyCode(c: ClassFile)
    ensures WithoutEmptyCode(c) == c <==> forall i | 0 <= i < |c.methods| :: !HasEmptyCode(c.methods[i])
  {
    var ms := WithoutEmptyCode(c).methods;
    if forall i | 0 <= i < |c.methods| :: !HasEmptyCode(c.methods[i]) {
      assert ms == c.methods;
    }
    if i :| 0 <= i < |c.methods| && HasEmptyCode(c.methods[i]) {
      assert ms[i].code.None?;
    }
  }

  lemma GoodMethodKnown(d: Derived, pool: seq<Const>, added: seq<Text>, m: Method)
    requires MethodGood(d, pool, added, m)
    ensures MethodWriter.NamesOf(pool, added, m) && MethodWriter.MethodFits(d, m)
    ensures Reread(m) == if HasEmptyCode(m) then m.(code := None) else m
  {
    hide Known, WrittenFlags, CodeName, ExceptionsName, DeprecatedName, SyntheticName, LineNumberTableName, LocalVariableTableName, Width,
         CodeLength, MapsSize, StackMapName;
    if m.code.Some? {
      CodeIsShort(m.code.value);
    }
  }

  /** A loaded class meets all that the writer asks for, once its interfaces are known to be classes. */
  lemma LoadedFits(d: Derived, wanted: Wanted, pool: seq<Const>, added: seq<Text>, b: seq<Byte>)
    requires ParseClass(d, wanted, b).Some? && ResolvedFrom(ParseClass(d, wanted, b).value.0, pool)
    requires forall i | 0 <= i < |ParseClass(d, wanted, b).value.1.interfaces| :: IsClass(pool, ParseClass(d, wanted, b).value.1.interfaces[i])
    ensures ClassFits(d, wanted, pool, added, ParseClass(d, wanted, b).value.1)
    ensures RereadClass(ParseClass(d, wanted, b).value.1) == WithoutEmptyCode(ParseClass(d, wanted, b).value.1)
  {
    hide ParseClass, FindClass, FieldGood, MethodGood, ResolvedFrom, FieldKnown, MethodWriter.NamesOf, MethodWriter.MethodFits, IsClass, AttributeKnown,
         ClassAttributes, WrittenFlags, HasEmptyCode;
    ClassParsed(d, wanted, pool, added, b);
    var c := ParseClass(d, wanted, b).value.1;
    forall i | 0 <= i < |c.fields| ensures FieldKnown(pool, added, c.fields[i]) && RereadField(c.fields[i]) == c.fields[i] {
      GoodFieldKnown(pool, added, c.fields[i]);
    }
    forall i | 0 <= i < |c.methods|
      ensures MethodWriter.NamesOf(pool, added, c.methods[i]) && MethodWriter.MethodFits(d, c.methods[i])
      ensures Reread(c.methods[i]) == WithoutEmptyCode(c).methods[i]
    {
      GoodMethodKnown(d, pool, added, c.methods[i]);
    }
    assert RereadFields(c.fields) == c.fields;
    assert RereadAll(c.methods) == WithoutEmptyCode(c).methods;
  }

  /**
   Loading, writing and loading: for every class file that the loader accepts, and whose
   pool passes the check of the verifier, the second loading gives what the first gave,
   except that a method whose Code attribute had no bytes has none, and every constant has
   kept its meaning.
   */
  lemma LoadWriteLoad(d: Derived, wanted: Wanted, pool: seq<Const>, b: seq<Byte>)
    requires ParseClass(d, wanted, b).Some? && ResolvedFrom(ParseClass(d, wanted, b).value.0, pool) && ValidPool(pool)
    requires forall i | 0 <= i < |ParseClass(d, wanted, b).value.1.interfaces| :: IsClass(pool, ParseClass(d, wanted, b).value.1.interfaces[i])
    ensures var c, w := ParseClass(d, wanted, b).value.1, NewPool(pool, false, []);
            && ParseClass(d, wanted, WrittenFile(pool, false, [], c)) == Some((w, WithoutEmptyCode(c)))
            && (WithoutEmptyCode(c) == c <==> forall i | 0 <= i < |c.methods| :: !HasEmptyCode(c.methods[i]))
            && |w| == |pool| && MeaningsKept(pool, w, 0)
  {
    hide *;
    var c := ParseClass(d, wanted, b).value.1;
    NothingIsAdded(pool);
    LoadedFits(d, wanted, pool, AddedFor(pool, false, []), b);
    WrittenFileIsRead(d, wanted, pool, false, [], c, []);
    WithoutJunk(pool, c);
    NoEmptyCode(c);
  }

  lemma NothingIsAdded(pool: seq<Const>)
    requires ValidPool(pool)
    ensures pool != [] && pool[0].Unusable? && ClassesOk(false, [])
    ensures |NewPool(pool, false, [])| == |pool| <= MOST_CONSTANTS
  {
  }

  lemma WithoutJunk(pool: seq<Const>, c: ClassFile)
    requires pool != [] && pool[0].Unusable?
    ensures WrittenFile(pool, false, [], c) + [] == WrittenFile(pool, false, [], c)
  {
    hide *;
  }

  // ----- what the verifier has rewritten can be written -----

  /** Code that may have other bytes and tables than the one loaded, within what fits, and has stack maps. */
  predicate CodeVerified(hasStackMaps: bool, c: Code, v: Code) {
    && (c.bytes == [] ==> v == c)
    && CodeOk(v) && CodeLength(v) < 0x1_0000_0000 && v.nlocals == c.nlocals && (v.maps != [] ==> hasStackMaps)
    && (v.lines != [] ==> c.lines != [])
    && forall i | 0 <= i < |v.vars| :: SomeVar(c.vars, v.vars[i])
  }

  predicate SomeVar(vars: seq<LocalVar>, v: LocalVar) {
    exists j :: 0 <= j < |vars| && v.name == vars[j].name && v.descriptor == vars[j].descriptor
  }

  predicate MethodVerified(hasStackMaps: bool, m: Method, v: Method) {
    v.(code := m.code) == m && (v.code.Some? <==> m.code.Some?) && (m.code.Some? ==> CodeVerified(hasStackMaps, m.code.value, v.code.value))
  }

  predicate ClassVerified(hasStackMaps: bool, c: ClassFile, v: ClassFile) {
    v.(methods := c.methods) == c && |v.methods| == |c.methods|
    && forall i | 0 <= i < |c.methods| :: MethodVerified(hasStackMaps, c.methods[i], v.methods[i])
  }

  lemma StackMapIsKnown(pool: seq<Const>, classes: seq<Text>)
    ensures Known(pool, AddedFor(pool, true, classes), StackMapName())
  {
    var texts := [StackMapName()] + classes;
    assert texts[0] == StackMapName();
    AddedKnows(pool, texts, StackMapName());
  }

  lemma VerifiedMethodFits(d: Derived, pool: seq<Const>, hasStackMaps: bool, classes: seq<Text>, m: Method, v: Method)
    requires MethodVerified(hasStackMaps, m, v)
    requires MethodWriter.NamesOf(pool, AddedFor(pool, hasStackMaps, classes), m) && MethodWriter.MethodFits(d, m)
    ensures MethodWriter.NamesOf(pool, AddedFor(pool, hasStackMaps, classes), v) && MethodWriter.MethodFits(d, v)
  {
    hide Known, AddedFor, CodeOk, CodeLength, WrittenFlags, CodeName, ExceptionsName, DeprecatedName, SyntheticName,
         LineNumberTableName, LocalVariableTableName, StackMapName, CodeVerified, MethodWriter.CodeNamesOf;
    if HasEmptyCode(m) {
      EmptyIsKept(hasStackMaps, m, v);
    } else if m.code.Some? {
      VerifiedCodeFits(pool, hasStackMaps, classes, m.code.value, v.code.value);
    }
  }

  lemma EmptyIsKept(hasStackMaps: bool, m: Method, v: Method)
    requires MethodVerified(hasStackMaps, m, v) && HasEmptyCode(m)
    ensures v == m
  {
    hide CodeOk, CodeLength, SomeVar;
  }

  lemma VerifiedCodeFits(pool: seq<Const>, hasStackMaps: bool, classes: seq<Text>, c: Code, v: Code)
    requires CodeVerified(hasStackMaps, c, v) && MethodWriter.CodeNamesOf(pool, AddedFor(pool, hasStackMaps, classes), c)
    ensures MethodWriter.CodeNamesOf(pool, AddedFor(pool, hasStackMaps, classes), v)
    ensures CodeOk(v) && CodeLength(v) < 0x1_0000_0000 && v.nlocals == c.nlocals
  {
    hide Known, AddedFor, CodeOk, CodeLength, LineNumberTableName, LocalVariableTableName, StackMapName;
    var added := AddedFor(pool, hasStackMaps, classes);
    if hasStackMaps {
      StackMapIsKnown(pool, classes);
    }
    if v.vars != [] {
      assert SomeVar(c.vars, v.vars[0]);
    }
    forall i | 0 <= i < |v.vars| ensures Known(pool, added, v.vars[i].name) && Known(pool, added, v.vars[i].descriptor) {
      assert SomeVar(c.vars, v.vars[i]);
      var j :| 0 <= j < |c.vars| && v.vars[i].name == c.vars[j].name && v.vars[i].descriptor == c.vars[j].descriptor;
    }
  }

  lemma VerifiedFits(d: Derived, wanted: Wanted, pool: seq<Const>, hasStackMaps: bool, classes: seq<Text>, c: ClassFile, v: ClassFile)
    requires ClassVerified(hasStackMaps, c, v) && ClassFits(d, wanted, pool, AddedFor(pool, hasStackMaps, classes), c)
    ensures ClassFits(d, wanted, pool, AddedFor(pool, hasStackMaps, classes), v)
  {
    hide FindClass, FieldKnown, MethodWriter.NamesOf, MethodWriter.MethodFits, IsClass, AttributeKnown, ClassAttributes, AddedFor, MethodVerified;
    var added := AddedFor(pool, hasStackMaps, classes);
    forall i | 0 <= i < |v.methods| ensures MethodWriter.NamesOf(pool, added, v.methods[i]) && MethodWriter.MethodFits(d, v.methods[i]) {
      VerifiedMethodFits(d, pool, hasStackMaps, classes, c.methods[i], v.methods[i]);
    }
  }

  /**
   The whole way of a class: loaded from a file, its methods rewritten and given stack maps,
   written, and loaded again.  The result is the verified class without its stack maps, in a
   pool in which every constant has kept its meaning and the classes of the maps resolve.
   */
  lemma VerifiedClassIsRead(d: Derived, wanted: Wanted, pool: seq<Const>, b: seq<Byte>, hasStackMaps: bool, classes: seq<Text>, v: ClassFile)
    requires ParseClass(d, wanted, b).Some? && ResolvedFrom(ParseClass(d, wanted, b).value.0, pool) && ValidPool(pool)
    requires forall i | 0 <= i < |ParseClass(d, wanted, b).value.1.interfaces| :: IsClass(pool, ParseClass(d, wanted, b).value.1.interfaces[i])
    requires ClassVerified(hasStackMaps, ParseClass(d, wanted, b).value.1, v)
    requires ClassesOk(hasStackMaps, classes) && pool != [] && pool[0].Unusable? && |NewPool(pool, hasStackMaps, classes)| <= MOST_CONSTANTS
    ensures var w := NewPool(pool, hasStackMaps, classes);
            && ParseClass(d, wanted, WrittenFile(pool, hasStackMaps, classes, v)) == Some((w, RereadClass(v)))
            && MeaningsKept(pool, w, |classes|) && ClassesResolve(pool, w, classes)
  {
    hide *;
    LoadedFits(d, wanted, pool, AddedFor(pool, hasStackMaps, classes), b);
    VerifiedFits(d, wanted, pool, hasStackMaps, classes, ParseClass(d, wanted, b).value.1, v);
    WrittenFileIsRead(d, wanted, pool, hasStackMaps, classes, v, []);
    assert WrittenFile(pool, hasStackMaps, classes, v) + [] == WrittenFile(pool, hasStackMaps, classes, v);
  }
}
