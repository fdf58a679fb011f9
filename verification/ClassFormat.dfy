/** The whole class file: fields, class attributes and the file around pool and methods, written and read back. */
module ClassFormat {
  import opened Octets
  import opened Types
  import opened ModifiedUtf8
  import opened ConstantPool
  import opened ClassBytes
  import opened ClassWriter
  import opened MethodFormat

  const MAGIC: nat := 0xcafe_babe

  datatype Field = Field(access: nat, name: Text, descriptor: Text, constant: Option<nat>, deprecated: bool, synthetic: bool)

  /** An entry of InnerClasses; classes are pool indices, or 0. */
  datatype InnerClass = InnerClass(inner: nat, outer: nat, name: Option<Text>, access: nat)

  /** What the class attributes say. */
  datatype Extras = Extras(source: Option<Text>, sourcePath: Option<Text>, timeStamp: Option<(nat, nat)>,
                           deprecated: bool, synthetic: bool, innerClasses: Option<seq<InnerClass>>)

  datatype ClassFile = ClassFile(minor: nat, major: nat, access: nat, name: Text, super: Option<Text>,
                                 interfaces: seq<nat>, fields: seq<Field>, methods: seq<Method>, extras: Extras)

  function ConstantValueName(): Text { [67, 111, 110, 115, 116, 97, 110, 116, 86, 97, 108, 117, 101] }
  function SourceFileName(): Text { [83, 111, 117, 114, 99, 101, 70, 105, 108, 101] }
  function AbsoluteSourcePathName(): Text {
    [65, 98, 115, 111, 108, 117, 116, 101, 83, 111, 117, 114, 99, 101, 80, 97, 116, 104]
  }
  function TimeStampName(): Text { [84, 105, 109, 101, 83, 116, 97, 109, 112] }
  function InnerClassesName(): Text { [73, 110, 110, 101, 114, 67, 108, 97, 115, 115, 101, 115] }

  // ----- attributes -----

  /** One attribute of a field or of the class. */
  datatype Attribute =
    | ConstantValue(index: nat)
    | SourceFile(file: Text)
    | AbsoluteSourcePath(path: Text)
    | TimeStamp(high: nat, low: nat)
    | Deprecated
    | Synthetic
    | InnerClasses(classes: seq<InnerClass>)

  function NameOf(a: Attribute): Text {
    match a
    case ConstantValue(_) => ConstantValueName()
    case SourceFile(_) => SourceFileName()
    case AbsoluteSourcePath(_) => AbsoluteSourcePathName()
    case TimeStamp(_, _) => TimeStampName()
    case Deprecated => DeprecatedName()
    case Synthetic => SyntheticName()
    case InnerClasses(_) => InnerClassesName()
  }

  function NameIndex(index: Indices, name: Option<Text>): nat {
    if name.Some? then index.of(name.value) else 0
  }

  function InnerBytes(index: Indices, c: InnerClass): (b: seq<Byte>)
    ensures |b| == 8
  {
    U2(c.inner) + (U2(c.outer) + (U2(NameIndex(index, c.name)) + U2(c.access)))
  }

  function InnersBytes(index: Indices, cs: seq<InnerClass>): (b: seq<Byte>)
    ensures |b| == 8 * |cs|
  {
    if cs == [] then [] else InnerBytes(index, cs[0]) + InnersBytes(index, cs[1..])
  }

  /** What stands behind the length. */
  function InfoOf(index: Indices, a: Attribute): seq<Byte> {
    match a
    case ConstantValue(n) => U2(n)
    case SourceFile(s) => U2(index.of(s))
    case AbsoluteSourcePath(s) => U2(index.of(s))
    case TimeStamp(h, l) => U4(h) + U4(l)
    case Deprecated => []
    case Synthetic => []
    case InnerClasses(cs) => U2(|cs|) + InnersBytes(index, cs)
  }

  function AttributeBytes(index: Indices, a: Attribute): seq<Byte> {
    U2(index.of(NameOf(a))) + (U4(|InfoOf(index, a)|) + InfoOf(index, a))
  }

  function AttributesBytes(index: Indices, attributes: seq<Attribute>): seq<Byte> {
    if attributes == [] then [] else AttributeBytes(index, attributes[0]) + AttributesBytes(index, attributes[1..])
  }

  /** The attributes of a field, in the order they are written. */
  function FieldAttributes(f: Field): seq<Attribute> {
    (if f.constant.Some? then [ConstantValue(f.constant.value)] else [])
    + (if f.deprecated then [Deprecated] else []) + (if f.synthetic then [Synthetic] else [])
  }

  /** The attributes of the class, in the order they are written. */
  function ClassAttributes(x: Extras): seq<Attribute> {
    (if x.source.Some? then [SourceFile(x.source.value)] else [])
    + (if x.sourcePath.Some? then [AbsoluteSourcePath(x.sourcePath.value)] else [])
    + (if x.timeStamp.Some? then [TimeStamp(x.timeStamp.value.0, x.timeStamp.value.1)] else [])
    + (if x.deprecated then [Deprecated] else []) + (if x.synthetic then [Synthetic] else [])
    + (if x.innerClasses.Some? then [InnerClasses(x.innerClasses.value)] else [])
  }

  function CountedAttributes(index: Indices, attributes: seq<Attribute>): seq<Byte> {
    U2(|attributes|) + AttributesBytes(index, attributes)
  }

  // ----- the file -----

  function FieldBytes(index: Indices, f: Field): seq<Byte> {
    U2(WrittenFlags(f.access)) + (U2(index.of(f.name)) + (U2(index.of(f.descriptor)) + CountedAttributes(index, FieldAttributes(f))))
  }

  function FieldListBytes(index: Indices, fs: seq<Field>): seq<Byte> {
    if fs == [] then [] else FieldBytes(index, fs[0]) + FieldListBytes(index, fs[1..])
  }

  /** write_fields */
  function FieldsBytes(index: Indices, fs: seq<Field>): seq<Byte> {
    U2(|fs|) + FieldListBytes(index, fs)
  }

  /** write_interfaces */
  function InterfacesBytes(interfaces: seq<nat>): seq<Byte> {
    U2(|interfaces|) + RowBytes(interfaces)
  }

  /** lookup_class: the first class entry of that name; the length of the pool if there is none. */
  function FindClass(pool: seq<Const>, name: Text, from: nat): (i: nat)
    requires from <= |pool|
    ensures from <= i <= |pool| && (i < |pool| ==> IsClass(pool, i) && ClassAt(pool, i) == name)
    ensures i == |pool| ==> forall k | from <= k < |pool| && IsClass(pool, k) :: ClassAt(pool, k) != name
    decreases |pool| - from
  {
    if from == |pool| || (IsClass(pool, from) && ClassAt(pool, from) == name) then from else FindClass(pool, name, from + 1)
  }

  function SuperIndex(pool: seq<Const>, super: Option<Text>): nat {
    if super.Some? then FindClass(pool, super.value, 0) else 0
  }

  /** What WriteClass puts behind the pool. */
  function Body(index: Indices, pool: seq<Const>, c: ClassFile): seq<Byte> {
    U2(WrittenFlags(c.access)) + (U2(FindClass(pool, c.name, 0)) + (U2(SuperIndex(pool, c.super)) +
    (InterfacesBytes(c.interfaces) + (FieldsBytes(index, c.fields) + (MethodsBytes(index, c.methods) +
     CountedAttributes(index, ClassAttributes(c.extras)))))))
  }

  /** WriteClass, for a class whose pool becomes `written`. */
  function FileBytes(index: Indices, pool: seq<Const>, written: seq<Const>, c: ClassFile): seq<Byte>
    requires written != []
  {
    U4(MAGIC) + (U2(c.minor) + (U2(c.major) + (PoolBytes(written) + Body(index, pool, c))))
  }

  // ----- reading -----

  /** getAscizFromClass */
  function ClassText(w: seq<Const>, i: nat): Option<Text> {
    if 0 < i < |w| && w[i].ClassIndex? && IsUtf8(w, w[i].name) then Some(w[w[i].name].text) else None
  }

  /** getAsciz, when 0 stands for no string. */
  function GetTextOrNone(w: seq<Const>, b: seq<Byte>, p: nat): Option<Option<Text>> {
    if p + 2 > |b| then None
    else if Get2(b, p) == 0 then Some(None)
    else if GetText(w, b, p).Some? then Some(GetText(w, b, p)) else None
  }

  predicate ZeroOrClass(w: seq<Const>, i: nat) {
    i == 0 || ClassText(w, i).Some?
  }

  function ParseInner(w: seq<Const>, b: seq<Byte>, p: nat): Option<(InnerClass, nat)> {
    if p + 8 > |b| || GetTextOrNone(w, b, p + 4).None? || !ZeroOrClass(w, Get2(b, p)) || !ZeroOrClass(w, Get2(b, p + 2)) then None
    else Some((InnerClass(Get2(b, p), Get2(b, p + 2), GetTextOrNone(w, b, p + 4).value, Get2(b, p + 6)), p + 8))
  }

  function ParseInners(w: seq<Const>, b: seq<Byte>, p: nat, n: nat): Option<(seq<InnerClass>, nat)>
    decreases n
  {
    if n == 0 then Some(([], p))
    else
      var first := ParseInner(w, b, p);
      if first.None? then None
      else
        var rest := ParseInners(w, b, first.value.1, n - 1);
        if rest.None? then None else Some(([first.value.0] + rest.value.0, rest.value.1))
  }

  /** The content of an attribute the reader does not look into: None is an attribute, too. */
  function Skipped(b: seq<Byte>, p: nat): Option<(Option<Attribute>, nat)> {
    var next := Skip(b, p);
    if next.None? then None else Some((None, next.value))
  }

  /** One attribute of a field whose constant value matters or does not; p is at its name. */
  function ParseFieldAttribute(w: seq<Const>, b: seq<Byte>, p: nat, isStatic: bool): Option<(Option<Attribute>, nat)> {
    var name := GetText(w, b, p);
    if name.None? || p + 6 > |b| then None
    else
      var length := Get4(b, p + 2);
      if name.value == ConstantValueName() && isStatic then
        if length != 2 || p + 8 > |b| then None else Some((Some(ConstantValue(Get2(b, p + 6))), p + 8))
      else if name.value == DeprecatedName() then if length > 0 then None else Some((Some(Deprecated), p + 6))
      else if name.value == SyntheticName() then if length > 0 then None else Some((Some(Synthetic), p + 6))
      else Skipped(b, p + 2)
  }

  /** One attribute of the class; p is at its name. */
  function ParseClassAttribute(w: seq<Const>, b: seq<Byte>, p: nat): Option<(Option<Attribute>, nat)> {
    var name := GetText(w, b, p);
    if name.None? || p + 6 > |b| then None
    else
      var length := Get4(b, p + 2);
      if name.value == SourceFileName() then
        var file := GetText(w, b, p + 6);
        if length != 2 || file.None? then None else Some((Some(SourceFile(file.value)), p + 8))
      else if name.value == AbsoluteSourcePathName() && length == 2 then
        var path := GetText(w, b, p + 6);
        if path.None? then None else Some((Some(AbsoluteSourcePath(path.value)), p + 8))
      else if name.value == TimeStampName() && length == 8 then
        if p + 14 > |b| then None else Some((Some(TimeStamp(Get4(b, p + 6), Get4(b, p + 10))), p + 14))
      else if name.value == DeprecatedName() then if length > 0 then None else Some((Some(Deprecated), p + 6))
      else if name.value == SyntheticName() then if length > 0 then None else Some((Some(Synthetic), p + 6))
      else if name.value == InnerClassesName() then
        if p + 8 > |b| || length != 8 * Get2(b, p + 6) + 2 then None
        else
          var classes := ParseInners(w, b, p + 8, Get2(b, p + 6));
          if classes.None? then None else Some((Some(InnerClasses(classes.value.0)), classes.value.1))
      else Skipped(b, p + 2)
  }

  /** A field with one more attribute; a second constant value is an error. */
  function AddToField(f: Field, a: Attribute): Option<Field> {
    match a
    case ConstantValue(n) => if f.constant.Some? then None else Some(f.(constant := Some(n)))
    case Deprecated => Some(f.(deprecated := true))
    case Synthetic => Some(f.(synthetic := true))
    case _ => Some(f)
  }

  /** A class with one more attribute; a second list of inner classes is an error. */
  function AddToClass(x: Extras, a: Attribute): Option<Extras> {
    match a
    case ConstantValue(_) => Some(x)
    case SourceFile(s) => Some(x.(source := Some(s)))
    case AbsoluteSourcePath(s) => Some(x.(sourcePath := Some(s)))
    case TimeStamp(h, l) => Some(x.(timeStamp := Some((h, l))))
    case Deprecated => Some(x.(deprecated := true))
    case Synthetic => Some(x.(synthetic := true))
    case InnerClasses(cs) => if x.innerClasses.Some? then None else Some(x.(innerClasses := Some(cs)))
  }

  predicate IsStatic(access: nat) {
    access / 8 % 2 == 1
  }

  function ParseFieldAttributes(w: seq<Const>, b: seq<Byte>, p: nat, n: nat, f: Field): Option<(Field, nat)>
    decreases n
  {
    if n == 0 then Some((f, p))
    else
      var a := ParseFieldAttribute(w, b, p, IsStatic(f.access));
      if a.None? then None
      else
        var g := if a.value.0.None? then Some(f) else AddToField(f, a.value.0.value);
        if g.None? then None else ParseFieldAttributes(w, b, a.value.1, n - 1, g.value)
  }

  function ParseClassAttributes(w: seq<Const>, b: seq<Byte>, p: nat, n: nat, x: Extras): Option<(Extras, nat)>
    decreases n
  {
    if n == 0 then Some((x, p))
    else
      var a := ParseClassAttribute(w, b, p);
      if a.None? then None
      else
        var y := if a.value.0.None? then Some(x) else AddToClass(x, a.value.0.value);
        if y.None? then None else ParseClassAttributes(w, b, a.value.1, n - 1, y.value)
  }

  function ParseField(w: seq<Const>, b: seq<Byte>, p: nat): Option<(Field, nat)> {
    if p + 8 > |b| || GetText(w, b, p + 2).None? || GetText(w, b, p + 4).None? then None
    else
      var f := Field(WrittenFlags(Get2(b, p)), GetText(w, b, p + 2).value, GetText(w, b, p + 4).value, None, false, false);
      ParseFieldAttributes(w, b, p + 8, Get2(b, p + 6), f)
  }

  function ParseFieldList(w: seq<Const>, b: seq<Byte>, p: nat, n: nat): Option<(seq<Field>, nat)>
    decreases n
  {
    if n == 0 then Some(([], p))
    else
      var first := ParseField(w, b, p);
      if first.None? then None
      else
        var rest := ParseFieldList(w, b, first.value.1, n - 1);
        if rest.None? then None else Some(([first.value.0] + rest.value.0, rest.value.1))
  }

  function ParseFields(w: seq<Const>, b: seq<Byte>, p: nat): Option<(seq<Field>, nat)> {
    if p + 2 > |b| then None else ParseFieldList(w, b, p + 2, Get2(b, p))
  }

  function ParseInterfaces(b: seq<Byte>, p: nat): Option<(seq<nat>, nat)> {
    if p + 2 > |b| then None else ParseRow(b, p + 2, Get2(b, p))
  }

  function ParseExtras(w: seq<Const>, b: seq<Byte>, p: nat): Option<(Extras, nat)> {
    if p + 2 > |b| then None else ParseClassAttributes(w, b, p + 2, Get2(b, p), NoExtras())
  }

  function NoExtras(): Extras {
    Extras(None, None, None, false, false, None)
  }

  /** What the loader knows besides the file: which names are legal, and which one is asked for. */
  datatype Wanted = Wanted(legal: Text -> bool, name: Option<Text>)

  /** The names of the class and of its superclass. */
  function ParseNames(wanted: Wanted, w: seq<Const>, b: seq<Byte>, p: nat): Option<(Text, Option<Text>)> {
    if p + 4 > |b| then None
    else
      var name, i := ClassText(w, Get2(b, p)), Get2(b, p + 2);
      if name.None? || (wanted.name.Some? && wanted.name != name) then None
      else if i == 0 then Some((name.value, None))
      else
        var super := ClassText(w, i);
        if super.None? || !wanted.legal(super.value) then None else Some((name.value, super))
  }

  /** createInternalClass0, from the access flags on; the file must end with the last attribute. */
  function ParseBody(d: Derived, wanted: Wanted, w: seq<Const>, b: seq<Byte>, p: nat, minor: nat, major: nat): Option<ClassFile> {
    if p + 6 > |b| then None
    else
      var names := ParseNames(wanted, w, b, p + 2);
      if names.None? then None
      else
        var interfaces := ParseInterfaces(b, p + 6);
        if interfaces.None? then None
        else
          var fields := ParseFields(w, b, interfaces.value.1);
          if fields.None? then None
          else
            var methods := ParseMethods(d, w, b, fields.value.1);
            if methods.None? then None
            else
              var extras := ParseExtras(w, b, methods.value.1);
              if extras.None? || extras.value.1 != |b| then None
              else Some(ClassFile(minor, major, WrittenFlags(Get2(b, p)), names.value.0, names.value.1,
                                  interfaces.value.0, fields.value.0, methods.value.0, extras.value.0))
  }

  /** createInternalClass0; the pool comes with the class. */
  function ParseClass(d: Derived, wanted: Wanted, b: seq<Byte>): Option<(seq<Const>, ClassFile)> {
    if 8 > |b| || Get4(b, 0) != MAGIC then None
    else
      var pool := ParsePool(b, 8);
      if pool.None? then None
      else
        var c := ParseBody(d, wanted, pool.value.0, b, pool.value.1, Get2(b, 4), Get2(b, 6));
        if c.None? then None else Some((pool.value.0, c.value))
  }
}
