/** What the class loader derives from the flags, name and descriptor of a method. */
module LoaderRules {
  import opened Octets
  import opened Types
  import opened MethodFormat
  import ConstantPool
  import D = Descriptors
  import LoadedClasses

  const STATIC: nat := 0x8
  const NATIVE: nat := 0x100
  const ABSTRACT: nat := 0x400

  /** `<clinit>` */
  function ClassInitializerName(): ConstantPool.Text { [60, 99, 108, 105, 110, 105, 116, 62] }

  predicate HasFlag(access: nat, flag: nat)
    requires flag > 0
  {
    access / flag % 2 == 1
  }

  /** The words of the receiver. */
  function ReceiverWords(access: nat): nat {
    if HasFlag(access, STATIC) then 0 else 1
  }

  /** More than 255 words are an error; so is a descriptor for which no size comes out. */
  function ArgsSizeOf(r: D.Rules, access: nat, descriptor: ConstantPool.Text): nat {
    match D.ArgsFrom(r, descriptor, 0, 0)
    case Size(n) => n + ReceiverWords(access)
    case _ => 256
  }

  function Loader(r: D.Rules): Derived {
    Derived((access: nat, descriptor: ConstantPool.Text) => ArgsSizeOf(r, access, descriptor),
                         (access: nat, name: ConstantPool.Text) => (!HasFlag(access, NATIVE) && !HasFlag(access, ABSTRACT)) || name == ClassInitializerName())
  }

  method ArgsSize(r: D.Rules, access: nat, descriptor: ConstantPool.Text) returns (size: nat)
    ensures size == Loader(r).argsSize(access, descriptor)
  {
    var args := D.Signature2ArgsSize(r, descriptor);
    size := if args.Size? then args.n + ReceiverWords(access) else 256;
  }

  /**
   Whatever method is loaded, its arguments and its receiver take at most 255 words, and its
   code has a register for each of them.
   */
  lemma ArgumentsFit(r: D.Rules, params: seq<D.FieldType>, ret: D.Return, w: seq<ConstantPool.Const>, b: seq<Byte>, p: nat)
    requires r.Valid() && D.AllLegal(r, params) && ParseMethod(Loader(r), w, b, p).Some?
    requires ParseMethod(Loader(r), w, b, p).value.0.descriptor == D.Descriptor(params, ret)
    ensures var m := ParseMethod(Loader(r), w, b, p).value.0;
            var words := D.Words(params) + ReceiverWords(m.access);
            words <= 255 && (m.code.Some? ==> words <= m.code.value.nlocals)
  {
    D.LegalArgsSize(r, params, ret);
    LoadedClasses.MethodParsedGood(Loader(r), w, w, [], b, p);
    hide D.ArgsFrom, D.Descriptor, D.Words, D.AllLegal, ParseMethod, ReceiverWords;
  }
}
