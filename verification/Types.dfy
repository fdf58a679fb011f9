/**
 The verification types of the preverifier: the values that the packed
 `fullinfo_type` words of check_code.h stand for, and the tree of loaded classes.
 */
module Types {

  datatype Option<+T> = None | Some(value: T) {
    predicate IsFailure() {
      None?
    }

    function PropagateFailure<U>(): Option<U>
      requires None?
    {
      None
    }

    function Extract(): T
      requires Some?
    {
      value
    }
  }

  /** A loaded class with its chain of superclasses; the root is java/lang/Object. */
  datatype Class = JavaLangObject | Subclass(name: string, super: Class)

  /** What a class ID of the verifier's name table denotes. */
  datatype ClassRef = Cls(cls: Class) | Interface(name: string)

  /** Element types of the primitive arrays. */
  datatype Prim = PBoolean | PByte | PShort | PChar | PInt | PFloat | PLong | PDouble

  /**
   One verification type.  `Obj(d, c)` is a d-dimensional array of c (c itself when
   d is 0); `PrimArray(k, p)` is a (k+1)-dimensional array of the primitive p.
   */
  datatype Type =
    | Bogus | Void
    | Integer | Float | Double | Double2 | Long | Long2
    | InitObject
    | NewObject(inumber: nat)
    /** The address a jsr to the subroutine at `entry` leaves. */
    | ReturnAddress(entry: nat)
    | Null
    | Obj(dims: nat, base: ClassRef)
    | PrimArray(more: nat, prim: Prim)

  const OBJECT: Type := Obj(0, Cls(JavaLangObject))

  predicate IsReference(t: Type) {
    t.Null? || t.Obj? || t.PrimArray?
  }

  /** The types a field, an argument or a result can be declared with. */
  predicate IsFieldType(t: Type) {
    t.Integer? || t.Float? || t.Double? || t.Long? || t.Obj? || t.PrimArray?
  }

  /** The primitives of the operand stack. */
  predicate IsPrimitiveItem(t: Type) {
    t.Integer? || t.Float? || t.Double? || t.Long?
  }

  predicate IsWide(t: Type) {
    t.Double? || t.Long?
  }

  function Depth(c: Class): nat {
    match c
    case JavaLangObject => 0
    case Subclass(_, s) => 1 + Depth(s)
  }

  /** `a` is `c` or one of its superclasses. */
  predicate IsSuperclass(a: Class, c: Class) {
    a == c || (c.Subclass? && IsSuperclass(a, c.super))
  }

  /** The deepest class above both `a` and `b`: see CommonSuperclassIsDeepest. */
  function CommonSuperclass(a: Class, b: Class): Class
    decreases Depth(a) + Depth(b)
  {
    if a == b then a
    else if Depth(a) > Depth(b) then CommonSuperclass(a.super, b)
    else if Depth(a) < Depth(b) then CommonSuperclass(a, b.super)
    else if a.Subclass? && b.Subclass? then CommonSuperclass(a.super, b.super)
    else JavaLangObject
  }

  function DecrementIndirection(t: Type): Type
    requires t.Null? || (t.Obj? && t.dims > 0) || t.PrimArray?
  {
    match t
    case Null => Null
    case Obj(d, c) => Obj(d - 1, c)
    case PrimArray(k, p) =>
      if k > 0 then PrimArray(k - 1, p)
      else match p
        case PFloat => Float
        case PLong => Long
        case PDouble => Double
        case _ => Integer
  }

  /** An array of primitives counts as an array of java/lang/Object one dimension down. */
  function Promote(t: Type): Type
    requires t.Obj? || t.PrimArray?
  {
    if t.PrimArray? then Obj(t.more, Cls(JavaLangObject)) else t
  }

  /** The merge of two non-array object types, check_code.c:3651-3778. */
  function MergeBases(value: ClassRef, target: ClassRef, forAssignment: bool): ClassRef {
    if value == target then value
    else if target == Cls(JavaLangObject) then target
    else if value == Cls(JavaLangObject) then
      if forAssignment && target.Interface? then target else value
    else if target.Interface? then
      if forAssignment then target else Cls(JavaLangObject)
    else if value.Interface? then Cls(JavaLangObject)
    else if forAssignment then
      if IsSuperclass(target.cls, value.cls) then target else Cls(JavaLangObject)
    else Cls(CommonSuperclass(value.cls, target.cls))
  }

  /** merge_fullinfo_types. */
  function Merge(value: Type, target: Type, forAssignment: bool): Type {
    if value == target then value
    else if !IsReference(value) || !IsReference(target) then Bogus
    else if value.Null? then target
    else if target.Null? then value
    else if target == OBJECT then target
    else if value == OBJECT && !(target.Obj? && target.dims == 0) then value
    else
      var v, t := Promote(value), Promote(target);
      if v.dims == t.dims then Obj(v.dims, MergeBases(v.base, t.base, forAssignment))
      else Obj(if v.dims < t.dims then v.dims else t.dims, Cls(JavaLangObject))
  }

  function Join(a: Type, b: Type): Type {
    Merge(a, b, false)
  }

  /** isAssignableTo. */
  predicate IsAssignableTo(from: Type, to: Type) {
    Merge(from, to, true) == to
  }

  // ----- the order behind the merge, defined on its own -----

  predicate BaseLeq(a: ClassRef, b: ClassRef) {
    || a == b
    || b == Cls(JavaLangObject)
    || (a.Cls? && b.Cls? && IsSuperclass(b.cls, a.cls))
  }

  /** `a` is at least as precise as `b`. */
  predicate Leq(a: Type, b: Type) {
    || a == b
    || b.Bogus?
    || (a.Null? && IsReference(b))
    || (a.Obj? && b.Obj? && a.dims == b.dims && BaseLeq(a.base, b.base))
    || (a.Obj? && b.Obj? && a.dims > b.dims && b.base == Cls(JavaLangObject))
    || (a.PrimArray? && b.Obj? && a.more >= b.dims && b.base == Cls(JavaLangObject))
  }

  /** The type with every interface read as java/lang/Object. */
  function Erase(t: Type): Type {
    if t.Obj? && t.base.Interface? then Obj(t.dims, Cls(JavaLangObject)) else t
  }

  /** Every value of type `a` is acceptable where `b` is wanted, interfaces being unchecked. */
  predicate Conforms(a: Type, b: Type) {
    Leq(Erase(a), Erase(b))
  }

  /** Number of strict steps a non-null type can still climb. */
  function Height(t: Type): nat {
    match t
    case Bogus => 0
    case Obj(d, Cls(c)) => d + 1 + Depth(c)
    case Obj(d, Interface(_)) => d + 2
    case PrimArray(k, _) => k + 2
    case _ => 1
  }

  /** Words an item takes on the operand stack. */
  function Words(t: Type): nat {
    if IsWide(t) then 2 else 1
  }
}
