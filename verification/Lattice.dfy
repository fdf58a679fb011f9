/**
 The merge of verification types is a least upper bound, and assignability agrees
 with the order behind it except where interfaces are left to the run time.
 */
module Lattice {
  import opened Types

  // ----- the class tree -----

  lemma {:induction false} SuperclassTransitive(a: Class, b: Class, c: Class)
    requires IsSuperclass(a, b) && IsSuperclass(b, c)
    ensures IsSuperclass(a, c)
  {
    if b != c {
      SuperclassTransitive(a, b, c.super);
    }
  }

  lemma {:induction false} SuperclassDepth(a: Class, c: Class)
    requires IsSuperclass(a, c)
    ensures Depth(a) <= Depth(c)
    ensures Depth(a) == Depth(c) ==> a == c
  {
    if a != c {
      SuperclassDepth(a, c.super);
    }
  }

  lemma {:induction false} RootIsSuperclass(c: Class)
    ensures IsSuperclass(JavaLangObject, c)
  {
    if c.Subclass? {
      RootIsSuperclass(c.super);
    }
  }

  /** The common superclass is above both classes and below everything else above both. */
  lemma {:induction false} CommonSuperclassIsDeepest(a: Class, b: Class, c: Class)
    ensures IsSuperclass(CommonSuperclass(a, b), a) && IsSuperclass(CommonSuperclass(a, b), b)
    ensures IsSuperclass(c, a) && IsSuperclass(c, b) <==> IsSuperclass(c, CommonSuperclass(a, b))
    decreases Depth(a) + Depth(b)
  {
    var r := CommonSuperclass(a, b);
    if a == b {
    } else if Depth(a) > Depth(b) {
      CommonSuperclassIsDeepest(a.super, b, c);
      if IsSuperclass(a, b) { SuperclassDepth(a, b); }
    } else if Depth(a) < Depth(b) {
      CommonSuperclassIsDeepest(a, b.super, c);
      if IsSuperclass(b, a) { SuperclassDepth(b, a); }
    } else if a.Subclass? && b.Subclass? {
      CommonSuperclassIsDeepest(a.super, b.super, c);
      if IsSuperclass(a, b) { SuperclassDepth(a, b); }
      if IsSuperclass(b, a) { SuperclassDepth(b, a); }
    }
    if IsSuperclass(c, r) {
      SuperclassTransitive(c, r, a);
      SuperclassTransitive(c, r, b);
    }
  }

  /**
   The cursor walk of merge_fullinfo_types: two cursors race to the root, the deeper
   class is brought level, and then both climb until they meet.
   */
  method FindCommonSuperclass(value: Class, target: Class) returns (r: Class)
    ensures r == CommonSuperclass(value, target)
  {
    var cbValue, cbTarget := value, target;
    var superValue, superTarget := value, target;
    while superValue.Subclass? && superTarget.Subclass?
      invariant IsSuperclass(superValue, value) && IsSuperclass(superTarget, target)
      invariant Depth(value) - Depth(superValue) == Depth(target) - Depth(superTarget)
      decreases superValue
    {
      if superValue == target {
        CommonSuperclassIsDeepest(value, target, target);
        SuperclassAntisymmetric(CommonSuperclass(value, target), target);
        return target;
      }
      if superTarget == value {
        CommonSuperclassIsDeepest(value, target, value);
        SuperclassAntisymmetric(CommonSuperclass(value, target), value);
        return value;
      }
      StepUp(superValue, value);
      StepUp(superTarget, target);
      superValue, superTarget := superValue.super, superTarget.super;
    }
    while superValue.Subclass?
      invariant superValue.Subclass? ==> superTarget.JavaLangObject?
      invariant superTarget.JavaLangObject? ==>
          Depth(cbValue) - Depth(superValue) == Depth(target)
      invariant superTarget.Subclass? ==>
          superValue.JavaLangObject? && Depth(target) - Depth(superTarget) == Depth(cbValue)
      invariant CommonSuperclass(cbValue, target) == CommonSuperclass(value, target)
      decreases superValue
    {
      superValue, cbValue := superValue.super, cbValue.super;
    }
    while superTarget.Subclass?
      invariant Depth(cbTarget) - Depth(superTarget) == Depth(cbValue)
      invariant CommonSuperclass(cbValue, cbTarget) == CommonSuperclass(value, target)
      decreases superTarget
    {
      superTarget, cbTarget := superTarget.super, cbTarget.super;
    }
    while cbValue != cbTarget
      invariant Depth(cbValue) == Depth(cbTarget)
      invariant CommonSuperclass(cbValue, cbTarget) == CommonSuperclass(value, target)
      decreases Depth(cbValue)
    {
      cbValue, cbTarget := cbValue.super, cbTarget.super;
    }
    r := cbValue;
  }

  lemma SuperclassAntisymmetric(a: Class, b: Class)
    requires IsSuperclass(a, b) && IsSuperclass(b, a)
    ensures a == b
  {
    SuperclassDepth(a, b);
    SuperclassDepth(b, a);
  }

  lemma StepUp(s: Class, c: Class)
    requires s.Subclass? && IsSuperclass(s, c)
    ensures IsSuperclass(s.super, c)
  {
    SuperclassTransitive(s.super, s, c);
  }

  // ----- the order -----

  lemma BaseTransitive(a: ClassRef, b: ClassRef, c: ClassRef)
    requires BaseLeq(a, b) && BaseLeq(b, c)
    ensures BaseLeq(a, c)
  {
    if a.Cls? && b.Cls? && c.Cls? && IsSuperclass(b.cls, a.cls) && IsSuperclass(c.cls, b.cls) {
      SuperclassTransitive(c.cls, b.cls, a.cls);
    }
  }

  lemma BaseAntisymmetric(a: ClassRef, b: ClassRef)
    requires BaseLeq(a, b) && BaseLeq(b, a)
    ensures a == b
  {
    if a.Cls? && b.Cls? {
      RootIsSuperclass(a.cls);
      RootIsSuperclass(b.cls);
      SuperclassAntisymmetric(a.cls, b.cls);
    }
  }

  lemma LeqTransitive(a: Type, b: Type, c: Type)
    requires Leq(a, b) && Leq(b, c)
    ensures Leq(a, c)
  {
    if a.Obj? && b.Obj? && c.Obj? && a.dims == b.dims == c.dims {
      BaseTransitive(a.base, b.base, c.base);
    }
  }

  /** The types form a partial order. */
  lemma LeqPartialOrder(a: Type, b: Type, c: Type)
    ensures Leq(a, a)
    ensures Leq(a, b) && Leq(b, a) ==> a == b
    ensures Leq(a, b) && Leq(b, c) ==> Leq(a, c)
  {
    if Leq(a, b) && Leq(b, a) && a.Obj? && b.Obj? {
      BaseAntisymmetric(a.base, b.base);
    }
    if Leq(a, b) && Leq(b, c) {
      LeqTransitive(a, b, c);
    }
  }

  lemma BaseJoin(a: ClassRef, b: ClassRef, c: ClassRef)
    ensures BaseLeq(a, MergeBases(a, b, false)) && BaseLeq(b, MergeBases(a, b, false))
    ensures BaseLeq(a, c) && BaseLeq(b, c) ==> BaseLeq(MergeBases(a, b, false), c)
  {
    if a.Cls? && b.Cls? {
      RootIsSuperclass(a.cls);
      RootIsSuperclass(b.cls);
      CommonSuperclassIsDeepest(a.cls, b.cls, if c.Cls? then c.cls else JavaLangObject);
    }
  }

  /** merge_fullinfo_types, asked for a merge, returns the least upper bound. */
  lemma JoinIsLeastUpperBound(a: Type, b: Type, c: Type)
    ensures Leq(a, Join(a, b)) && Leq(b, Join(a, b))
    ensures Leq(a, c) && Leq(b, c) ==> Leq(Join(a, b), c)
  {
    if (a.Obj? || a.PrimArray?) && (b.Obj? || b.PrimArray?) {
      var v, t := Promote(a), Promote(b);
      BaseJoin(v.base, t.base, if c.Obj? then c.base else Cls(JavaLangObject));
      if c.Obj? && c.base.Cls? {
        RootIsSuperclass(c.base.cls);
      }
      PromoteIsAbove(a, c);
      PromoteIsAbove(b, c);
    }
  }

  lemma PromoteIsAbove(a: Type, c: Type)
    requires a.Obj? || a.PrimArray?
    ensures Leq(a, Promote(a))
    ensures Leq(a, c) && a != c ==> Leq(Promote(a), c)
  {
  }

  /** The algebra of the merge follows from its being a least upper bound. */
  lemma JoinLaws(a: Type, b: Type, c: Type)
    ensures Join(a, a) == a
    ensures Join(a, b) == Join(b, a)
    ensures Join(Join(a, b), c) == Join(a, Join(b, c))
    ensures Leq(a, b) <==> Join(a, b) == b
  {
    var ab, ba, bc := Join(a, b), Join(b, a), Join(b, c);
    JoinIsLeastUpperBound(a, b, ba);
    JoinIsLeastUpperBound(b, a, ab);
    LeqPartialOrder(ab, ba, ab);
    JoinIsLeastUpperBound(a, b, b);
    LeqPartialOrder(b, ab, b);
    var l, r := Join(ab, c), Join(a, bc);
    JoinIsLeastUpperBound(ab, c, r);
    JoinIsLeastUpperBound(a, bc, l);
    JoinIsLeastUpperBound(b, c, l);
    JoinIsLeastUpperBound(a, b, r);
    LeqPartialOrder(a, ab, l);
    LeqPartialOrder(b, ab, l);
    LeqPartialOrder(b, bc, r);
    LeqPartialOrder(c, bc, r);
    LeqPartialOrder(l, r, l);
  }

  // ----- assignability -----

  /** The array dimensions left after promotion. */
  function Rank(t: Type): nat {
    if t.Obj? || t.PrimArray? then Promote(t).dims else 0
  }

  /**
   Exactly when isAssignableTo answers TRUE: the source must conform to the target
   with interfaces read as java/lang/Object, and an interface (or array of an
   interface) does not take a source that still has more array dimensions.
   */
  lemma AssignableExactly(a: Type, b: Type)
    ensures IsAssignableTo(a, b) <==>
            Conforms(a, b)
            && (a == b || a.Null? || !(b.Obj? && b.base.Interface? && Rank(a) > b.dims))
  {
    if (a.Obj? || a.PrimArray?) && (b.Obj? || b.PrimArray?) && a != b {
      var v, t := Promote(a), Promote(b);
      if v.base.Cls? && t.base.Cls? {
        RootIsSuperclass(v.base.cls);
        RootIsSuperclass(t.base.cls);
      }
    }
  }

  /** Assignability is not transitive: an array of objects, Object, an interface. */
  lemma AssignableNotTransitive(name: string)
    ensures var objects := Obj(1, Cls(JavaLangObject));
            IsAssignableTo(objects, OBJECT)
            && IsAssignableTo(OBJECT, Obj(0, Interface(name)))
            && !IsAssignableTo(objects, Obj(0, Interface(name)))
  {
    var objects := Obj(1, Cls(JavaLangObject));
    assert Merge(objects, Obj(0, Interface(name)), true) == OBJECT;
  }

  /** Exactly when it is transitive after all: unless an array goes to an interface, or an array of one, of fewer dimensions. */
  lemma AssignableTransitiveExactly(a: Type, b: Type, c: Type)
    requires IsAssignableTo(a, b) && IsAssignableTo(b, c)
    ensures IsAssignableTo(a, c) <==> a == c || a.Null? || !(c.Obj? && c.base.Interface? && Rank(a) > c.dims)
  {
    AssignableExactly(a, b);
    AssignableExactly(b, c);
    AssignableExactly(a, c);
    ConformsTransitive(a, b, c);
  }

  lemma ConformsTransitive(a: Type, b: Type, c: Type)
    requires Conforms(a, b) && Conforms(b, c)
    ensures Conforms(a, c)
  {
    LeqTransitive(Erase(a), Erase(b), Erase(c));
  }

  lemma LeqConforms(a: Type, b: Type)
    requires Leq(a, b)
    ensures Conforms(a, b)
  {
    if a.Obj? && b.Obj? && a.base.Interface? && b.base.Cls? && a.dims == b.dims {
      assert b.base == Cls(JavaLangObject);
    }
  }

  lemma LeqAssignable(a: Type, b: Type)
    requires Leq(a, b)
    ensures IsAssignableTo(a, b)
  {
    LeqConforms(a, b);
    AssignableExactly(a, b);
  }

  /** What keeps a settled instruction settled when a successor's record weakens. */
  lemma AssignableThenLeq(a: Type, b: Type, c: Type)
    requires IsAssignableTo(a, b) && Leq(b, c)
    ensures IsAssignableTo(a, c)
  {
    LeqConforms(b, c);
    AssignableExactly(a, b);
    AssignableExactly(a, c);
    ConformsTransitive(a, b, c);
  }

  /** A merge that was needed climbs strictly, so merging cannot go on for ever. */
  lemma JoinClimbs(before: Type, incoming: Type)
    ensures Leq(before, Join(before, incoming)) && Leq(incoming, Join(before, incoming))
    ensures !IsAssignableTo(incoming, before) ==> Join(before, incoming) != before
    ensures Join(before, incoming) != before && !before.Null? ==>
              !Join(before, incoming).Null? && Height(Join(before, incoming)) < Height(before)
  {
    var j := Join(before, incoming);
    JoinIsLeastUpperBound(before, incoming, j);
    if j == before {
      LeqAssignable(incoming, before);
    } else if !before.Null? {
      LeqHeight(before, j);
    }
  }

  lemma LeqHeight(a: Type, b: Type)
    requires Leq(a, b) && a != b && !a.Null?
    ensures Height(b) < Height(a)
  {
    if a.Obj? && b.Obj? && a.base.Cls? && b.base.Cls? && a.dims == b.dims {
      RootIsSuperclass(a.base.cls);
      SuperclassDepth(b.base.cls, a.base.cls);
    }
  }

  /** Taking an element of an array respects conformance. */
  lemma DecrementConforms(a: Type, b: Type)
    requires Conforms(a, b)
    requires (b.Obj? && b.dims > 0) || b.PrimArray?
    requires a.Obj? || a.PrimArray?
    ensures (a.Obj? && a.dims > 0) || a.PrimArray?
    ensures b.Obj? || b.more > 0 ==> a.Obj? || a.more > 0
    ensures Conforms(DecrementIndirection(a), DecrementIndirection(b))
  {
  }
}
