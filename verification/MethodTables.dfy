/** Virtual method tables (ResolveMethods) and the check on final methods (VerifyClass). */
module MethodTables {
  import opened Types

  const MOST_SLOTS: nat := 65535

  /** A method block; `id` stands for name and descriptor. */
  datatype Method = Method(id: nat, isStatic: bool, isPrivate: bool, isProtected: bool, isPublic: bool, isFinal: bool, isInit: bool, package: nat)

  datatype ClassDecl = ClassDecl(methods: seq<Method>, package: nat)

  /** An entry of a method table: the method and its offset. */
  datatype Entry = Entry(m: Method, offset: nat)

  type Table = seq<Option<Entry>>

  predicate IsVirtual(m: Method) {
    !m.isStatic && !m.isPrivate && !m.isInit
  }

  /** A method of a superclass that a method of the given package may override. */
  predicate Overridable(m: Method, package: nat) {
    !m.isPrivate && (m.isProtected || m.isPublic || m.package == package)
  }

  predicate Takes(e: Option<Entry>, id: nat, package: nat) {
    e.Some? && e.value.m.id == id && Overridable(e.value.m, package)
  }

  /** The first slot from k on whose method is overridden, or the table's length. */
  function Overridden(table: Table, id: nat, package: nat, k: nat): (s: nat)
    requires k <= |table|
    ensures k <= s <= |table|
    ensures s < |table| ==> Takes(table[s], id, package)
    ensures forall i | k <= i < s :: !Takes(table[i], id, package)
    decreases |table| - k
  {
    if k == |table| || Takes(table[k], id, package) then k else Overridden(table, id, package, k + 1)
  }

  /** The slots handed out by the first n methods, and the next free one. */
  function FreeSlot(table: Table, c: ClassDecl, n: nat): (s: nat)
    requires n <= |c.methods|
    ensures s >= |table|
  {
    if n == 0 then |table|
    else FreeSlot(table, c, n - 1) + if NeedsSlot(table, c, n - 1) then 1 else 0
  }

  predicate NeedsSlot(table: Table, c: ClassDecl, i: nat)
    requires i < |c.methods|
  {
    IsVirtual(c.methods[i]) && Overridden(table, c.methods[i].id, c.package, 0) == |table|
  }

  /** The offset of method i: 0, that of the method it overrides, or a new slot. */
  function OffsetOf(table: Table, c: ClassDecl, i: nat): nat
    requires i < |c.methods|
  {
    if !IsVirtual(c.methods[i]) then 0
    else
      var s := Overridden(table, c.methods[i].id, c.package, 0);
      if s < |table| then table[s].value.offset else FreeSlot(table, c, i)
  }

  /** The table with the first n methods of the class at their offsets. */
  function Placed(table: Table, c: ClassDecl, n: nat): (r: Table)
    requires n <= |c.methods| && TableOk(table)
    ensures |r| == FreeSlot(table, c, |c.methods|)
    decreases n
  {
    if n == 0 then table + seq(FreeSlot(table, c, |c.methods|) - |table|, _ => None)
    else
      var before, o := Placed(table, c, n - 1), OffsetOf(table, c, n - 1);
      if o > 0 then
        OffsetInRange(table, c, n - 1);
        before[o := Some(Entry(c.methods[n - 1], o))]
      else before
  }

  /** Every entry is a virtual method at its own offset; slot 0 stays empty. */
  predicate TableOk(table: Table) {
    && |table| > 0 && table[0].None?
    && forall k | 0 <= k < |table| && table[k].Some? :: table[k].value.offset == k && IsVirtual(table[k].value.m)
  }

  lemma {:induction false} FreeSlotGrows(table: Table, c: ClassDecl, i: nat, n: nat)
    requires i <= n <= |c.methods|
    ensures FreeSlot(table, c, i) <= FreeSlot(table, c, n)
    ensures i < n && NeedsSlot(table, c, i) ==> FreeSlot(table, c, i) < FreeSlot(table, c, n)
    decreases n
  {
    if i < n - 1 {
      FreeSlotGrows(table, c, i, n - 1);
    }
  }

  lemma OffsetInRange(table: Table, c: ClassDecl, i: nat)
    requires TableOk(table) && i < |c.methods|
    ensures OffsetOf(table, c, i) < FreeSlot(table, c, |c.methods|)
    ensures OffsetOf(table, c, i) == 0 <==> !IsVirtual(c.methods[i])
  {
    FreeSlotGrows(table, c, i, |c.methods|);
  }

  /** The method table of the last class of a chain from the root down. */
  function TableOf(chain: seq<ClassDecl>): (t: Table)
    ensures TableOk(t)
  {
    if chain == [] then [None]
    else
      var last := chain[|chain| - 1];
      var super := TableOf(chain[..|chain| - 1]);
      PlacedOk(super, last, |last.methods|);
      Placed(super, last, |last.methods|)
  }

  lemma {:induction false} PlacedOk(table: Table, c: ClassDecl, n: nat)
    requires TableOk(table) && n <= |c.methods|
    ensures TableOk(Placed(table, c, n))
  {
    if n > 0 {
      PlacedOk(table, c, n - 1);
      OffsetInRange(table, c, n - 1);
    }
  }

  // ----- ResolveMethods -----

  /** ResolveMethods for a class; it fails when the slots do not fit 16 bits. */
  method ResolveMethods(super: Table, c: ClassDecl) returns (ok: bool, offsets: seq<nat>, table: Table)
    requires TableOk(super)
    ensures ok <==> FreeSlot(super, c, |c.methods|) <= MOST_SLOTS
    ensures ok ==> |offsets| == |c.methods| && forall i | 0 <= i < |offsets| :: offsets[i] == OffsetOf(super, c, i)
    ensures ok ==> table == Placed(super, c, |c.methods|)
  {
    offsets, table := [], [];
    var mslot := |super|;
    while |offsets| < |c.methods|
      invariant |offsets| <= |c.methods| && mslot == FreeSlot(super, c, |offsets|)
      invariant forall i | 0 <= i < |offsets| :: offsets[i] == OffsetOf(super, c, i)
    {
      var m := c.methods[|offsets|];
      var offset := 0;
      if IsVirtual(m) {
        var k := 0;
        while k < |super| && !Takes(super[k], m.id, c.package)
          invariant 0 <= k <= |super| && Overridden(super, m.id, c.package, 0) == Overridden(super, m.id, c.package, k)
        {
          k := k + 1;
        }
        if k < |super| {
          offset := super[k].value.offset;
        }
        if offset == 0 {
          offset := mslot;
          mslot := mslot + 1;
        }
      }
      offsets := offsets + [offset];
    }
    if mslot > MOST_SLOTS {
      return false, offsets, table;
    }
    table := FillTable(super, c, offsets);
    ok := true;
  }

  /** The second loop: every method with an offset is entered there. */
  method FillTable(super: Table, c: ClassDecl, offsets: seq<nat>) returns (table: Table)
    requires TableOk(super) && |offsets| == |c.methods| && forall i | 0 <= i < |offsets| :: offsets[i] == OffsetOf(super, c, i)
    ensures table == Placed(super, c, |c.methods|)
  {
    hide OffsetOf, FreeSlot, TableOk;
    table := super + seq(FreeSlot(super, c, |c.methods|) - |super|, _ => None);
    var n := 0;
    while n < |c.methods|
      invariant 0 <= n <= |c.methods| && table == Placed(super, c, n)
    {
      if offsets[n] > 0 {
        OffsetInRange(super, c, n);
        table := table[offsets[n] := Some(Entry(c.methods[n], offsets[n]))];
      }
      n := n + 1;
    }
  }

  // ----- one class -----

  /** Name and descriptor of the methods that get a slot are different. */
  predicate DistinctIds(c: ClassDecl) {
    forall i, j | 0 <= i < j < |c.methods| && IsVirtual(c.methods[i]) && IsVirtual(c.methods[j]) :: c.methods[i].id != c.methods[j].id
  }

  lemma OffsetsDiffer(table: Table, c: ClassDecl, i: nat, j: nat)
    requires TableOk(table) && DistinctIds(c) && i < j < |c.methods| && IsVirtual(c.methods[i]) && IsVirtual(c.methods[j])
    ensures OffsetOf(table, c, i) != OffsetOf(table, c, j)
  {
    FreeSlotGrows(table, c, i, j);
  }

  /** What a slot holds: the method of the class that has this offset, or what the superclass has there. */
  lemma {:induction false} PlacedAt(table: Table, c: ClassDecl, n: nat, k: nat)
    requires TableOk(table) && n <= |c.methods| && k < FreeSlot(table, c, |c.methods|)
    ensures (forall i | 0 <= i < n :: OffsetOf(table, c, i) != k || k == 0) ==>
              Placed(table, c, n)[k] == if k < |table| then table[k] else None
    ensures DistinctIds(c) ==> forall i | 0 <= i < n && OffsetOf(table, c, i) == k && k > 0 :: Placed(table, c, n)[k] == Some(Entry(c.methods[i], k))
    ensures Placed(table, c, n)[k] == (if k < |table| then table[k] else None) ||
            exists i :: 0 <= i < n && OffsetOf(table, c, i) == k > 0 && Placed(table, c, n)[k] == Some(Entry(c.methods[i], k))
  {
    if n > 0 {
      PlacedAt(table, c, n - 1, k);
      OffsetInRange(table, c, n - 1);
      if DistinctIds(c) {
        forall i | 0 <= i < n && OffsetOf(table, c, i) == k && k > 0 ensures Placed(table, c, n)[k] == Some(Entry(c.methods[i], k)) {
          OffsetInRange(table, c, i);
          if i < n - 1 && IsVirtual(c.methods[n - 1]) {
            OffsetsDiffer(table, c, i, n - 1);
          }
        }
      }
    }
  }

  /** Every virtual method sits at its own offset. */
  lemma OwnOffset(table: Table, c: ClassDecl, i: nat)
    requires TableOk(table) && DistinctIds(c) && i < |c.methods| && IsVirtual(c.methods[i])
    ensures var o, t := OffsetOf(table, c, i), Placed(table, c, |c.methods|);
            0 < o < |t| && t[o] == Some(Entry(c.methods[i], o))
  {
    OffsetInRange(table, c, i);
    PlacedAt(table, c, |c.methods|, OffsetOf(table, c, i));
  }

  /** A method takes an inherited slot exactly when it may override what is there; else its slot is new. */
  lemma InheritsSlotExactly(table: Table, c: ClassDecl, i: nat)
    requires TableOk(table) && i < |c.methods| && IsVirtual(c.methods[i])
    ensures OffsetOf(table, c, i) < |table| <==> exists k :: 0 <= k < |table| && Takes(table[k], c.methods[i].id, c.package)
    ensures OffsetOf(table, c, i) < |table| ==>
              Takes(table[OffsetOf(table, c, i)], c.methods[i].id, c.package) &&
              forall k | 0 <= k < OffsetOf(table, c, i) :: !Takes(table[k], c.methods[i].id, c.package)
  {
  }

  lemma InheritedSlot(table: Table, c: ClassDecl, k: nat)
    requires TableOk(table) && k < |table| && table[k].Some?
    ensures |Placed(table, c, |c.methods|)| >= |table|
    ensures Placed(table, c, |c.methods|)[k].Some? && Placed(table, c, |c.methods|)[k].value.m.id == table[k].value.m.id
  {
    PlacedAt(table, c, |c.methods|, k);
    var t := Placed(table, c, |c.methods|);
    if t[k] != table[k] {
      var i :| 0 <= i < |c.methods| && OffsetOf(table, c, i) == k > 0 && t[k] == Some(Entry(c.methods[i], k));
      InheritsSlotExactly(table, c, i);
    }
  }

  // ----- inheritance chains -----

  /** A slot keeps its name and descriptor in all subclasses, however many. */
  lemma {:induction false} SlotsAreStable(chain: seq<ClassDecl>, n: nat, k: nat)
    requires n <= |chain| && k < |TableOf(chain[..n])|
    ensures |TableOf(chain[..n])| <= |TableOf(chain)|
    ensures TableOf(chain[..n])[k].Some? ==>
              TableOf(chain)[k].Some? && TableOf(chain)[k].value.m.id == TableOf(chain[..n])[k].value.m.id
    decreases |chain|
  {
    if n == |chain| {
      assert chain[..n] == chain;
    } else {
      var outer, last := chain[..|chain| - 1], chain[|chain| - 1];
      assert outer[..n] == chain[..n];
      SlotsAreStable(outer, n, k);
      if TableOf(chain[..n])[k].Some? {
        InheritedSlot(TableOf(outer), last, k);
      }
    }
  }

  // ----- final methods -----

  /** Method i of the class at position n of the chain is at offset k. */
  predicate Declares(chain: seq<ClassDecl>, n: nat, i: nat, k: nat) {
    n < |chain| && i < |chain[n].methods| && OffsetOf(TableOf(chain[..n]), chain[n], i) == k
  }

  predicate DeclaresFinal(chain: seq<ClassDecl>, n: nat, i: nat, k: nat) {
    Declares(chain, n, i, k) && chain[n].methods[i].isFinal
  }

  /** The class at position n takes a slot that a final method of a superclass has. */
  ghost predicate OverridesFinal(chain: seq<ClassDecl>, n: nat) {
    exists i: nat, k: nat, m: nat, j: nat :: k > 0 && Declares(chain, n, i, k) && m < n && DeclaresFinal(chain, m, j, k)
  }

  ghost predicate ChecksPassed(chain: seq<ClassDecl>, n: nat) {
    && (forall m: nat | m < n :: !OverridesFinal(chain, m))
    && forall m: nat | m < n && m < |chain| :: DistinctIds(chain[m])
  }

  /** Where no class overrides a final method, such a method stays in its slot. */
  lemma {:induction false} FinalStays(chain: seq<ClassDecl>, n: nat, m: nat, j: nat, k: nat)
    requires m < n <= |chain| && ChecksPassed(chain, n) && DeclaresFinal(chain, m, j, k) && k > 0
    ensures k < |TableOf(chain[..n])| && TableOf(chain[..n])[k] == Some(Entry(chain[m].methods[j], k))
    decreases n
  {
    var super, c := TableOf(chain[..n - 1]), chain[n - 1];
    assert chain[..n][..n - 1] == chain[..n - 1];
    assert TableOf(chain[..n]) == Placed(super, c, |c.methods|);
    hide TableOf, Placed, OffsetOf, OverridesFinal;
    if m == n - 1 {
      OffsetInRange(super, c, j);
      OwnOffset(super, c, j);
    } else {
      FinalStays(chain, n - 1, m, j, k);
      forall i | 0 <= i < |c.methods| ensures OffsetOf(super, c, i) != k {
        TakenFinal(chain, n - 1, i, m, j, k);
      }
      PlacedAt(super, c, |c.methods|, k);
    }
  }

  lemma TakenFinal(chain: seq<ClassDecl>, n: nat, i: nat, m: nat, j: nat, k: nat)
    requires m < n < |chain| && i < |chain[n].methods| && DeclaresFinal(chain, m, j, k) && k > 0 && !OverridesFinal(chain, n)
    ensures OffsetOf(TableOf(chain[..n]), chain[n], i) != k
  {
    hide OffsetOf, TableOf;
    assert Declares(chain, n, i, k) <==> OffsetOf(TableOf(chain[..n]), chain[n], i) == k;
  }

  /** A method in a table was declared at this offset by some class of the chain. */
  lemma {:induction false} WasDeclared(chain: seq<ClassDecl>, n: nat, k: nat) returns (m: nat, j: nat)
    requires n <= |chain| && k < |TableOf(chain[..n])| && TableOf(chain[..n])[k].Some?
    ensures m < n && Declares(chain, m, j, k) && TableOf(chain[..n])[k] == Some(Entry(chain[m].methods[j], k))
    decreases n
  {
    assert n > 0 ==> chain[..n][..n - 1] == chain[..n - 1];
    var super, c := TableOf(chain[..n - 1]), chain[n - 1];
    PlacedAt(super, c, |c.methods|, k);
    if k < |super| && TableOf(chain[..n])[k] == super[k] {
      m, j := WasDeclared(chain, n - 1, k);
    } else {
      var i :| 0 <= i < |c.methods| && OffsetOf(super, c, i) == k > 0 && TableOf(chain[..n])[k] == Some(Entry(c.methods[i], k));
      m, j := n - 1, i;
    }
  }

  /**
   The check on a class below checked superclasses fires exactly when one of its methods
   takes a slot where the superclass has a final method.
   */
  lemma FinalCheckIsExact(chain: seq<ClassDecl>, n: nat)
    requires n < |chain| && ChecksPassed(chain, n)
    ensures OverridesFinal(chain, n) <==>
            exists i: nat, k: nat :: Declares(chain, n, i, k) && 0 < k < |TableOf(chain[..n])|
                                     && TableOf(chain[..n])[k].Some? && TableOf(chain[..n])[k].value.m.isFinal
  {
    if OverridesFinal(chain, n) {
      var i: nat, k: nat, m: nat, j: nat :| k > 0 && Declares(chain, n, i, k) && m < n && DeclaresFinal(chain, m, j, k);
      FinalStays(chain, n, m, j, k);
    }
    if i: nat, k: nat :| Declares(chain, n, i, k) && 0 < k < |TableOf(chain[..n])|
                         && TableOf(chain[..n])[k].Some? && TableOf(chain[..n])[k].value.m.isFinal {
      var m, j := WasDeclared(chain, n, k);
      assert DeclaresFinal(chain, m, j, k);
    }
  }

  /** The offsets that resolving the first classes of a chain has set. */
  predicate Resolved(chain: seq<ClassDecl>, offsets: seq<seq<nat>>, n: nat) {
    && n <= |chain| == |offsets|
    && forall m | 0 <= m < n ::
         |offsets[m]| == |chain[m].methods| && forall i | 0 <= i < |offsets[m]| :: offsets[m][i] == OffsetOf(TableOf(chain[..m]), chain[m], i)
  }

  lemma {:induction false} TablesGrow(chain: seq<ClassDecl>, m: nat, n: nat)
    requires m <= n <= |chain|
    ensures |TableOf(chain[..m])| <= |TableOf(chain[..n])|
    decreases n
  {
    if m < n {
      assert chain[..n][..n - 1] == chain[..n - 1];
      TablesGrow(chain, m, n - 1);
    }
  }

  /** An offset set by the class at position m is a slot of every table further down. */
  lemma OffsetFits(chain: seq<ClassDecl>, m: nat, n: nat, i: nat)
    requires m < n <= |chain| && i < |chain[m].methods|
    ensures OffsetOf(TableOf(chain[..m]), chain[m], i) < |TableOf(chain[..n])|
  {
    OffsetInRange(TableOf(chain[..m]), chain[m], i);
    assert chain[..m + 1][..m] == chain[..m];
    TablesGrow(chain, m + 1, n);
  }

  /** Bit k is set when one of the classes from position m to n declares a final method at k. */
  ghost predicate BitsFrom(chain: seq<ClassDecl>, bits: array<bool>, m: int, n: nat)
    reads bits
  {
    forall k: nat | k < bits.Length :: bits[k] <==> exists a: nat, j: nat :: m <= a < n && DeclaresFinal(chain, a, j, k)
  }

  /**
   The final-method part of VerifyClass, with one bit per slot of the class's table: the
   bits of final methods of all superclasses are set, then the offsets of the class's own
   methods are looked up.
   */
  method PassesFinalCheck(chain: seq<ClassDecl>, offsets: seq<seq<nat>>, n: nat, tableSize: nat) returns (result: bool)
    requires n < |chain| && Resolved(chain, offsets, n + 1) && tableSize == |TableOf(chain[..n + 1])|
    ensures result <==> !OverridesFinal(chain, n)
  {
    hide OffsetOf, TableOf;
    var bitvector := new bool[(tableSize + 31) / 32 * 32](_ => false);
    var m: int := n;
    while m > 0
      invariant 0 <= m <= n && BitsFrom(chain, bitvector, m, n)
    {
      m := m - 1;
      MarkFinals(chain, offsets, m, n, bitvector);
    }
    result := true;
    var i := 0;
    while i < |chain[n].methods|
      invariant 0 <= i <= |chain[n].methods| && BitsFrom(chain, bitvector, 0, n)
      invariant result <==> !exists j: nat, k: nat :: j < i && k > 0 && Declares(chain, n, j, k) && k < bitvector.Length && bitvector[k]
    {
      OffsetFits(chain, n, n + 1, i);
      var offset := offsets[n][i];
      assert Declares(chain, n, i, offset);
      if offset > 0 && bitvector[offset] {
        result := false;
      }
      i := i + 1;
    }
    BitsAreFinals(chain, n, bitvector);
  }

  lemma BitsAreFinals(chain: seq<ClassDecl>, n: nat, bits: array<bool>)
    requires n < |chain| && BitsFrom(chain, bits, 0, n) && bits.Length >= |TableOf(chain[..n + 1])|
    ensures OverridesFinal(chain, n) <==>
            exists j: nat, k: nat :: j < |chain[n].methods| && k > 0 && Declares(chain, n, j, k) && k < bits.Length && bits[k]
  {
    hide OffsetOf, TableOf;
    if OverridesFinal(chain, n) {
      var j: nat, k: nat, m: nat, f: nat :| k > 0 && Declares(chain, n, j, k) && m < n && DeclaresFinal(chain, m, f, k);
      OffsetFits(chain, n, n + 1, j);
      assert bits[k];
    }
  }

  method MarkFinals(chain: seq<ClassDecl>, offsets: seq<seq<nat>>, m: nat, n: nat, bits: array<bool>)
    requires m < n < |chain| && Resolved(chain, offsets, n + 1) && bits.Length >= |TableOf(chain[..n + 1])|
    requires BitsFrom(chain, bits, m + 1, n)
    modifies bits
    ensures BitsFrom(chain, bits, m, n)
  {
    hide OffsetOf, TableOf;
    ghost var before := bits[..];
    var i := 0;
    while i < |chain[m].methods|
      invariant 0 <= i <= |chain[m].methods|
      invariant forall k: nat | k < bits.Length :: bits[k] <==> before[k] || exists j: nat :: j < i && DeclaresFinal(chain, m, j, k)
    {
      OffsetFits(chain, m, n + 1, i);
      var offset := offsets[m][i];
      ghost var sofar := bits[..];
      if chain[m].methods[i].isFinal {
        bits[offset] := true;
      }
      forall k: nat | k < bits.Length
        ensures bits[k] <==> before[k] || exists j: nat :: j < i + 1 && DeclaresFinal(chain, m, j, k)
      {
        assert DeclaresFinal(chain, m, i, k) <==> k == offset && chain[m].methods[i].isFinal;
        assert bits[k] <==> sofar[k] || DeclaresFinal(chain, m, i, k);
      }
      i := i + 1;
    }
    forall k: nat | k < bits.Length ensures bits[k] <==> exists a: nat, j: nat :: m <= a < n && DeclaresFinal(chain, a, j, k) {
      if a: nat, j: nat :| m + 1 <= a < n && DeclaresFinal(chain, a, j, k) {
        assert m <= a;
      }
    }
  }
}
