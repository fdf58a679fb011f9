/**
 Merging a flow into the record of an instruction: what merge_stack, merge_registers and
 merge_flags compute, and why it keeps earlier merges absorbed and cannot go on for ever.
 */
module Merging {
  import opened Types
  import opened Bytecode
  import Lattice

  /** One element of the verifier's instruction array; `ret` is the ret of a jsr once it is known. */
  datatype Record = Record(changed: bool, frame: Option<Frame>, flags: Flags, ret: Option<nat>)

  predicate Assignable(from: seq<Type>, to: seq<Type>) {
    |to| <= |from| && forall k | 0 <= k < |to| :: IsAssignableTo(from[k], to[k])
  }

  function JoinAll(before: seq<Type>, incoming: seq<Type>): seq<Type>
    requires |before| == |incoming|
  {
    seq(|before|, k requires 0 <= k < |before| => Join(before[k], incoming[k]))
  }

  /** merge_stack; an unchanged stack is returned as it was. */
  function MergeStacks(before: seq<Type>, incoming: seq<Type>): Option<seq<Type>> {
    if StackWords(incoming) != StackWords(before) then None
    else if |before| == |incoming| && Assignable(incoming, before) then Some(before)
    else if |before| != |incoming| || Bogus in JoinAll(before, incoming) then None
    else Some(JoinAll(before, incoming))
  }

  /** The first register that does not take its new value, or the length when all do. */
  function FirstMismatch(before: seq<Type>, incoming: seq<Type>): (n: nat)
    requires |before| <= |incoming|
    ensures n <= |before|
    ensures forall k | 0 <= k < n :: IsAssignableTo(incoming[k], before[k])
    ensures n < |before| ==> !IsAssignableTo(incoming[n], before[n])
  {
    if before == [] || !IsAssignableTo(incoming[0], before[0]) then 0
    else
      var n := FirstMismatch(before[1..], incoming[1..]);
      assert forall k | 0 < k < 1 + n :: incoming[k] == incoming[1..][k - 1] && before[k] == before[1..][k - 1];
      1 + n
  }

  function TrimBogus(s: seq<Type>): (r: seq<Type>)
    ensures |r| <= |s| && r == s[..|r|]
    ensures forall k | |r| <= k < |s| :: s[k].Bogus?
    ensures |r| > 0 ==> !r[|r| - 1].Bogus?
  {
    if s == [] || !s[|s| - 1].Bogus? then s else TrimBogus(s[..|s| - 1])
  }

  /** merge_registers: the set may get shorter, and merges from the first mismatch on. */
  function MergeRegisterSets(before: seq<Type>, incoming: seq<Type>): seq<Type> {
    var cut := if |before| > |incoming| then before[..|incoming|] else before;
    var n := FirstMismatch(cut, incoming);
    if n == |cut| then cut
    else TrimBogus(cut[..n] + JoinAll(cut[n..], incoming[n..|cut|]))
  }

  /** merge_flags. */
  function MergeFlagSets(before: Flags, incoming: Flags): Flags {
    Flags(before.constructed && incoming.constructed,
          before.reached || incoming.reached,
          before.needConstructor || incoming.needConstructor,
          before.noReturn || incoming.noReturn)
  }

  /** The first mask of a subroutine; the length if there is none. */
  function MaskOf(masks: seq<Mask>, entry: nat): (k: nat)
    ensures k <= |masks|
    ensures k < |masks| ==> masks[k].entry == entry
    ensures forall j | 0 <= j < k :: masks[j].entry != entry
  {
    if masks == [] || masks[0].entry == entry then 0 else 1 + MaskOf(masks[1..], entry)
  }

  /** The masks the record and the flow have in common, in order, with the changes of both. */
  function MergeMasks(before: seq<Mask>, incoming: seq<Mask>): (r: seq<Mask>)
    ensures |r| <= |before|
    decreases |before|
  {
    if before == [] then []
    else
      var k := MaskOf(incoming, before[0].entry);
      if k == |incoming| then MergeMasks(before[1..], incoming)
      else [Mask(before[0].entry, before[0].changed + incoming[k].changed)] + MergeMasks(before[1..], incoming[k + 1..])
  }

  /** merge_into_one_successor, except that what a ret brings is joined first: see ReturnFrame. */
  function MergeRecord(r: Record, flow: Flow): Option<Record> {
    var flags := MergeFlagSets(r.flags, flow.flags);
    match r.frame
    case None => Some(Record(true, Some(flow.frame), flags, r.ret))
    case Some(f) =>
      match MergeStacks(f.stack, flow.frame.stack)
      case None => None
      case Some(stack) =>
        var merged := Frame(stack, MergeRegisterSets(f.regs, flow.frame.regs), MergeMasks(f.masks, flow.frame.masks));
        Some(Record(r.changed || merged != f || flags != r.flags, Some(merged), flags, r.ret))
  }

  // ----- merging weakens the record just enough -----

  /** b is some of the masks of a, in order, with no fewer changes. */
  predicate MasksBelow(a: seq<Mask>, b: seq<Mask>)
    decreases |a|
  {
    b == [] ||
    (a != [] &&
     if a[0].entry == b[0].entry then a[0].changed <= b[0].changed && MasksBelow(a[1..], b[1..])
     else MasksBelow(a[1..], b))
  }

  predicate FrameBelow(a: Frame, b: Frame) {
    |a.stack| == |b.stack| && Assignable(a.stack, b.stack) && Assignable(a.regs, b.regs) && MasksBelow(a.masks, b.masks)
  }

  predicate FlagsBelow(a: Flags, b: Flags) {
    && (b.constructed ==> a.constructed)
    && (a.reached ==> b.reached)
    && (a.needConstructor ==> b.needConstructor)
    && (a.noReturn ==> b.noReturn)
  }

  /** The record already allows for everything the flow brings. */
  predicate Absorbed(flow: Flow, r: Record) {
    r.frame.Some? && FrameBelow(flow.frame, r.frame.value) && FlagsBelow(flow.flags, r.flags)
  }

  predicate AllLeq(a: seq<Type>, b: seq<Type>) {
    |b| <= |a| && forall k | 0 <= k < |b| :: Leq(a[k], b[k])
  }

  predicate Weaker(r: Record, s: Record) {
    && (r.frame.Some? ==>
          && s.frame.Some?
          && |r.frame.value.stack| == |s.frame.value.stack|
          && AllLeq(r.frame.value.stack, s.frame.value.stack)
          && AllLeq(r.frame.value.regs, s.frame.value.regs)
          && MasksBelow(r.frame.value.masks, s.frame.value.masks))
    && FlagsBelow(r.flags, s.flags)
    && (r.ret.Some? ==> s.ret == r.ret)
  }

  // ----- masks -----

  /** No subroutine twice, and only registers below the limit. */
  predicate MasksOk(limit: nat, masks: seq<Mask>) {
    && (forall i, j | 0 <= i < j < |masks| :: masks[i].entry != masks[j].entry)
    && forall i | 0 <= i < |masks| :: forall k | k in masks[i].changed :: k < limit
  }

  lemma {:induction false} MasksBelowEntries(a: seq<Mask>, b: seq<Mask>, e: nat)
    requires MasksBelow(a, b) && HasEntry(b, e)
    ensures HasEntry(a, e)
    decreases |a|
  {
    if a[0].entry == e {
      assert a[0].entry == e;
    } else {
      var k :| 0 <= k < |b| && b[k].entry == e;
      if a[0].entry == b[0].entry {
        assert b[1..][k - 1].entry == e;
        MasksBelowEntries(a[1..], b[1..], e);
      } else {
        MasksBelowEntries(a[1..], b, e);
      }
      var j :| 0 <= j < |a[1..]| && a[1..][j].entry == e;
      assert a[j + 1].entry == e;
    }
  }

  lemma MasksOkRest(limit: nat, a: seq<Mask>, n: nat)
    requires MasksOk(limit, a) && n <= |a|
    ensures MasksOk(limit, a[n..]) && MasksOk(limit, a[..n])
    ensures 0 < n <= |a| ==> !HasEntry(a[n..], a[n - 1].entry)
  {
  }

  lemma {:induction false} MasksBelowItself(a: seq<Mask>)
    ensures MasksBelow(a, a)
    decreases |a|
  {
    if a != [] {
      MasksBelowItself(a[1..]);
    }
  }

  lemma {:induction false} MasksBelowTransitive(limit: nat, a: seq<Mask>, b: seq<Mask>, c: seq<Mask>)
    requires MasksOk(limit, a) && MasksBelow(a, b) && MasksBelow(b, c)
    ensures MasksBelow(a, c)
    decreases |a|, |b|
  {
    if c != [] {
      MasksOkRest(limit, a, 1);
      if a[0].entry == b[0].entry {
        if b[0].entry == c[0].entry {
          MasksBelowTransitive(limit, a[1..], b[1..], c[1..]);
        } else {
          MasksBelowTransitive(limit, a[1..], b[1..], c);
        }
      } else {
        MasksBelowTransitive(limit, a[1..], b, c);
        if a[0].entry == c[0].entry {
          assert HasEntry(c, a[0].entry);
          MasksBelowEntries(a[1..], c, a[0].entry);
        }
      }
    }
  }

  /** A further mask at the end does not matter. */
  lemma {:induction false} MasksBelowMore(a: seq<Mask>, b: seq<Mask>, more: seq<Mask>)
    requires MasksBelow(a, b)
    ensures MasksBelow(a + more, b)
    decreases |a|
  {
    if b != [] {
      assert (a + more)[1..] == a[1..] + more;
      MasksBelowMore(a[1..], if a[0].entry == b[0].entry then b[1..] else b, more);
    }
  }

  /** Masks in front that do not occur. */
  lemma {:induction false} MasksBelowBehind(a: seq<Mask>, b: seq<Mask>, k: nat)
    requires k <= |a| && MasksBelow(a[k..], b) && (b != [] ==> forall j | 0 <= j < k :: a[j].entry != b[0].entry)
    ensures MasksBelow(a, b)
    decreases k
  {
    if k > 0 && b != [] {
      assert a[1..][k - 1..] == a[k..];
      MasksBelowBehind(a[1..], b, k - 1);
    } else if k > 0 {
    } else {
      assert a[0..] == a;
    }
  }

  lemma {:induction false} MergeMasksBelowIncoming(before: seq<Mask>, incoming: seq<Mask>)
    ensures MasksBelow(incoming, MergeMasks(before, incoming))
    decreases |before|
  {
    if before != [] {
      var k := MaskOf(incoming, before[0].entry);
      if k == |incoming| {
        MergeMasksBelowIncoming(before[1..], incoming);
      } else {
        MergeMasksBelowIncoming(before[1..], incoming[k + 1..]);
        var merged := MergeMasks(before, incoming);
        assert incoming[k..][1..] == incoming[k + 1..] && merged[1..] == MergeMasks(before[1..], incoming[k + 1..]);
        MasksBelowBehind(incoming, merged, k);
      }
    }
  }

  lemma {:induction false} MergeMasksBelowBefore(limit: nat, before: seq<Mask>, incoming: seq<Mask>)
    requires MasksOk(limit, before)
    ensures MasksBelow(before, MergeMasks(before, incoming))
    decreases |before|
  {
    if before != [] {
      MasksOkRest(limit, before, 1);
      var k := MaskOf(incoming, before[0].entry);
      var merged := MergeMasks(before, incoming);
      if k == |incoming| {
        MergeMasksBelowBefore(limit, before[1..], incoming);
        if merged != [] && merged[0].entry == before[0].entry {
          assert HasEntry(merged, before[0].entry);
          MasksBelowEntries(before[1..], merged, before[0].entry);
        }
      } else {
        MergeMasksBelowBefore(limit, before[1..], incoming[k + 1..]);
        assert merged[1..] == MergeMasks(before[1..], incoming[k + 1..]);
      }
    }
  }

  lemma {:induction false} MergeMasksOk(limit: nat, before: seq<Mask>, incoming: seq<Mask>)
    requires MasksOk(limit, before) && MasksOk(limit, incoming)
    ensures MasksOk(limit, MergeMasks(before, incoming))
    decreases |before|
  {
    if before != [] {
      MasksOkRest(limit, before, 1);
      var k := MaskOf(incoming, before[0].entry);
      if k == |incoming| {
        MergeMasksOk(limit, before[1..], incoming);
      } else {
        MasksOkRest(limit, incoming, k + 1);
        var rest := MergeMasks(before[1..], incoming[k + 1..]);
        MergeMasksOk(limit, before[1..], incoming[k + 1..]);
        MergeMasksBelowBefore(limit, before[1..], incoming[k + 1..]);
        if HasEntry(rest, before[0].entry) {
          MasksBelowEntries(before[1..], rest, before[0].entry);
        }
      }
    }
  }

  /** A flow is absorbed exactly when merging its masks changes nothing. */
  lemma {:induction false} MasksBelowExactly(limit: nat, before: seq<Mask>, incoming: seq<Mask>)
    requires MasksOk(limit, before) && MasksOk(limit, incoming)
    ensures MasksBelow(incoming, before) <==> MergeMasks(before, incoming) == before
    decreases |before|
  {
    MergeMasksBelowIncoming(before, incoming);
    if before != [] && MasksBelow(incoming, before) {
      var e := before[0].entry;
      var k := MaskOf(incoming, e);
      assert HasEntry(before, e);
      MasksBelowEntries(incoming, before, e);
      BelowFrom(incoming, before, k);
      assert incoming[k..][1..] == incoming[k + 1..] && incoming[k..][0] == incoming[k];
      assert before[0].changed + incoming[k].changed == before[0].changed;
      MasksOkRest(limit, before, 1);
      MasksOkRest(limit, incoming, k + 1);
      MasksBelowExactly(limit, before[1..], incoming[k + 1..]);
      assert before == [before[0]] + before[1..];
    }
  }

  lemma {:induction false} BelowFrom(a: seq<Mask>, b: seq<Mask>, k: nat)
    requires MasksBelow(a, b) && b != [] && k <= |a| && forall j | 0 <= j < k :: a[j].entry != b[0].entry
    ensures MasksBelow(a[k..], b)
    decreases k
  {
    if k > 0 {
      BelowFrom(a[1..], b, k - 1);
      assert a[1..][k - 1..] == a[k..];
    } else {
      assert a[0..] == a;
    }
  }

  lemma AssignableThenAllLeq(a: seq<Type>, b: seq<Type>, c: seq<Type>)
    requires Assignable(a, b) && AllLeq(b, c)
    ensures Assignable(a, c)
  {
    forall k | 0 <= k < |c| ensures IsAssignableTo(a[k], c[k]) {
      Lattice.AssignableThenLeq(a[k], b[k], c[k]);
    }
  }

  /** Frames the analysis makes: registers within max_locals and orderly masks. */
  predicate FrameOk(limit: nat, f: Frame) {
    |f.regs| <= limit && MasksOk(limit, f.masks)
  }

  /** Weakening a record keeps what it had absorbed. */
  lemma WeakerKeepsAbsorbed(limit: nat, flow: Flow, r: Record, s: Record)
    requires FrameOk(limit, flow.frame) && Absorbed(flow, r) && Weaker(r, s)
    ensures Absorbed(flow, s)
  {
    MasksBelowTransitive(limit, flow.frame.masks, r.frame.value.masks, s.frame.value.masks);
    AssignableThenAllLeq(flow.frame.stack, r.frame.value.stack, s.frame.value.stack);
    AssignableThenAllLeq(flow.frame.regs, r.frame.value.regs, s.frame.value.regs);
  }

  lemma JoinAllBounds(before: seq<Type>, incoming: seq<Type>)
    requires |before| == |incoming|
    ensures AllLeq(before, JoinAll(before, incoming))
    ensures Assignable(incoming, JoinAll(before, incoming))
  {
    forall k | 0 <= k < |before|
      ensures Leq(before[k], JoinAll(before, incoming)[k])
      ensures IsAssignableTo(incoming[k], JoinAll(before, incoming)[k])
    {
      Lattice.JoinClimbs(before[k], incoming[k]);
      Lattice.LeqAssignable(incoming[k], Join(before[k], incoming[k]));
    }
  }

  lemma PrefixThenJoin(cut: seq<Type>, incoming: seq<Type>, n: nat)
    requires n <= |cut| <= |incoming|
    requires forall k | 0 <= k < n :: IsAssignableTo(incoming[k], cut[k])
    ensures var all := cut[..n] + JoinAll(cut[n..], incoming[n..|cut|]);
            AllLeq(cut, all) && Assignable(incoming, all)
  {
    JoinAllBounds(cut[n..], incoming[n..|cut|]);
    var joined := JoinAll(cut[n..], incoming[n..|cut|]);
    var all := cut[..n] + joined;
    forall k | 0 <= k < |all| ensures Leq(cut[k], all[k]) && IsAssignableTo(incoming[k], all[k]) {
      if k >= n {
        var x, y := cut[n..][k - n], incoming[n..|cut|][k - n];
        assert all[k] == joined[k - n] && x == cut[k] && y == incoming[k];
      }
    }
  }

  lemma MergeRegisterSetsBounds(before: seq<Type>, incoming: seq<Type>)
    ensures |MergeRegisterSets(before, incoming)| <= |before|
    ensures AllLeq(before, MergeRegisterSets(before, incoming))
    ensures Assignable(incoming, MergeRegisterSets(before, incoming))
  {
    var cut := if |before| > |incoming| then before[..|incoming|] else before;
    PrefixThenJoin(cut, incoming, FirstMismatch(cut, incoming));
  }

  /** After a merge the flow is absorbed and nothing else is lost. */
  lemma MergeRecordBounds(limit: nat, r: Record, flow: Flow)
    requires MergeRecord(r, flow).Some? && FrameOk(limit, flow.frame) && (r.frame.Some? ==> FrameOk(limit, r.frame.value))
    ensures Absorbed(flow, MergeRecord(r, flow).value)
    ensures Weaker(r, MergeRecord(r, flow).value)
    ensures FrameOk(limit, MergeRecord(r, flow).value.frame.value)
  {
    if r.frame.None? {
      forall t: Type ensures IsAssignableTo(t, t) {}
      MasksBelowItself(flow.frame.masks);
    } else {
      var f := r.frame.value;
      MergeMasksBelowIncoming(f.masks, flow.frame.masks);
      MergeMasksBelowBefore(limit, f.masks, flow.frame.masks);
      MergeMasksOk(limit, f.masks, flow.frame.masks);
      MergeRegisterSetsBounds(f.regs, flow.frame.regs);
      if |f.stack| == |flow.frame.stack| && !Assignable(flow.frame.stack, f.stack) {
        JoinAllBounds(f.stack, flow.frame.stack);
      }
    }
  }

  // ----- merging climbs -----

  function SumHeights(s: seq<Type>): nat {
    if s == [] then 0 else 1 + Height(s[0]) + SumHeights(s[1..])
  }

  function CountNulls(s: seq<Type>): nat {
    if s == [] then 0 else (if s[0].Null? then 1 else 0) + CountNulls(s[1..])
  }

  function Unknown(r: Record): nat { if r.frame.None? then 1 else 0 }

  function Nulls(r: Record): nat {
    if r.frame.None? then 0 else CountNulls(r.frame.value.stack) + CountNulls(r.frame.value.regs)
  }

  function FlagHeight(fl: Flags): nat {
    (if fl.constructed then 1 else 0) + (if fl.reached then 0 else 1)
    + (if fl.needConstructor then 0 else 1) + (if fl.noReturn then 0 else 1)
  }

  /** What masks can still lose: themselves, and the registers they do not yet count as changed. */
  function MaskHeight(limit: nat, masks: seq<Mask>): nat {
    if masks == [] then 0 else 1 + |Unchanged(limit, masks[0])| + MaskHeight(limit, masks[1..])
  }

  function Unchanged(limit: nat, mask: Mask): set<nat> {
    set k: nat | k < limit && k !in mask.changed
  }

  function Climb(limit: nat, r: Record): nat {
    FlagHeight(r.flags) + (if r.ret.None? then 1 else 0)
    + if r.frame.None? then 0
      else SumHeights(r.frame.value.stack) + SumHeights(r.frame.value.regs) + MaskHeight(limit, r.frame.value.masks)
  }

  /** A marked jsr that has a ret counts twice, since visiting it marks the ret. */
  function Pending(r: Record): nat { if !r.changed then 0 else if r.ret.Some? then 2 else 1 }

  lemma {:induction false} MergeMasksClimb(limit: nat, before: seq<Mask>, incoming: seq<Mask>)
    requires MasksOk(limit, before) && MasksOk(limit, incoming)
    ensures var merged := MergeMasks(before, incoming);
            merged == before || MaskHeight(limit, merged) < MaskHeight(limit, before)
    decreases |before|
  {
    if before != [] {
      MasksOkRest(limit, before, 1);
      var k := MaskOf(incoming, before[0].entry);
      if k == |incoming| {
        MergeMasksClimb(limit, before[1..], incoming);
      } else {
        MasksOkRest(limit, incoming, k + 1);
        MergeMasksClimb(limit, before[1..], incoming[k + 1..]);
        var first, merged := MergeMasks(before, incoming)[0], MergeMasks(before, incoming);
        assert merged[1..] == MergeMasks(before[1..], incoming[k + 1..]);
        var a, b := Unchanged(limit, first), Unchanged(limit, before[0]);
        assert a <= b;
        SubsetSize(a, b);
        if first == before[0] {
          assert before == [before[0]] + before[1..];
        } else {
          var r :| r in incoming[k].changed && r !in before[0].changed;
          assert r in b && r !in a;
          SubsetSize(a, b - {r});
        }
      }
    }
  }

  lemma {:induction false} SubsetSize(a: set<nat>, b: set<nat>)
    requires a <= b
    ensures |a| <= |b|
    decreases |a|
  {
    if a != {} {
      var x :| x in a;
      SubsetSize(a - {x}, b - {x});
    }
  }

  /** `b` is `a` with some items merged upwards and some dropped from the end. */
  predicate Climbed(a: seq<Type>, b: seq<Type>) {
    && |b| <= |a|
    && forall k | 0 <= k < |b| ::
         b[k] == a[k] || (a[k].Null? && !b[k].Null?)
         || (!a[k].Null? && !b[k].Null? && Height(b[k]) < Height(a[k]))
  }

  lemma {:induction false} ClimbedMeasure(a: seq<Type>, b: seq<Type>)
    requires Climbed(a, b)
    ensures CountNulls(b) <= CountNulls(a)
    ensures CountNulls(b) == CountNulls(a) ==> SumHeights(b) <= SumHeights(a)
    ensures CountNulls(b) == CountNulls(a) && b != a ==> SumHeights(b) < SumHeights(a)
  {
    if b == [] {
    } else {
      ClimbedMeasure(a[1..], b[1..]);
      if b[0] == a[0] && b[1..] == a[1..] {
        assert b == [b[0]] + b[1..] && a == [a[0]] + a[1..];
      }
    }
  }

  lemma JoinAllClimbed(before: seq<Type>, incoming: seq<Type>)
    requires |before| == |incoming|
    ensures Climbed(before, JoinAll(before, incoming))
  {
    forall k | 0 <= k < |before|
      ensures var j := Join(before[k], incoming[k]);
              j == before[k] || (before[k].Null? && !j.Null?)
              || (!before[k].Null? && !j.Null? && Height(j) < Height(before[k]))
    {
      Lattice.JoinClimbs(before[k], incoming[k]);
    }
  }

  lemma PrefixThenJoinClimbed(cut: seq<Type>, incoming: seq<Type>, n: nat)
    requires n <= |cut| <= |incoming|
    ensures Climbed(cut, cut[..n] + JoinAll(cut[n..], incoming[n..|cut|]))
  {
    JoinAllClimbed(cut[n..], incoming[n..|cut|]);
    var joined := JoinAll(cut[n..], incoming[n..|cut|]);
    forall k | n <= k < |cut|
      ensures (cut[..n] + joined)[k] == joined[k - n] && cut[n..][k - n] == cut[k]
    {}
  }

  lemma MergeRegisterSetsClimbed(before: seq<Type>, incoming: seq<Type>)
    ensures Climbed(before, MergeRegisterSets(before, incoming))
  {
    var cut := if |before| > |incoming| then before[..|incoming|] else before;
    PrefixThenJoinClimbed(cut, incoming, FirstMismatch(cut, incoming));
  }

  /** The termination order of the analysis on one record. */
  predicate Smaller(limit: nat, s: Record, r: Record) {
    || Unknown(s) < Unknown(r)
    || (Unknown(s) == Unknown(r) && Nulls(s) < Nulls(r))
    || (Unknown(s) == Unknown(r) && Nulls(s) == Nulls(r) && Climb(limit, s) < Climb(limit, r))
  }

  /** A merge either changes nothing or marks the record and climbs. */
  lemma MergeRecordClimbs(limit: nat, r: Record, flow: Flow)
    requires MergeRecord(r, flow).Some? && FrameOk(limit, flow.frame) && (r.frame.Some? ==> FrameOk(limit, r.frame.value))
    ensures var s := MergeRecord(r, flow).value;
            s == r || (s.changed && Smaller(limit, s, r))
  {
    var s := MergeRecord(r, flow).value;
    if r.frame.Some? && s != r {
      var f, g := r.frame.value, s.frame.value;
      MergeRegisterSetsClimbed(f.regs, flow.frame.regs);
      if |f.stack| == |flow.frame.stack| {
        JoinAllClimbed(f.stack, flow.frame.stack);
      }
      ClimbedMeasure(f.stack, g.stack);
      ClimbedMeasure(f.regs, g.regs);
      MergeMasksClimb(limit, f.masks, flow.frame.masks);
    }
  }
}
