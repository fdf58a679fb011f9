/**
 Descriptors (sections 4.3.2 and 4.3.3 of the JVM specification): the recogniser of
 check_class.c, the argument size of classloader.c and the reader of check_code.c.
 Texts are sequences of characters; what comes after the end is the terminating zero.
 */
module Descriptors {
  type Text = seq<nat>

  const FUNC: nat := 40
  const ENDFUNC: nat := 41
  const SLASH: nat := 47
  const ENDCLASS: nat := 59
  const ARRAY: nat := 91
  const BYTE: nat := 66
  const CHAR: nat := 67
  const DOUBLE: nat := 68
  const FLOAT: nat := 70
  const INT: nat := 73
  const LONG: nat := 74
  const CLASS: nat := 76
  const SHORT: nat := 83
  const VOID: nat := 86
  const BOOLEAN: nat := 90
  const DOLLAR: nat := 36
  const UNDERSCORE: nat := 95

  /** The character tables for identifiers, and whether floating point is allowed. */
  datatype Rules = Rules(isStart: nat -> bool, isPart: nat -> bool, floats: bool) {
    /** The tables have none of the characters with a meaning of their own. */
    ghost predicate Valid() {
      forall c | c in {0, FUNC, ENDFUNC, SLASH, ENDCLASS, ARRAY} :: !isStart(c) && !isPart(c)
    }
  }

  function At(s: Text, p: nat): nat {
    if p < |s| then s[p] else 0
  }

  predicate IsText(s: Text) {
    0 !in s
  }

  // ----- the grammar -----

  datatype FieldType = Base(letter: nat) | Class(name: Text) | Array(element: FieldType)

  predicate IsBase(r: Rules, c: nat) {
    c in {BYTE, CHAR, INT, LONG, SHORT, BOOLEAN} || (r.floats && c in {FLOAT, DOUBLE})
  }

  predicate NameChar(r: Rules, c: nat, first: bool) {
    r.isStart(c) || (!first && r.isPart(c)) || (!first && c == SLASH) || c == UNDERSCORE || c == DOLLAR
  }

  /** A class name: identifier characters with single slashes between them. */
  predicate LegalName(r: Rules, n: Text) {
    && n != []
    && (forall i | 0 <= i < |n| :: NameChar(r, n[i], i == 0))
    && forall i | 0 < i < |n| :: !(n[i - 1] == SLASH && n[i] == SLASH)
  }

  predicate Legal(r: Rules, t: FieldType) {
    match t
    case Base(c) => IsBase(r, c)
    case Class(n) => LegalName(r, n)
    case Array(e) => Legal(r, e)
  }

  function Printed(t: FieldType): (s: Text)
    ensures s != []
  {
    match t
    case Base(c) => [c]
    case Class(n) => [CLASS] + n + [ENDCLASS]
    case Array(e) => [ARRAY] + Printed(e)
  }

  predicate AllLegal(r: Rules, ts: seq<FieldType>) {
    forall i | 0 <= i < |ts| :: Legal(r, ts[i])
  }

  function PrintedAll(ts: seq<FieldType>): Text {
    if ts == [] then [] else Printed(ts[0]) + PrintedAll(ts[1..])
  }

  /** A return type; void is none. */
  datatype Return = Void | Value(t: FieldType)

  function PrintedReturn(ret: Return): Text {
    if ret.Void? then [VOID] else Printed(ret.t)
  }

  predicate LegalReturn(r: Rules, ret: Return) {
    ret.Value? ==> Legal(r, ret.t)
  }

  function Descriptor(params: seq<FieldType>, ret: Return): Text {
    [FUNC] + PrintedAll(params) + [ENDFUNC] + PrintedReturn(ret)
  }

  // ----- skip_over_fieldname and skip_over_field_signature -----

  /** Where the name that starts at `start` ends, having come to p; -1 for two slashes in a row or no name. */
  function SkipName(r: Rules, s: Text, start: nat, p: nat): int
    requires r.Valid() && start <= p <= |s|
    decreases |s| - p
  {
    if NameChar(r, At(s, p), p == start) then
      if p > start && s[p - 1] == SLASH && At(s, p) == SLASH then -1
      else if p == |s| then -1
      else SkipName(r, s, start, p + 1)
    else if p == start then -1
    else p
  }

  method SkipOverFieldname(r: Rules, s: Text, start: nat) returns (end: int)
    requires r.Valid() && start <= |s|
    ensures end == SkipName(r, s, start, start)
  {
    var p, last := start, 0;
    while NameChar(r, At(s, p), p == start)
      invariant start <= p <= |s| && last == (if p == start then 0 else s[p - 1])
      invariant SkipName(r, s, start, start) == SkipName(r, s, start, p)
      decreases |s| - p
    {
      EndIsNoName(r);
      if At(s, p) == SLASH && last == SLASH {
        return -1;
      }
      last := At(s, p);
      p := p + 1;
    }
    end := if p == start then -1 else p;
  }

  lemma EndIsNoName(r: Rules)
    requires r.Valid()
    ensures !NameChar(r, 0, true) && !NameChar(r, 0, false) && !NameChar(r, ENDCLASS, false) && !NameChar(r, SLASH, true)
    ensures !NameChar(r, ENDCLASS, true)
  {
  }

  /** Just past the descriptor at p, or -1. */
  function SkipField(r: Rules, s: Text, p: nat, voidOkay: bool): (q: int)
    requires r.Valid() && p <= |s|
    ensures q == -1 || p < q <= |s|
    decreases |s| - p
  {
    var c := At(s, p);
    if c == VOID then if voidOkay then p + 1 else -1
    else if IsBase(r, c) then p + 1
    else if c == CLASS then
      var end := SkipName(r, s, p + 1, p + 1);
      SkipNameEnds(r, s, p + 1, p + 1);
      if end >= 0 && At(s, end) == ENDCLASS then end + 1 else -1
    else if c == ARRAY then SkipField(r, s, p + 1, false)
    else -1
  }

  lemma {:induction false} SkipNameEnds(r: Rules, s: Text, start: nat, p: nat)
    requires r.Valid() && start <= p <= |s|
    ensures SkipName(r, s, start, p) == -1 || p <= SkipName(r, s, start, p) <= |s|
    ensures SkipName(r, s, start, p) != start
    decreases |s| - p
  {
    if p < |s| {
      SkipNameEnds(r, s, start, p + 1);
    }
  }

  method SkipOverFieldSignature(r: Rules, s: Text, name: nat, voidOkay: bool) returns (q: int)
    requires r.Valid() && name <= |s|
    ensures q == SkipField(r, s, name, voidOkay)
  {
    var p, okay := name, voidOkay;
    while At(s, p) == ARRAY
      invariant name <= p <= |s| && SkipField(r, s, name, voidOkay) == SkipField(r, s, p, okay)
      decreases |s| - p
    {
      p, okay := p + 1, false;
    }
    var c := At(s, p);
    if c == VOID {
      q := if okay then p + 1 else -1;
    } else if IsBase(r, c) {
      q := p + 1;
    } else if c == CLASS {
      SkipNameEnds(r, s, p + 1, p + 1);
      q := SkipOverFieldname(r, s, p + 1);
      if q >= 0 {
        q := if At(s, q) == ENDCLASS then q + 1 else -1;
      }
    } else {
      q := -1;
    }
  }

  // ----- the recogniser is the grammar -----

  lemma {:induction false} NameIsSkipped(r: Rules, s: Text, start: nat, p: nat, end: nat)
    requires r.Valid() && start <= p <= end < |s| && start < end
    requires LegalName(r, s[start..end]) && s[end] == ENDCLASS
    ensures SkipName(r, s, start, p) == end
    decreases end - p
  {
    EndIsNoName(r);
    if p < end {
      assert s[p] == s[start..end][p - start];
      if p > start {
        assert s[p - 1] == s[start..end][p - start - 1];
      }
      NameIsSkipped(r, s, start, p + 1, end);
    }
  }

  lemma {:induction false} SkippedIsName(r: Rules, s: Text, start: nat, p: nat)
    requires r.Valid() && start <= p <= |s| && SkipName(r, s, start, p) >= 0
    requires p > start ==> LegalName(r, s[start..p])
    ensures start < SkipName(r, s, start, p) <= |s| && LegalName(r, s[start..SkipName(r, s, start, p)])
    decreases |s| - p
  {
    if NameChar(r, At(s, p), p == start) {
      var n := s[start..p + 1];
      forall i | 0 <= i < |n| ensures NameChar(r, n[i], i == 0) {
        assert i < p - start ==> n[i] == s[start..p][i];
      }
      forall i | 0 < i < |n| ensures !(n[i - 1] == SLASH && n[i] == SLASH) {
        assert i < p - start ==> n[i] == s[start..p][i] && n[i - 1] == s[start..p][i - 1];
      }
      SkippedIsName(r, s, start, p + 1);
    }
  }

  /** The text has w at position p. */
  predicate Has(s: Text, p: nat, w: Text) {
    p + |w| <= |s| && s[p..p + |w|] == w
  }

  lemma HasEach(s: Text, p: nat, w: Text)
    ensures Has(s, p, w) <==> p + |w| <= |s| && forall i {:trigger w[i]} | 0 <= i < |w| :: s[p + i] == w[i]
  {
    if p + |w| <= |s| {
      var t := s[p..p + |w|];
      assert forall i {:trigger w[i]} | 0 <= i < |w| :: t[i] == s[p + i];
      if forall i {:trigger w[i]} | 0 <= i < |w| :: s[p + i] == w[i] {
        assert t == w;
      }
    }
  }

  lemma HasBoth(s: Text, p: nat, a: Text, b: Text)
    ensures Has(s, p, a + b) <==> Has(s, p, a) && Has(s, p + |a|, b)
  {
    var w := a + b;
    HasEach(s, p, w);
    HasEach(s, p, a);
    HasEach(s, p + |a|, b);
    hide Has;
    if Has(s, p, w) {
      forall i | 0 <= i < |a| ensures s[p + i] == a[i] {
        assert w[i] == a[i];
      }
      forall i | 0 <= i < |b| ensures s[p + |a| + i] == b[i] {
        assert w[|a| + i] == b[i];
      }
    }
    if Has(s, p, a) && Has(s, p + |a|, b) {
      forall i | 0 <= i < |w| ensures s[p + i] == w[i] {
        if i < |a| {
          assert w[i] == a[i];
        } else {
          assert w[i] == b[i - |a|];
        }
      }
    }
  }

  lemma HasOne(s: Text, p: nat, c: nat)
    ensures Has(s, p, [c]) <==> p < |s| && s[p] == c
  {
    if p < |s| {
      assert s[p..p + 1] == [s[p]];
    }
  }

  /** The printed form of a legal type is skipped as a whole. */
  lemma {:induction false} PrintedIsSkipped(r: Rules, s: Text, p: nat, t: FieldType, voidOkay: bool)
    requires r.Valid() && Legal(r, t) && Has(s, p, Printed(t))
    ensures p < |s| && SkipField(r, s, p, voidOkay) == p + |Printed(t)| <= |s|
    decreases t
  {
    match t {
      case Base(c) => HasOne(s, p, c);
      case Class(n) =>
        HasBoth(s, p, [CLASS] + n, [ENDCLASS]);
        HasBoth(s, p, [CLASS], n);
        HasOne(s, p, CLASS);
        HasOne(s, p + 1 + |n|, ENDCLASS);
        NameIsSkipped(r, s, p + 1, p + 1, p + 1 + |n|);
      case Array(e) =>
        HasBoth(s, p, [ARRAY], Printed(e));
        HasOne(s, p, ARRAY);
        hide Has;
        PrintedIsSkipped(r, s, p + 1, e, false);
    }
  }

  /** What is skipped is the printed form of a legal type. */
  lemma {:induction false} SkippedIsPrinted(r: Rules, s: Text, p: nat) returns (t: FieldType)
    requires r.Valid() && p <= |s| && SkipField(r, s, p, false) >= 0
    ensures Legal(r, t) && SkipField(r, s, p, false) == p + |Printed(t)| && Has(s, p, Printed(t))
    decreases |s| - p
  {
    hide Has, LegalName, NameChar;
    var c := At(s, p);
    HasOne(s, p, c);
    if IsBase(r, c) {
      t := Base(c);
    } else if c == CLASS {
      var end := SkipName(r, s, p + 1, p + 1);
      SkippedIsName(r, s, p + 1, p + 1);
      var n := s[p + 1..end];
      t := Class(n);
      HasSlice(s, p + 1, end);
      HasOne(s, end, ENDCLASS);
      HasBoth(s, p, [CLASS], n);
      HasBoth(s, p, [CLASS] + n, [ENDCLASS]);
    } else {
      var e := SkippedIsPrinted(r, s, p + 1);
      t := Array(e);
      HasBoth(s, p, [ARRAY], Printed(e));
    }
  }

  // ----- method descriptors -----

  /** How far field descriptors can be skipped from p on. */
  function SkipAll(r: Rules, s: Text, p: nat): (q: nat)
    requires r.Valid() && p <= |s|
    ensures p <= q <= |s|
    decreases |s| - p
  {
    var n := SkipField(r, s, p, false);
    if n < 0 then p else SkipAll(r, s, n)
  }

  lemma SkipStops(r: Rules, s: Text, p: nat)
    requires r.Valid() && p <= |s| && At(s, p) == ENDFUNC
    ensures SkipField(r, s, p, false) == -1
  {
  }

  lemma {:induction false} AllAreSkipped(r: Rules, s: Text, p: nat, ts: seq<FieldType>)
    requires r.Valid() && AllLegal(r, ts) && Has(s, p, PrintedAll(ts)) && At(s, p + |PrintedAll(ts)|) == ENDFUNC
    ensures p <= |s| && SkipAll(r, s, p) == p + |PrintedAll(ts)|
    decreases |ts|
  {
    if ts == [] {
      SkipStops(r, s, p);
    } else {
      HasBoth(s, p, Printed(ts[0]), PrintedAll(ts[1..]));
      hide Has;
      PrintedIsSkipped(r, s, p, ts[0], false);
      AllAreSkipped(r, s, p + |Printed(ts[0])|, ts[1..]);
    }
  }

  lemma {:induction false} SkippedAreTypes(r: Rules, s: Text, p: nat) returns (ts: seq<FieldType>)
    requires r.Valid() && p <= |s|
    ensures AllLegal(r, ts) && SkipAll(r, s, p) == p + |PrintedAll(ts)| && Has(s, p, PrintedAll(ts))
    decreases |s| - p
  {
    var n := SkipField(r, s, p, false);
    if n < 0 {
      ts := [];
    } else {
      var t := SkippedIsPrinted(r, s, p);
      var rest := SkippedAreTypes(r, s, n);
      ts := [t] + rest;
      assert ts[1..] == rest;
      HasBoth(s, p, Printed(t), PrintedAll(rest));
    }
  }

  /** A descriptor that may be used with a method name: methods with a special name return void. */
  ghost predicate LegalDescriptor(r: Rules, s: Text, special: bool) {
    exists params, ret :: AllLegal(r, params) && LegalReturn(r, ret) && (special ==> ret == Void) && s == Descriptor(params, ret)
  }

  /** is_legal_method_signature */
  method IsLegalMethodSignature(r: Rules, s: Text, special: bool) returns (legal: bool)
    requires r.Valid() && IsText(s)
    ensures legal <==> LegalDescriptor(r, s, special)
  {
    legal := false;
    if At(s, 0) == FUNC {
      var p := 1;
      var next := SkipOverFieldSignature(r, s, p, false);
      while next >= 0
        invariant 1 <= p <= |s| && next == SkipField(r, s, p, false) && SkipAll(r, s, 1) == SkipAll(r, s, p)
        decreases |s| - p
      {
        p := next;
        next := SkipOverFieldSignature(r, s, p, false);
      }
      if At(s, p) == ENDFUNC {
        p := p + 1;
        if special {
          legal := At(s, p) == VOID && At(s, p + 1) == 0;
        } else {
          next := SkipOverFieldSignature(r, s, p, true);
          legal := next >= 0 && At(s, next) == 0;
        }
      }
    }
    if legal {
      Recognised(r, s, special);
    }
    if LegalDescriptor(r, s, special) {
      Recognises(r, s, special);
    }
  }

  /** What the recogniser looks at. */
  predicate Accepts(r: Rules, s: Text, special: bool)
    requires r.Valid()
  {
    && At(s, 0) == FUNC
    && var p := SkipAll(r, s, 1);
       At(s, p) == ENDFUNC &&
       if special then At(s, p + 1) == VOID && At(s, p + 2) == 0
       else p + 1 <= |s| && SkipField(r, s, p + 1, true) >= 0 && At(s, SkipField(r, s, p + 1, true)) == 0
  }

  lemma HasAll(s: Text)
    ensures forall w :: Has(s, 0, w) && |w| == |s| <==> s == w
  {
    assert s[0..|s|] == s;
  }

  /** The four parts of a method descriptor. */
  lemma HasDescriptor(s: Text, params: seq<FieldType>, ret: Return)
    ensures var p := 1 + |PrintedAll(params)|;
            s == Descriptor(params, ret) <==>
            At(s, 0) == FUNC && Has(s, 1, PrintedAll(params)) && At(s, p) == ENDFUNC
            && Has(s, p + 1, PrintedReturn(ret)) && |s| == p + 1 + |PrintedReturn(ret)|
  {
    var w, back := PrintedAll(params), PrintedReturn(ret);
    hide PrintedAll, PrintedReturn;
    HasAll(s);
    HasBoth(s, 0, [FUNC] + w + [ENDFUNC], back);
    HasBoth(s, 0, [FUNC] + w, [ENDFUNC]);
    HasBoth(s, 0, [FUNC], w);
    HasOne(s, 0, FUNC);
    HasOne(s, 1 + |w|, ENDFUNC);
    hide Has;
  }

  lemma Recognised(r: Rules, s: Text, special: bool)
    requires r.Valid() && IsText(s) && Accepts(r, s, special)
    ensures LegalDescriptor(r, s, special)
  {
    hide Has, SkipAll, SkipField, PrintedAll, Descriptor;
    var p := SkipAll(r, s, 1);
    var params := SkippedAreTypes(r, s, 1);
    if At(s, p + 1) == VOID {
      HasOne(s, p + 1, VOID);
      VoidEnds(r, s, p + 1);
      HasDescriptor(s, params, Void);
    } else {
      VoidOrField(r, s, p + 1);
      var t := SkippedIsPrinted(r, s, p + 1);
      HasDescriptor(s, params, Value(t));
    }
  }

  lemma VoidEnds(r: Rules, s: Text, p: nat)
    requires r.Valid() && IsText(s) && p < |s| && s[p] == VOID
    ensures SkipField(r, s, p, true) == p + 1 && (At(s, p + 1) == 0 <==> |s| == p + 1)
  {
  }

  lemma VoidOrField(r: Rules, s: Text, p: nat)
    requires r.Valid() && p <= |s| && At(s, p) != VOID
    ensures SkipField(r, s, p, true) == SkipField(r, s, p, false)
  {
  }

  lemma Recognises(r: Rules, s: Text, special: bool)
    requires r.Valid() && IsText(s) && LegalDescriptor(r, s, special)
    ensures Accepts(r, s, special)
  {
    var params, ret :| AllLegal(r, params) && LegalReturn(r, ret) && (special ==> ret == Void) && s == Descriptor(params, ret);
    HasDescriptor(s, params, ret);
    AllAreSkipped(r, s, 1, params);
    var p := SkipAll(r, s, 1);
    hide Has, SkipAll, PrintedAll, Descriptor;
    if ret.Void? {
      HasOne(s, p + 1, VOID);
      VoidEnds(r, s, p + 1);
    } else {
      PrintedIsSkipped(r, s, p + 1, ret.t, true);
    }
  }

  // ----- word counts -----

  function WordsOf(t: FieldType): nat {
    if t == Base(LONG) || t == Base(DOUBLE) then 2 else 1
  }

  function Words(ts: seq<FieldType>): nat {
    if ts == [] then 0 else WordsOf(ts[0]) + Words(ts[1..])
  }

  lemma HasSlice(s: Text, p: nat, q: nat)
    requires p <= q <= |s|
    ensures Has(s, p, s[p..q])
  {
  }

  /** Where the next `;` is. */
  function NextEnd(s: Text, p: nat): (q: nat)
    ensures p <= q && (q < |s| ==> s[q] == ENDCLASS)
    decreases |s| - p
  {
    if p >= |s| || s[p] == ENDCLASS then p else NextEnd(s, p + 1)
  }

  lemma {:induction false} NextEndIs(s: Text, p: nat, q: nat)
    requires p <= q < |s| && s[q] == ENDCLASS && forall i | p <= i < q :: s[i] != ENDCLASS
    ensures NextEnd(s, p) == q
    decreases q - p
  {
    if p < q {
      NextEndIs(s, p + 1, q);
    }
  }

  lemma ClassEnds(r: Rules, s: Text, p: nat, n: Text)
    requires r.Valid() && LegalName(r, n) && Has(s, p, n) && p + |n| < |s| && s[p + |n|] == ENDCLASS
    ensures NextEnd(s, p) == p + |n|
  {
    EndIsNoName(r);
    forall i | p <= i < p + |n| ensures s[i] != ENDCLASS {
      assert s[i] == s[p..p + |n|][i - p];
    }
    NextEndIs(s, p, p + |n|);
  }

  /** The place just past the type at p when its end is found as Signature2ArgsSize finds it. */
  lemma {:induction false} EndOfType(r: Rules, s: Text, p: nat, t: FieldType)
    requires r.Valid() && Legal(r, t) && Has(s, p, Printed(t))
    ensures p < |s|
    ensures t.Base? ==> s[p] == t.letter && |Printed(t)| == 1
    ensures t.Class? ==> s[p] == CLASS && p + |Printed(t)| == NextEnd(s, p) + 1 <= |s|
    ensures t.Array? ==> s[p] == ARRAY && Has(s, p + 1, Printed(t.element))
  {
    match t {
      case Base(c) => HasOne(s, p, c);
      case Class(n) =>
        HasBoth(s, p, [CLASS] + n, [ENDCLASS]);
        HasBoth(s, p, [CLASS], n);
        HasOne(s, p, CLASS);
        HasOne(s, p + 1 + |n|, ENDCLASS);
        ClassEnds(r, s, p + 1, n);
      case Array(e) =>
        HasBoth(s, p, [ARRAY], Printed(e));
        HasOne(s, p, ARRAY);
    }
  }

  /** To the next `;`, or to the end. */
  method FindEnd(s: Text, start: nat) returns (p: nat)
    requires start <= |s|
    ensures p == NextEnd(s, start) <= |s|
  {
    p := start;
    while p < |s| && s[p] != ENDCLASS
      invariant start <= p <= |s| && NextEnd(s, start) == NextEnd(s, p)
    {
      p := p + 1;
    }
  }

  lemma {:induction false} WordsEnd(ts: seq<FieldType>, n: nat)
    requires n < |ts|
    ensures Words(ts[..n + 1]) == Words(ts[..n]) + WordsOf(ts[n])
    ensures PrintedAll(ts[..n + 1]) == PrintedAll(ts[..n]) + Printed(ts[n])
  {
    if n == 0 {
      assert ts[..1] == [ts[0]] && ts[..0] == [];
      assert PrintedAll([ts[0]]) == Printed(ts[0]) + PrintedAll([ts[0]][1..]);
    } else {
      WordsEnd(ts[1..], n - 1);
      assert ts[..n + 1][1..] == ts[1..][..n] && ts[..n][1..] == ts[1..][..n - 1];
      Regroup(Printed(ts[0]), PrintedAll(ts[1..][..n - 1]), Printed(ts[n]));
    }
  }

  lemma Regroup(a: Text, b: Text, c: Text)
    ensures a + (b + c) == a + b + c
  {
  }

  lemma {:induction false} PrintedSplit(ts: seq<FieldType>, n: nat)
    requires n <= |ts|
    ensures PrintedAll(ts) == PrintedAll(ts[..n]) + PrintedAll(ts[n..])
  {
    if n == 0 {
      assert ts[0..] == ts;
    } else {
      PrintedSplit(ts, n - 1);
      WordsEnd(ts, n - 1);
      assert ts[n - 1..][1..] == ts[n..];
      Regroup(PrintedAll(ts[..n - 1]), Printed(ts[n - 1]), PrintedAll(ts[n..]));
    }
  }

  /** Parameter n stands behind the parameters before it; behind all of them is the closing parenthesis. */
  lemma ParameterAt(s: Text, params: seq<FieldType>, ret: Return, n: nat)
    requires s == Descriptor(params, ret) && n <= |params|
    ensures var p := 1 + |PrintedAll(params[..n])|;
            && p < |s| && (n == |params| ==> s[p] == ENDFUNC)
            && (n < |params| ==> Has(s, p, Printed(params[n])) && p + |Printed(params[n])| < |s|)
  {
    HasDescriptor(s, params, ret);
    PrintedSplit(params, n);
    var w := PrintedAll(params);
    HasBoth(s, 1, PrintedAll(params[..n]), PrintedAll(params[n..]));
    if n == |params| {
      assert params[..n] == params;
    } else {
      HasBoth(s, 1 + |PrintedAll(params[..n])|, Printed(params[n]), PrintedAll(params[n..][1..]));
    }
  }

  lemma NoParenthesis(r: Rules, s: Text, p: nat, t: FieldType)
    requires r.Valid() && Legal(r, t) && Has(s, p, Printed(t))
    ensures p < |s| && s[p] != ENDFUNC && s[p] != FUNC
    ensures t.Base? <==> s[p] != CLASS && s[p] != ARRAY
  {
    EndOfType(r, s, p, t);
  }

  // ----- Signature2ArgsSize, which is given texts that nothing has checked -----

  /** A size, 0 for an error; a panic; or it reads on behind the terminating zero. */
  datatype ArgsSize = Size(n: nat) | NoFloatingPoint | RunsOver

  function PastBrackets(s: Text, p: nat): (q: nat)
    requires p <= |s|
    ensures p <= q <= |s|
    decreases |s| - p
  {
    if p < |s| && s[p] == ARRAY then PastBrackets(s, p + 1) else p
  }

  /** The last character of what is taken for a parameter; the end of the text when there is none. */
  function LastOf(s: Text, p: nat): (q: nat)
    requires p < |s|
    ensures p <= q
  {
    if s[p] == CLASS then NextEnd(s, p)
    else if s[p] == ARRAY then
      var q := PastBrackets(s, p);
      if q < |s| && s[q] == CLASS then NextEnd(s, q) else q
    else p
  }

  predicate IsParameter(c: nat) {
    c in {BYTE, CHAR, DOUBLE, FLOAT, INT, LONG, SHORT, BOOLEAN, CLASS, ARRAY}
  }

  function ArgsFrom(r: Rules, s: Text, p: nat, size: nat): ArgsSize
    requires p <= |s|
    decreases |s| - p
  {
    if p == |s| then Size(0)
    else if s[p] == ENDFUNC then Size(size)
    else if s[p] == FUNC then ArgsFrom(r, s, p + 1, size)
    else if !IsParameter(s[p]) then Size(0)
    else if (s[p] == FLOAT || s[p] == DOUBLE) && !r.floats then NoFloatingPoint
    else if LastOf(s, p) >= |s| then RunsOver
    else ArgsFrom(r, s, LastOf(s, p) + 1, size + if s[p] == LONG || s[p] == DOUBLE then 2 else 1)
  }

  /** Signature2ArgsSize of any text. */
  method Signature2ArgsSize(r: Rules, s: Text) returns (argsSize: ArgsSize)
    ensures argsSize == ArgsFrom(r, s, 0, 0)
  {
    var p, size := 0, 0;
    while p < |s| && s[p] != ENDFUNC
      invariant 0 <= p <= |s| && ArgsFrom(r, s, 0, 0) == ArgsFrom(r, s, p, size)
    {
      var c := s[p];
      if c == CLASS || c == ARRAY {
        var first := p;
        while p < |s| && s[p] == ARRAY
          invariant first <= p <= |s| && PastBrackets(s, first) == PastBrackets(s, p)
        {
          p := p + 1;
        }
        if p < |s| && s[p] == CLASS {
          p := FindEnd(s, p);
        }
        if p == |s| {
          return RunsOver;
        }
        size := size + 1;
      } else if c == LONG || c == DOUBLE || c == FLOAT {
        if c != LONG && !r.floats {
          return NoFloatingPoint;
        }
        size := size + if c == FLOAT then 1 else 2;
      } else if IsParameter(c) {
        size := size + 1;
      } else if c != FUNC {
        return Size(0);
      }
      p := p + 1;
    }
    argsSize := Size(if p < |s| then size else 0);
  }

  lemma {:induction false} EndPastBrackets(r: Rules, s: Text, p: nat, t: FieldType)
    requires r.Valid() && Legal(r, t) && Has(s, p, Printed(t))
    ensures p < |s| && var q := PastBrackets(s, p);
                       && q < |s| && s[q] != ARRAY
                       && (if s[q] == CLASS then NextEnd(s, q) else q) + 1 == p + |Printed(t)| <= |s|
    decreases t
  {
    EndOfType(r, s, p, t);
    if t.Array? {
      EndPastBrackets(r, s, p + 1, t.element);
    }
  }

  lemma LegalParameter(r: Rules, s: Text, p: nat, t: FieldType)
    requires r.Valid() && Legal(r, t) && Has(s, p, Printed(t))
    ensures p < |s| && LastOf(s, p) + 1 == p + |Printed(t)| <= |s| && IsParameter(s[p])
    ensures (s[p] == FLOAT || s[p] == DOUBLE) ==> r.floats
    ensures WordsOf(t) == if s[p] == LONG || s[p] == DOUBLE then 2 else 1
  {
    EndOfType(r, s, p, t);
    EndPastBrackets(r, s, p, t);
  }

  /** Of a legal descriptor it is the number of words of the parameters. */
  lemma LegalArgsSize(r: Rules, params: seq<FieldType>, ret: Return)
    requires r.Valid() && AllLegal(r, params)
    ensures ArgsFrom(r, Descriptor(params, ret), 0, 0) == Size(Words(params))
  {
    hide Has, PrintedAll, Words, Legal, Descriptor;
    var s := Descriptor(params, ret);
    EmptyPrefix(params);
    ParameterAt(s, params, ret, 0);
    StartsWithParenthesis(params, ret);
    ArgsOfParameters(r, params, ret, 0);
  }

  lemma StartsWithParenthesis(params: seq<FieldType>, ret: Return)
    ensures Descriptor(params, ret) != [] && Descriptor(params, ret)[0] == FUNC
  {
  }

  lemma {:induction false} ArgsOfParameters(r: Rules, params: seq<FieldType>, ret: Return, n: nat)
    requires r.Valid() && AllLegal(r, params) && n <= |params|
    ensures var s, p := Descriptor(params, ret), 1 + |PrintedAll(params[..n])|;
            p <= |s| && ArgsFrom(r, s, p, Words(params[..n])) == Size(Words(params))
    decreases |params| - n
  {
    hide Has, PrintedAll, Descriptor, Words, Legal, WordsOf, LastOf;
    var s, p := Descriptor(params, ret), 1 + |PrintedAll(params[..n])|;
    ParameterAt(s, params, ret, n);
    if n == |params| {
      assert params[..n] == params;
    } else {
      NoParenthesis(r, s, p, params[n]);
      LegalParameter(r, s, p, params[n]);
      WordsEnd(params, n);
      ArgsOfParameters(r, params, ret, n + 1);
    }
  }

  /** The loop over the parameters ends at the closing parenthesis and not before. */
  lemma ParenthesisEnds(r: Rules, s: Text, params: seq<FieldType>, ret: Return, n: nat)
    requires r.Valid() && AllLegal(r, params) && s == Descriptor(params, ret) && n <= |params|
    ensures var p := 1 + |PrintedAll(params[..n])|; p < |s| && (s[p] == ENDFUNC <==> n == |params|)
  {
    ParameterAt(s, params, ret, n);
    if n < |params| {
      NoParenthesis(r, s, 1 + |PrintedAll(params[..n])|, params[n]);
    }
  }

  lemma EmptyPrefix(params: seq<FieldType>)
    ensures params[..0] == [] && PrintedAll([]) == [] && Words([]) == 0
  {
  }

  // ----- arguments as the verifier sees them -----

  /** Half of a register's content: the second word of a long or double is marked as such. */
  datatype Half = First(t: FieldType) | Second(t: FieldType)

  function RegistersOf(ts: seq<FieldType>): (h: seq<Half>)
    ensures |h| == Words(ts)
  {
    if ts == [] then []
    else (if WordsOf(ts[0]) == 2 then [First(ts[0]), Second(ts[0])] else [First(ts[0])]) + RegistersOf(ts[1..])
  }

  /** The operand letters of pop_stack: L for a long, A for references. */
  function OperandLetter(t: FieldType): nat {
    match t
    case Base(c) => if c == LONG then CLASS else if c == FLOAT || c == DOUBLE then c else INT
    case Class(_) => 65
    case Array(_) => 65
  }

  function LetterSize(c: nat): nat {
    if c == DOUBLE || c == CLASS then 2 else 1
  }

  function Letters(ts: seq<FieldType>): (letters: seq<nat>)
    ensures |letters| == |ts|
  {
    seq(|ts|, k requires 0 <= k < |ts| => OperandLetter(ts[k]))
  }

  /** The stack words that operands of these letters take. */
  function PoppedWords(letters: seq<nat>): nat {
    if letters == [] then 0 else LetterSize(letters[0]) + PoppedWords(letters[1..])
  }

  /** signature_to_fieldtype: the type of the descriptor at p, its operand letter and what follows. */
  method SignatureToFieldtype(r: Rules, s: Text, start: nat, ghost t: FieldType) returns (result: FieldType, letter: nat, p: nat)
    requires r.Valid() && Legal(r, t) && Has(s, start, Printed(t))
    ensures result == t && letter == OperandLetter(t) && p == start + |Printed(t)|
  {
    hide Has, IsBase, LegalName, NextEnd;
    p := start;
    var depth := 0;
    ghost var e := t;
    EndOfType(r, s, p, e);
    while s[p] == ARRAY
      invariant p < |s| && Legal(r, e) && Has(s, p, Printed(e)) && p + |Printed(e)| == start + |Printed(t)|
      invariant Nested(e, depth) == t && (depth > 0 ==> t.Array?)
      decreases |s| - p
    {
      NoParenthesis(r, s, p, e);
      EndOfType(r, s, p, e);
      p, e, depth := p + 1, e.element, depth + 1;
      EndOfType(r, s, p, e);
    }
    EndOfType(r, s, p, e);
    NoParenthesis(r, s, p, e);
    if s[p] == CLASS {
      var finish := FindEnd(s, p);
      NameOf(s, p, e);
      result := Class(s[p + 1..finish]);
      p := finish + 1;
    } else {
      result := Base(s[p]);
      p := p + 1;
    }
    letter := if depth > 0 then 65 else OperandLetter(result);
    result := Nested(result, depth);
  }

  /** Array types of a given depth. */
  function Nested(t: FieldType, depth: nat): FieldType
    decreases depth
  {
    if depth == 0 then t else Nested(Array(t), depth - 1)
  }

  lemma NameOf(s: Text, p: nat, t: FieldType)
    requires t.Class? && Has(s, p, Printed(t))
    ensures p + 2 + |t.name| <= |s| && s[p + 1..p + 1 + |t.name|] == t.name
  {
    HasBoth(s, p, [CLASS] + t.name, [ENDCLASS]);
    HasBoth(s, p, [CLASS], t.name);
  }

  /**
   The argument part of initialize_dataflow: the registers that Signature2ArgsSize has
   asked for are filled exactly.
   */
  method FillArguments(r: Rules, s: Text, argsSize: nat, ghost params: seq<FieldType>, ghost ret: Return) returns (registers: seq<Half>)
    requires r.Valid() && AllLegal(r, params) && s == Descriptor(params, ret) && argsSize == Words(params)
    ensures registers == RegistersOf(params) && |registers| == argsSize == PoppedWords(Letters(params))
  {
    registers := [];
    hide Has, PrintedAll, Descriptor, Words, Legal, WordsOf, Printed;
    var p := 1;
    ghost var n := 0;
    EmptyPrefix(params);
    NoRegisters();
    ParenthesisEnds(r, s, params, ret, 0);
    while s[p] != ENDFUNC
      invariant n <= |params| && p == 1 + |PrintedAll(params[..n])| && registers == RegistersOf(params[..n])
      invariant p < |s| && (s[p] == ENDFUNC <==> n == |params|)
      decreases |params| - n
    {
      ParameterAt(s, params, ret, n);
      WordsEnd(params, n);
      RegistersEnd(params, n);
      var t, letter;
      t, letter, p := SignatureToFieldtype(r, s, p, params[n]);
      LetterIsWords(t);
      if letter == DOUBLE || letter == CLASS {
        registers := registers + [First(t), Second(t)];
      } else {
        registers := registers + [First(t)];
      }
      n := n + 1;
      ParenthesisEnds(r, s, params, ret, n);
    }
    assert params[..|params|] == params;
    PoppedAreWords(params);
  }

  lemma NoRegisters()
    ensures RegistersOf([]) == []
  {
  }

  lemma {:induction false} RegistersEnd(ts: seq<FieldType>, n: nat)
    requires n < |ts|
    ensures RegistersOf(ts[..n + 1]) == RegistersOf(ts[..n]) + if WordsOf(ts[n]) == 2 then [First(ts[n]), Second(ts[n])] else [First(ts[n])]
  {
    if n == 0 {
      assert ts[..1] == [ts[0]] && ts[..0] == [];
      assert RegistersOf([ts[0]][1..]) == [];
    } else {
      RegistersEnd(ts[1..], n - 1);
      assert ts[..n + 1][1..] == ts[1..][..n] && ts[..n][1..] == ts[1..][..n - 1];
    }
  }

  lemma LetterIsWords(t: FieldType)
    ensures LetterSize(OperandLetter(t)) == WordsOf(t)
    ensures OperandLetter(t) == DOUBLE || OperandLetter(t) == CLASS <==> WordsOf(t) == 2
  {
  }

  /** The words popped by an invoke are the words of the parameters. */
  lemma {:induction false} PoppedAreWords(ts: seq<FieldType>)
    ensures PoppedWords(Letters(ts)) == Words(ts)
  {
    if ts != [] {
      LetterIsWords(ts[0]);
      assert Letters(ts)[1..] == Letters(ts[1..]);
      PoppedAreWords(ts[1..]);
    }
  }

  /** The letters fill at most this much of the buffer of pop_stack. */
  const MOST_OPERANDS: nat := 255

  /**
   The operand string that pop_stack makes for an invoke; `receiver` is the letter of the
   object, if any.  None stands for too many arguments.
   */
  method OperandString(r: Rules, s: Text, receiver: seq<nat>, ghost params: seq<FieldType>, ghost ret: Return) returns (operands: seq<nat>, ok: bool)
    requires r.Valid() && AllLegal(r, params) && s == Descriptor(params, ret) && |receiver| <= 1
    ensures ok <==> |receiver| + |params| <= MOST_OPERANDS
    ensures ok ==> operands == receiver + Letters(params) && PoppedWords(operands[|receiver|..]) == Words(params)
  {
    operands, ok := receiver, true;
    hide Has, PrintedAll, Descriptor, Words, Legal, WordsOf, Printed, PoppedWords;
    var p := 1;
    ghost var n := 0;
    EmptyPrefix(params);
    ParenthesisEnds(r, s, params, ret, 0);
    while s[p] != ENDFUNC
      invariant n <= |params| && p == 1 + |PrintedAll(params[..n])| && operands == receiver + Letters(params[..n])
      invariant p < |s| && (s[p] == ENDFUNC <==> n == |params|) && |receiver| + n <= MOST_OPERANDS
      decreases |params| - n
    {
      ParameterAt(s, params, ret, n);
      WordsEnd(params, n);
      var t, letter;
      t, letter, p := SignatureToFieldtype(r, s, p, params[n]);
      operands := operands + [letter];
      assert Letters(params[..n + 1]) == Letters(params[..n]) + [letter];
      n := n + 1;
      if |operands| >= MOST_OPERANDS + 1 {
        return operands, false;
      }
      ParenthesisEnds(r, s, params, ret, n);
    }
    assert params[..|params|] == params;
    assert operands[|receiver|..] == Letters(params);
    PoppedAreWords(params);
  }
}
