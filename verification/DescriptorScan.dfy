/** What Signature2ArgsSize makes of texts that nothing has checked, and which of them it runs over. */
module DescriptorScan {
  import opened Descriptors

  predicate Brackets(t: Text) {
    forall i | 0 <= i < |t| :: t[i] == ARRAY
  }

  /** An L and all up to the next semicolon. */
  predicate IsClassItem(t: Text) {
    |t| >= 2 && t[0] == CLASS && t[|t| - 1] == ENDCLASS && forall i | 0 <= i < |t| - 1 :: t[i] != ENDCLASS
  }

  /** k brackets, and behind them a class or any other character. */
  predicate IsArrayItem(t: Text, k: nat) {
    0 < k < |t| && Brackets(t[..k]) && t[k] != ARRAY && if t[k] == CLASS then IsClassItem(t[k..]) else |t| == k + 1
  }

  predicate IsLetterItem(r: Rules, t: Text) {
    |t| == 1 && IsParameter(t[0]) && t[0] != CLASS && t[0] != ARRAY && (t[0] == FLOAT || t[0] == DOUBLE ==> r.floats)
  }

  /** An opening parenthesis, or what is taken for a parameter. */
  predicate IsItem(r: Rules, t: Text) {
    t == [FUNC] || IsLetterItem(r, t) || IsClassItem(t) || exists k: nat | k < |t| :: IsArrayItem(t, k)
  }

  function ItemWords(t: Text): nat {
    if t == [FUNC] then 0 else if t == [LONG] || t == [DOUBLE] then 2 else 1
  }

  predicate AllItems(r: Rules, items: seq<Text>) {
    forall i | 0 <= i < |items| :: IsItem(r, items[i])
  }

  function Flatten(items: seq<Text>): Text {
    if items == [] then [] else items[0] + Flatten(items[1..])
  }

  function WordsOfItems(items: seq<Text>): nat {
    if items == [] then 0 else ItemWords(items[0]) + WordsOfItems(items[1..])
  }

  /** A parameter that the text breaks off: brackets up to the end, or an L, in brackets or not, with no semicolon behind it. */
  predicate CutOffAt(t: Text, k: nat) {
    k <= |t| && t != [] && Brackets(t[..k]) && (k == |t| || (t[k] == CLASS && forall i | k <= i < |t| :: t[i] != ENDCLASS))
  }

  predicate CutOff(t: Text) {
    exists k: nat | k <= |t| :: CutOffAt(t, k)
  }

  predicate Float(c: nat) {
    c == FLOAT || c == DOUBLE
  }

  /** The loop stops here: at the end, at a closing parenthesis, or at something it cannot take. */
  predicate Stops(r: Rules, u: Text) {
    || u == [] || u[0] == ENDFUNC || (u[0] != FUNC && !IsParameter(u[0])) || (Float(u[0]) && !r.floats) || CutOff(u)
  }

  /** What comes of it. */
  function Ending(r: Rules, u: Text, words: nat): ArgsSize {
    if u == [] then Size(0)
    else if u[0] == ENDFUNC then Size(words)
    else if !IsParameter(u[0]) then Size(0)
    else if Float(u[0]) && !r.floats then NoFloatingPoint
    else RunsOver
  }

  // ----- where an item ends -----

  lemma {:induction false} NextEndIsFirst(s: Text, p: nat)
    ensures forall i | p <= i < NextEnd(s, p) && i < |s| :: s[i] != ENDCLASS
    ensures p <= |s| ==> NextEnd(s, p) <= |s|
    decreases |s| - p
  {
    if p < |s| && s[p] != ENDCLASS {
      NextEndIsFirst(s, p + 1);
    }
  }

  lemma {:induction false} PastBracketsIs(s: Text, p: nat)
    requires p <= |s|
    ensures var q := PastBrackets(s, p); (q < |s| ==> s[q] != ARRAY) && forall i | p <= i < q :: s[i] == ARRAY
    decreases |s| - p
  {
    if p < |s| && s[p] == ARRAY {
      PastBracketsIs(s, p + 1);
    }
  }

  lemma {:induction false} PastBracketsExactly(s: Text, p: nat, q: nat)
    requires p <= q <= |s| && (forall i | p <= i < q :: s[i] == ARRAY) && (q < |s| ==> s[q] != ARRAY)
    ensures PastBrackets(s, p) == q
    decreases q - p
  {
    if p < q {
      PastBracketsExactly(s, p + 1, q);
    }
  }

  lemma ClassEndsAt(s: Text, p: nat, q: nat)
    requires p < q <= |s| && IsClassItem(s[p..q])
    ensures NextEnd(s, p) + 1 == q && s[p] == CLASS
  {
    var t := s[p..q];
    assert forall i | p <= i < q :: s[i] == t[i - p];
    NextEndIs(s, p, q - 1);
  }

  /** The loop takes an item as a whole. */
  lemma TakesItem(r: Rules, s: Text, p: nat, q: nat, words: nat)
    requires p < q <= |s| && IsItem(r, s[p..q])
    ensures ArgsFrom(r, s, p, words) == ArgsFrom(r, s, q, words + ItemWords(s[p..q]))
  {
    var t := s[p..q];
    assert t[0] == s[p];
    if t == [FUNC] {
    } else if IsLetterItem(r, t) {
      assert t == [s[p]];
    } else if IsClassItem(t) {
      ClassEndsAt(s, p, q);
    } else {
      var k: nat :| k < |t| && IsArrayItem(t, k);
      ArrayEndsAt(s, p, q, k);
    }
  }

  lemma ArrayEndsAt(s: Text, p: nat, q: nat, k: nat)
    requires p < q <= |s| && IsArrayItem(s[p..q], k)
    ensures s[p] == ARRAY && LastOf(s, p) + 1 == q
  {
    var t := s[p..q];
    assert forall i | p <= i < q :: s[i] == t[i - p];
    assert forall i | p <= i < p + k :: s[i] == t[..k][i - p];
    PastBracketsExactly(s, p, p + k);
    if t[k] == CLASS {
      assert t[k..] == s[p + k..q];
      ClassEndsAt(s, p + k, q);
    }
  }

  lemma CutOffRunsOver(r: Rules, s: Text, p: nat, words: nat)
    requires p <= |s| && CutOff(s[p..])
    ensures p < |s| && (s[p] == CLASS || s[p] == ARRAY) && ArgsFrom(r, s, p, words) == RunsOver
  {
    var u := s[p..];
    var k: nat :| k <= |u| && CutOffAt(u, k);
    assert forall i | p <= i < |s| :: s[i] == u[i - p];
    assert forall i | p <= i < p + k :: s[i] == u[..k][i - p];
    PastBracketsExactly(s, p, p + k);
    NextEndIsFirst(s, p + k);
  }

  lemma StopsThere(r: Rules, s: Text, p: nat, words: nat)
    requires p <= |s| && Stops(r, s[p..])
    ensures ArgsFrom(r, s, p, words) == Ending(r, s[p..], words)
  {
    hide CutOff, LastOf;
    if CutOff(s[p..]) {
      CutOffRunsOver(r, s, p, words);
    }
  }

  lemma {:induction false} Scans(r: Rules, before: Text, items: seq<Text>, rest: Text, words: nat)
    requires AllItems(r, items) && Stops(r, rest)
    ensures ArgsFrom(r, before + Flatten(items) + rest, |before|, words) == Ending(r, rest, words + WordsOfItems(items))
    decreases |items|
  {
    hide ArgsFrom, Stops, Ending, IsItem, ItemWords;
    var s, p := before + Flatten(items) + rest, |before|;
    if items == [] {
      assert s[p..] == rest;
      StopsThere(r, s, p, words);
    } else {
      var q := p + |items[0]|;
      assert s[p..q] == items[0];
      ItemNotEmpty(r, items[0]);
      TakesItem(r, s, p, q, words);
      Scans(r, before + items[0], items[1..], rest, words + ItemWords(items[0]));
      assert before + items[0] + Flatten(items[1..]) + rest == s;
    }
  }

  lemma ItemNotEmpty(r: Rules, t: Text)
    requires IsItem(r, t)
    ensures t != []
  {
  }

  // ----- every text is such items and a stop -----

  lemma FirstItem(r: Rules, s: Text) returns (q: nat)
    requires !Stops(r, s)
    ensures 0 < q <= |s| && IsItem(r, s[..q])
  {
    if s[0] == FUNC {
      q := 1;
      assert s[..1] == [FUNC];
    } else if s[0] == CLASS {
      q := NextEnd(s, 0) + 1;
      NextEndIsFirst(s, 0);
      assert s[..0] == [];
      assert !CutOffAt(s, 0);
      assert IsClassItem(s[..q]);
    } else if s[0] == ARRAY {
      q := FirstArray(r, s);
    } else {
      q := 1;
      assert IsLetterItem(r, s[..1]);
    }
  }

  lemma FirstArray(r: Rules, s: Text) returns (q: nat)
    requires !Stops(r, s) && s[0] == ARRAY
    ensures 0 < q <= |s| && IsItem(r, s[..q])
  {
    var k := PastBrackets(s, 0);
    PastBracketsIs(s, 0);
    assert 0 < k;
    assert !CutOffAt(s, k);
    if s[k] == CLASS {
      q := NextEnd(s, k) + 1;
      NextEndIsFirst(s, k);
      assert s[..q][k..] == s[k..q] && s[..q][..k] == s[..k];
      assert IsClassItem(s[k..q]);
    } else {
      q := k + 1;
      assert s[..q][..k] == s[..k];
    }
    assert IsArrayItem(s[..q], k);
  }

  lemma {:induction false} Splits(r: Rules, s: Text) returns (items: seq<Text>, rest: Text)
    ensures s == Flatten(items) + rest && AllItems(r, items) && Stops(r, rest)
    decreases |s|
  {
    if Stops(r, s) {
      items, rest := [], s;
    } else {
      var q := FirstItem(r, s);
      var more;
      more, rest := Splits(r, s[q..]);
      items := [s[..q]] + more;
      assert items[1..] == more;
      assert s == s[..q] + s[q..];
    }
  }

  // ----- the theorem -----

  /** Items, and behind them a parameter that is cut off. */
  ghost predicate EndsInside(r: Rules, s: Text) {
    exists items: seq<Text>, rest: Text :: AllItems(r, items) && CutOff(rest) && s == Flatten(items) + rest
  }

  /** Items, and behind them a closing parenthesis. */
  ghost predicate Counts(r: Rules, s: Text, n: nat) {
    exists items: seq<Text>, rest: Text ::
      AllItems(r, items) && rest != [] && rest[0] == ENDFUNC && s == Flatten(items) + rest && WordsOfItems(items) == n
  }

  /**
   Signature2ArgsSize reads on behind a text if and only if the text is complete items up
   to one that it breaks off.  It gives a size that is not 0 if and only if the items end at
   a closing parenthesis, and then their words.
   */
  lemma ScanExactly(r: Rules, s: Text, n: nat)
    requires n > 0
    ensures ArgsFrom(r, s, 0, 0) == RunsOver <==> EndsInside(r, s)
    ensures ArgsFrom(r, s, 0, 0) == Size(n) <==> Counts(r, s, n)
  {
    hide ArgsFrom, AllItems, CutOff;
    var items, rest := Splits(r, s);
    Scanned(r, items, rest);
    if ArgsFrom(r, s, 0, 0) == RunsOver {
      OverIsCutOff(r, rest, WordsOfItems(items));
    }
    forall items: seq<Text>, rest: Text | AllItems(r, items) && CutOff(rest) && s == Flatten(items) + rest
      ensures ArgsFrom(r, s, 0, 0) == RunsOver
    {
      CutOffStarts(rest);
      Scanned(r, items, rest);
    }
    forall items: seq<Text>, rest: Text |
        AllItems(r, items) && rest != [] && rest[0] == ENDFUNC && s == Flatten(items) + rest && WordsOfItems(items) == n
      ensures ArgsFrom(r, s, 0, 0) == Size(n)
    {
      Scanned(r, items, rest);
    }
  }

  lemma Scanned(r: Rules, items: seq<Text>, rest: Text)
    requires AllItems(r, items) && Stops(r, rest)
    ensures ArgsFrom(r, Flatten(items) + rest, 0, 0) == Ending(r, rest, WordsOfItems(items))
  {
    Scans(r, [], items, rest, 0);
    assert [] + Flatten(items) + rest == Flatten(items) + rest;
  }

  lemma CutOffStarts(t: Text)
    requires CutOff(t)
    ensures t != [] && (t[0] == CLASS || t[0] == ARRAY)
  {
    var k: nat :| k <= |t| && CutOffAt(t, k);
    assert k > 0 ==> t[..k][0] == t[0];
  }

  lemma OverIsCutOff(r: Rules, u: Text, words: nat)
    requires Stops(r, u) && Ending(r, u, words) == RunsOver
    ensures CutOff(u)
  {
    hide CutOff;
  }

  /** `(L` and `([` are such texts, and so is `(I[[Lx`. */
  lemma ShortTextsRunOver(r: Rules)
    ensures ArgsFrom(r, [FUNC, CLASS], 0, 0) == RunsOver && ArgsFrom(r, [FUNC, ARRAY], 0, 0) == RunsOver
    ensures ArgsFrom(r, [FUNC, INT, ARRAY, ARRAY, CLASS, 120], 0, 0) == RunsOver
  {
    OneRunsOver(r, [[FUNC]], [CLASS], 0);
    OneRunsOver(r, [[FUNC]], [ARRAY], 1);
    OneRunsOver(r, [[FUNC], [INT]], [ARRAY, ARRAY, CLASS, 120], 2);
    hide ArgsFrom;
    assert Flatten([[FUNC]]) == [FUNC];
    assert [[FUNC], [INT]][1..] == [[INT]] && Flatten([[INT]]) == [INT];
    assert Flatten([[FUNC], [INT]]) == [FUNC] + [INT] == [FUNC, INT];
    assert [FUNC] + [CLASS] == [FUNC, CLASS] && [FUNC] + [ARRAY] == [FUNC, ARRAY];
    assert [FUNC, INT] + [ARRAY, ARRAY, CLASS, 120] == [FUNC, INT, ARRAY, ARRAY, CLASS, 120];
  }

  lemma OneRunsOver(r: Rules, items: seq<Text>, rest: Text, k: nat)
    requires AllItems(r, items) && CutOffAt(rest, k)
    ensures ArgsFrom(r, Flatten(items) + rest, 0, 0) == RunsOver
  {
    hide ArgsFrom;
    CutOffStarts(rest);
    Scanned(r, items, rest);
  }
}
