/** The first loop of merge_stack, which walks along the recorded items and does not look for the end of the others. */
module MergeLoops {
  import opened Types
  import opened Bytecode
  import opened Merging

  /** Where the loop stops, from item k on; None when it reads an item that is not there. */
  function FirstLoop(before: seq<Type>, incoming: seq<Type>, k: nat): Option<nat>
    requires k <= |before|
    decreases |before| - k
  {
    if k == |before| then Some(k)
    else if k >= |incoming| then None
    else if !IsAssignableTo(incoming[k], before[k]) then Some(k)
    else FirstLoop(before, incoming, k + 1)
  }

  /** Usable items only take items of their own size. */
  lemma SameWords(from: Type, to: Type)
    requires IsAssignableTo(from, to) && !to.Bogus?
    ensures Words(from) == Words(to)
  {
  }

  lemma {:induction false} PassesExactly(before: seq<Type>, incoming: seq<Type>, k: nat)
    requires k <= |before| && k <= |incoming|
    ensures FirstLoop(before, incoming, k) == Some(|before|) <==>
            |before| <= |incoming| && forall n | k <= n < |before| :: IsAssignableTo(incoming[n], before[n])
    ensures FirstLoop(before, incoming, k).None? <==>
            |incoming| < |before| && forall n | k <= n < |incoming| :: IsAssignableTo(incoming[n], before[n])
    decreases |before| - k
  {
    hide IsAssignableTo;
    if k < |before| && k < |incoming| && IsAssignableTo(incoming[k], before[k]) {
      PassesExactly(before, incoming, k + 1);
    }
  }

  lemma {:induction false} CommonWords(a: seq<Type>, b: seq<Type>)
    requires |a| <= |b| && forall n | 0 <= n < |a| :: Words(a[n]) == Words(b[n])
    ensures StackWords(b) >= StackWords(a) + |b| - |a|
    decreases |b|
  {
    hide Words;
    if a != [] {
      CommonWords(a[1..], b[1..]);
    } else if b != [] {
      CommonWords(a, b[1..]);
      AtLeastOne(b[0]);
    }
  }

  lemma AtLeastOne(t: Type)
    ensures Words(t) >= 1
  {
  }

  /**
   For stacks of the same height, of which the recorded one has no unusable item, the loop
   never reads an item that is not there, and it passes all of them exactly if both have
   the same number of items and each can be assigned.
   */
  lemma ReadsInside(before: seq<Type>, incoming: seq<Type>)
    requires StackWords(incoming) == StackWords(before) && Bogus !in before
    ensures FirstLoop(before, incoming, 0).Some?
    ensures FirstLoop(before, incoming, 0) == Some(|before|) <==> |incoming| == |before| && Assignable(incoming, before)
  {
    PassesExactly(before, incoming, 0);
    var common := if |before| <= |incoming| then |before| else |incoming|;
    if forall n | 0 <= n < common :: IsAssignableTo(incoming[n], before[n]) {
      forall n | 0 <= n < common ensures Words(incoming[n]) == Words(before[n]) {
        assert before[n] in before;
        SameWords(incoming[n], before[n]);
      }
      hide IsAssignableTo, Words, FirstLoop, StackWords;
      if |before| <= |incoming| {
        CommonWords(before, incoming);
      } else {
        CommonWords(incoming, before);
      }
    }
  }

  /** Two unusable items and a long take the same words: the loop goes on behind the long. */
  lemma ReadsMissingItem()
    ensures StackWords([Bogus, Bogus]) == StackWords([Long]) && FirstLoop([Bogus, Bogus], [Long], 0).None?
  {
    PassesExactly([Bogus, Bogus], [Long], 0);
    assert [Bogus, Bogus][1..] == [Bogus] && [Bogus][1..] == [] && [Long][1..] == [];
  }
}
