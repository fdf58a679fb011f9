/** The string table of util.c: open addressing in chained tables, with the slot as the ID. */
module Interning {
  import opened Types

  const SIZE: nat := 2003
  /** HTOVERFLOWPOINT: four fifths of the slots. */
  const OVERFLOW_POINT: nat := 1602
  const LAST_BASE: nat := 30000

  /** The bytes of a C string, without the terminating zero; char is signed. */
  type Text = seq<int>

  /** default_hash: unsigned arithmetic modulo 2^32. */
  function RawHash(s: Text): (h: nat)
    ensures h < 0x1_0000_0000
  {
    if s == [] then 0 else (RawHash(s[..|s| - 1]) * 37 + s[|s| - 1]) % 0x1_0000_0000
  }

  function Step(s: Text): (d: nat)
    ensures 1 <= d <= 8
  {
    RawHash(s) % 8 + 1
  }

  function HashBits(s: Text): nat {
    RawHash(s) % 0x8000_0000
  }

  datatype Slot = Empty | Full(text: Text, hashBits: nat)

  datatype Bucket = Bucket(slots: seq<Slot>, used: nat, baseid: nat)

  // ----- the probe sequence -----

  function Next(i: nat, d: nat): nat
    requires i < SIZE && d <= 8
  {
    if i < d then i + SIZE - d else i - d
  }

  /** The k-th slot that is looked at, from slot a on with step d. */
  function Probe(a: nat, d: nat, k: nat): (i: nat)
    requires a < SIZE && d <= 8
    ensures i < SIZE
  {
    if k == 0 then a else Next(Probe(a, d, k - 1), d)
  }

  lemma {:induction false} ProbeForm(a: nat, d: nat, k: nat) returns (m: nat)
    requires a < SIZE && d <= 8
    ensures Probe(a, d, k) == a - k * d + m * SIZE
  {
    if k == 0 {
      m := 0;
    } else {
      m := ProbeForm(a, d, k - 1);
      assert k * d == (k - 1) * d + d;
      if Probe(a, d, k - 1) < d {
        m := m + 1;
      }
    }
  }

  /** No step from 1 to 8 has a multiple below SIZE steps that is a multiple of the prime SIZE. */
  lemma Coprime(d: nat, n: nat, m: int)
    requires 1 <= d <= 8 && n * d == m * SIZE && n < SIZE
    ensures n == 0
  {
    if d == 1 {
    } else if d == 2 {
    } else if d == 3 {
    } else if d == 4 {
    } else if d == 5 {
    } else if d == 6 {
    } else if d == 7 {
    } else {
      assert d == 8;
    }
  }

  /** A table is gone through without repetition. */
  lemma ProbesDiffer(a: nat, d: nat, k: nat, l: nat)
    requires a < SIZE && 1 <= d <= 8 && k < l && l - k < SIZE
    ensures Probe(a, d, k) != Probe(a, d, l)
  {
    var m := ProbeForm(a, d, k);
    var n := ProbeForm(a, d, l);
    if Probe(a, d, k) == Probe(a, d, l) {
      assert (l - k) * d == l * d - k * d;
      assert (n - m) * SIZE == n * SIZE - m * SIZE;
      Coprime(d, l - k, n - m);
    }
  }

  // ----- what a table keeps -----

  function FullSlots(slots: seq<Slot>): set<nat> {
    set i: nat | i < |slots| && slots[i].Full?
  }

  /** The text in slot i was put there after the k slots before it in its probe sequence were full. */
  predicate Chained(slots: seq<Slot>, i: nat, k: nat)
    requires |slots| == SIZE && i < SIZE && slots[i].Full?
  {
    var a, d := RawHash(slots[i].text) % SIZE, Step(slots[i].text);
    Probe(a, d, k) == i && forall m: nat | m < k :: slots[Probe(a, d, m)].Full?
  }

  ghost predicate BucketOk(b: Bucket) {
    && |b.slots| == SIZE && b.used == |FullSlots(b.slots)| <= OVERFLOW_POINT
    && forall i: nat | i < SIZE && b.slots[i].Full? ::
         b.slots[i].hashBits == HashBits(b.slots[i].text) && exists k: nat :: Chained(b.slots, i, k)
  }

  /** The slots looked at are full and none of them holds the text. */
  predicate Passed(slots: seq<Slot>, s: Text, k: nat)
    requires |slots| == SIZE
  {
    forall m: nat | m < k ::
      var i := Probe(RawHash(s) % SIZE, Step(s), m);
      slots[i].Full? && slots[i].text != s
  }

  /** A text that is in the table is found before an empty slot. */
  lemma FoundBeforeEmpty(b: Bucket, s: Text, k: nat, i: nat)
    requires BucketOk(b) && Passed(b.slots, s, k) && i < SIZE && b.slots[i] == Full(s, HashBits(s))
    ensures b.slots[Probe(RawHash(s) % SIZE, Step(s), k)].Full?
  {
    var n: nat :| Chained(b.slots, i, n);
  }

  ghost function Visited(s: Text, k: nat): set<nat> {
    set m: nat | m < k :: Probe(RawHash(s) % SIZE, Step(s), m)
  }

  lemma {:induction false} VisitedCount(s: Text, k: nat)
    requires k <= SIZE
    ensures |Visited(s, k)| == k
  {
    if k > 0 {
      VisitedCount(s, k - 1);
      var last := Probe(RawHash(s) % SIZE, Step(s), k - 1);
      assert Visited(s, k) == Visited(s, k - 1) + {last};
      if last in Visited(s, k - 1) {
        var m: nat :| m < k - 1 && Probe(RawHash(s) % SIZE, Step(s), m) == last;
        ProbesDiffer(RawHash(s) % SIZE, Step(s), m, k - 1);
      }
    }
  }

  lemma SubsetSmaller(a: set<nat>, b: set<nat>)
    requires a <= b
    ensures |a| <= |b|
  {
    assert b == a + (b - a);
  }

  /** A probe ends: it cannot pass more slots than are full. */
  lemma PassedAreUsed(b: Bucket, s: Text, k: nat)
    requires BucketOk(b) && k <= SIZE && Passed(b.slots, s, k)
    ensures k <= b.used
  {
    VisitedCount(s, k);
    SubsetSmaller(Visited(s, k), FullSlots(b.slots));
  }

  /** Filling the empty slot at the end of a probe keeps the table in order. */
  lemma FillKeeps(b: Bucket, s: Text, k: nat)
    requires BucketOk(b) && Passed(b.slots, s, k) && b.used < OVERFLOW_POINT
    requires b.slots[Probe(RawHash(s) % SIZE, Step(s), k)].Empty?
    ensures var i := Probe(RawHash(s) % SIZE, Step(s), k);
            BucketOk(b.(slots := b.slots[i := Full(s, HashBits(s))], used := b.used + 1))
  {
    var i := Probe(RawHash(s) % SIZE, Step(s), k);
    var slots := b.slots[i := Full(s, HashBits(s))];
    assert FullSlots(slots) == FullSlots(b.slots) + {i};
    forall j: nat | j < SIZE && slots[j].Full?
      ensures slots[j].hashBits == HashBits(slots[j].text) && exists n: nat :: Chained(slots, j, n)
    {
      if j == i {
        assert Chained(slots, i, k);
      } else {
        var n: nat :| Chained(b.slots, j, n);
        assert Chained(slots, j, n);
      }
    }
  }

  function EmptySlots(): seq<Slot> {
    seq(SIZE, _ => Empty)
  }

  lemma NewBucketOk(baseid: nat)
    ensures BucketOk(Bucket(EmptySlots(), 0, baseid))
  {
    assert FullSlots(EmptySlots()) == {};
  }

  // ----- the chain of tables -----

  /** All tables but the last have overflowed; their slots are numbered one after the other from 1. */
  ghost predicate ChainOk(tables: seq<Bucket>) {
    && (forall t | 0 <= t < |tables| :: BucketOk(tables[t]) && tables[t].baseid == 1 + SIZE * t)
    && (forall t | 0 <= t < |tables| - 1 :: tables[t].used >= OVERFLOW_POINT)
  }

  /** The text with a given ID. */
  predicate Holds(tables: seq<Bucket>, t: nat, i: nat, s: Text) {
    t < |tables| && i < |tables[t].slots| && tables[t].slots[i].Full? && tables[t].slots[i].text == s
  }

  /** The IDs are exactly the places of the texts. */
  ghost predicate Numbered(tables: seq<Bucket>, ids: map<Text, nat>) {
    && (forall s | s in ids :: exists t: nat, i: nat :: Holds(tables, t, i, s) && ids[s] == 1 + SIZE * t + i)
    && (forall t: nat, i: nat, s | Holds(tables, t, i, s) :: s in ids && ids[s] == 1 + SIZE * t + i)
  }

  function Entered(tables: seq<Bucket>, i: nat, s: Text): seq<Bucket>
    requires tables != [] && i < |tables[|tables| - 1].slots|
  {
    var last := |tables| - 1;
    tables[last := tables[last].(slots := tables[last].slots[i := Full(s, HashBits(s))], used := tables[last].used + 1)]
  }

  lemma EnteredHolds(tables: seq<Bucket>, i: nat, s: Text, t: nat, j: nat, r: Text)
    requires tables != [] && i < |tables[|tables| - 1].slots| && tables[|tables| - 1].slots[i].Empty?
    ensures Holds(Entered(tables, i, s), t, j, r) <==> Holds(tables, t, j, r) || (t == |tables| - 1 && j == i && r == s)
  {
  }

  lemma NumberedOnce(tables: seq<Bucket>, ids: map<Text, nat>, i: nat, s: Text)
    requires ChainOk(tables) && Numbered(tables, ids) && tables != [] && s !in ids
    requires i < SIZE && |tables[|tables| - 1].slots| == SIZE && tables[|tables| - 1].slots[i].Empty?
    ensures Numbered(Entered(tables, i, s), ids[s := tables[|tables| - 1].baseid + i])
    ensures forall r | r in ids :: ids[r] != tables[|tables| - 1].baseid + i
  {
    hide BucketOk, HashBits;
    var last := |tables| - 1;
    var id := tables[last].baseid + i;
    var after, newIds := Entered(tables, i, s), ids[s := id];
    forall r | r in ids
      ensures ids[r] != id && exists t: nat, j: nat :: Holds(after, t, j, r) && ids[r] == 1 + SIZE * t + j
    {
      var t: nat, j: nat :| Holds(tables, t, j, r) && ids[r] == 1 + SIZE * t + j;
      EnteredHolds(tables, i, s, t, j, r);
      BucketSize(tables, t);
      SlotOfId(t, j, last, i);
    }
    forall t: nat, j: nat, r | Holds(after, t, j, r) ensures r in newIds && newIds[r] == 1 + SIZE * t + j {
      EnteredHolds(tables, i, s, t, j, r);
    }
    EnteredHolds(tables, i, s, last, i, s);
  }

  lemma LastBase(tables: seq<Bucket>)
    requires ChainOk(tables) && 0 < |tables| <= 16
    ensures tables[|tables| - 1].baseid == 1 + SIZE * (|tables| - 1) <= 0x8000 - SIZE
  {
  }

  lemma EnteredChain(tables: seq<Bucket>, i: nat, s: Text, k: nat)
    requires ChainOk(tables) && tables != [] && tables[|tables| - 1].used < OVERFLOW_POINT
    requires |tables[|tables| - 1].slots| == SIZE && Passed(tables[|tables| - 1].slots, s, k)
    requires i == Probe(RawHash(s) % SIZE, Step(s), k) && tables[|tables| - 1].slots[i].Empty?
    ensures ChainOk(Entered(tables, i, s)) && |Entered(tables, i, s)| == |tables|
    ensures Entered(tables, i, s)[|tables| - 1].baseid == tables[|tables| - 1].baseid
  {
    FillKeeps(tables[|tables| - 1], s, k);
    hide BucketOk, Passed, Probe, RawHash, Step, HashBits;
  }

  lemma BucketSize(tables: seq<Bucket>, t: nat)
    requires ChainOk(tables) && t < |tables|
    ensures |tables[t].slots| == SIZE
  {
  }

  class StrIDTable {
    var tables: seq<Bucket>
    /** The IDs given out so far. */
    ghost var ids: map<Text, nat>

    ghost predicate Valid()
      reads this
    {
      ChainOk(tables) && |tables| <= 16 && Numbered(tables, ids)
    }

    constructor ()
      ensures Valid() && ids == map[]
    {
      tables, ids := [], map[];
    }

    /** The loop of Str2ID over the tables; at the end `i` is the empty slot of the last table. */
    method Search(s: Text) returns (id: Option<nat>, i: nat, ghost k: nat)
      requires Valid()
      ensures id.Some? ==> s in ids && id.value == ids[s]
      ensures id.None? ==> s !in ids
      ensures id.None? && tables != [] ==>
                i < SIZE && k < SIZE && i == Probe(RawHash(s) % SIZE, Step(s), k)
                && |tables[|tables| - 1].slots| == SIZE && Passed(tables[|tables| - 1].slots, s, k)
                && tables[|tables| - 1].slots[i].Empty?
    {
      hide Probe, RawHash, Step, Passed, HashBits;
      i, k := 0, 0;
      var t := 0;
      while t < |tables|
        invariant 0 <= t <= |tables|
        invariant forall u: nat, j: nat | u < t :: !Holds(tables, u, j, s)
        invariant t > 0 ==>
                    i < SIZE && k < SIZE && i == Probe(RawHash(s) % SIZE, Step(s), k)
                    && |tables[t - 1].slots| == SIZE && Passed(tables[t - 1].slots, s, k) && tables[t - 1].slots[i].Empty?
      {
        var found;
        assert BucketOk(tables[t]);
        i, found, k := FindSlot(tables[t], s);
        if found {
          assert Holds(tables, t, i, s);
          return Some(tables[t].baseid + i), i, k;
        }
        t := t + 1;
      }
      id := None;
    }

    /**
     Str2ID.  None is its panic on a table that is full to the last ID; otherwise a text
     keeps the ID it has, and a new one gets an unused ID.
     */
    method Str2ID(s: Text) returns (id: Option<nat>)
      requires Valid()
      modifies this
      ensures Valid()
      ensures id.None? ==> s !in old(ids) && ids == old(ids) && |old(tables)| == 16 && old(tables)[15].used >= OVERFLOW_POINT
      ensures id.Some? ==> ids == old(ids)[s := id.value] && 0 < id.value < 0x8000
      ensures id.Some? && s in old(ids) ==> id.value == old(ids)[s]
      ensures id.Some? && s !in old(ids) ==> forall other | other in old(ids) :: old(ids)[other] != id.value
    {
      hide Probe, RawHash, Step, HashBits, BucketOk, Passed;
      var i;
      ghost var k;
      id, i, k := Search(s);
      if id.Some? {
        IdInRange(s);
        assert ids == ids[s := id.value];
        return;
      }
      if tables == [] || tables[|tables| - 1].used >= OVERFLOW_POINT {
        if tables != [] && tables[|tables| - 1].baseid > LAST_BASE {
          return;
        }
        AddBucket(if tables == [] then 1 else tables[|tables| - 1].baseid + SIZE);
        i, k := RawHash(s) % SIZE, 0;
        NewSlot(s);
      }
      Enter(s, i, k);
      id := Some(tables[|tables| - 1].baseid + i);
    }

    /** A new table is chained behind a full one. */
    method AddBucket(baseid: nat)
      requires Valid() && |tables| < 16 && baseid == 1 + SIZE * |tables|
      requires tables != [] ==> tables[|tables| - 1].used >= OVERFLOW_POINT
      modifies this`tables
      ensures Valid() && tables == old(tables) + [Bucket(EmptySlots(), 0, baseid)]
    {
      NewBucketOk(baseid);
      hide BucketOk;
      ghost var before := tables;
      tables := tables + [Bucket(EmptySlots(), 0, baseid)];
      forall t: nat, i: nat, s ensures Holds(tables, t, i, s) <==> Holds(before, t, i, s) {
      }
    }

    /** Put a new text in an empty slot of the last table. */
    method Enter(s: Text, i: nat, ghost k: nat)
      requires Valid() && tables != [] && s !in ids && tables[|tables| - 1].used < OVERFLOW_POINT
      requires |tables[|tables| - 1].slots| == SIZE && Passed(tables[|tables| - 1].slots, s, k)
      requires i < SIZE && i == Probe(RawHash(s) % SIZE, Step(s), k) && tables[|tables| - 1].slots[i].Empty?
      modifies this
      ensures Valid() && |tables| == |old(tables)| && tables[|tables| - 1].baseid == old(tables)[|tables| - 1].baseid
      ensures ids == old(ids)[s := tables[|tables| - 1].baseid + i] && tables[|tables| - 1].baseid + i < 0x8000
      ensures forall other | other in old(ids) :: old(ids)[other] != tables[|tables| - 1].baseid + i
    {
      hide BucketOk, Passed, Probe, RawHash, Step, HashBits, Numbered, ChainOk, Entered, Holds;
      EnteredChain(tables, i, s, k);
      NumberedOnce(tables, ids, i, s);
      LastBase(tables);
      ids := ids[s := tables[|tables| - 1].baseid + i];
      tables := Entered(tables, i, s);
    }

    lemma IdInRange(s: Text)
      requires Valid() && s in ids
      ensures 0 < ids[s] < 0x8000
    {
    }
  }

  /** An ID belongs to one slot of one table. */
  lemma SlotOfId(t: nat, i: nat, u: nat, j: nat)
    requires i < SIZE && j < SIZE
    ensures 1 + SIZE * t + i == 1 + SIZE * u + j <==> t == u && i == j
  {
  }

  lemma NewSlot(s: Text)
    ensures Passed(EmptySlots(), s, 0) && Probe(RawHash(s) % SIZE, Step(s), 0) == RawHash(s) % SIZE
    ensures EmptySlots()[RawHash(s) % SIZE].Empty?
  {
  }

  lemma PassedOne(slots: seq<Slot>, s: Text, k: nat)
    requires |slots| == SIZE && Passed(slots, s, k)
    requires slots[Probe(RawHash(s) % SIZE, Step(s), k)].Full? && slots[Probe(RawHash(s) % SIZE, Step(s), k)].text != s
    ensures Passed(slots, s, k + 1)
    ensures Probe(RawHash(s) % SIZE, Step(s), k + 1) == Next(Probe(RawHash(s) % SIZE, Step(s), k), Step(s))
  {
  }

  lemma HashOfSlot(b: Bucket, i: nat)
    requires BucketOk(b) && i < SIZE && b.slots[i].Full?
    ensures b.slots[i].hashBits == HashBits(b.slots[i].text)
  {
  }

  /** The inner loop of Str2ID: the slot where the text is, or the empty one where it belongs. */
  method FindSlot(b: Bucket, s: Text) returns (i: nat, found: bool, ghost k: nat)
    requires BucketOk(b)
    ensures i < SIZE && k < SIZE && i == Probe(RawHash(s) % SIZE, Step(s), k) && Passed(b.slots, s, k)
    ensures found ==> b.slots[i] == Full(s, HashBits(s))
    ensures !found ==> b.slots[i].Empty? && forall j: nat | j < SIZE && b.slots[j].Full? :: b.slots[j].text != s
  {
    BucketBounds(b);
    NewProbe(b.slots, s);
    hide BucketOk, Passed, Probe, RawHash, Step, HashBits;
    i, k := RawHash(s) % SIZE, 0;
    while b.slots[i].Full?
      invariant i < SIZE && k <= b.used && i == Probe(RawHash(s) % SIZE, Step(s), k)
      invariant Passed(b.slots, s, k)
      decreases b.used - k
    {
      HashOfSlot(b, i);
      if b.slots[i].hashBits == HashBits(s) && b.slots[i].text == s {
        return i, true, k;
      }
      PassedOne(b.slots, s, k);
      PassedAreUsed(b, s, k + 1);
      i := if i < Step(s) then i + SIZE - Step(s) else i - Step(s);
      k := k + 1;
    }
    found := false;
    forall j: nat | j < SIZE && b.slots[j].Full? ensures b.slots[j].text != s {
      if b.slots[j].text == s {
        HashOfSlot(b, j);
        FoundBeforeEmpty(b, s, k, j);
      }
    }
  }

  lemma BucketBounds(b: Bucket)
    requires BucketOk(b)
    ensures |b.slots| == SIZE && b.used <= OVERFLOW_POINT
  {
  }

  lemma NewProbe(slots: seq<Slot>, s: Text)
    requires |slots| == SIZE
    ensures Passed(slots, s, 0) && Probe(RawHash(s) % SIZE, Step(s), 0) == RawHash(s) % SIZE
  {
  }

  // ----- what callers rely on -----

  /** Different texts have different IDs. */
  lemma IdsDiffer(table: StrIDTable, s: Text, r: Text)
    requires table.Valid() && s in table.ids && r in table.ids
    ensures table.ids[s] == table.ids[r] <==> s == r
  {
    var t: nat, i: nat :| Holds(table.tables, t, i, s) && table.ids[s] == 1 + SIZE * t + i;
    var u: nat, j: nat :| Holds(table.tables, u, j, r) && table.ids[r] == 1 + SIZE * u + j;
    BucketSize(table.tables, t);
    BucketSize(table.tables, u);
    SlotOfId(t, i, u, j);
  }

  /** ID2Str: the text that has the ID. */
  method ID2Str(table: StrIDTable, id: nat) returns (s: Text)
    requires table.Valid() && exists r :: r in table.ids && table.ids[r] == id
    ensures s in table.ids && table.ids[s] == id
  {
    ghost var r :| r in table.ids && table.ids[r] == id;
    ghost var u: nat, j: nat :| Holds(table.tables, u, j, r) && id == 1 + SIZE * u + j;
    BucketSize(table.tables, u);
    var t := 0;
    while id - table.tables[t].baseid >= |table.tables[t].slots|
      invariant t <= u
      decreases u - t
    {
      BucketSize(table.tables, t);
      t := t + 1;
    }
    BucketSize(table.tables, t);
    SlotOfId(t, id - table.tables[t].baseid, u, j);
    s := table.tables[t].slots[id - table.tables[t].baseid].text;
  }

  /**
   Any sequence of calls in the lifetime of a table: the IDs agree exactly where the texts
   do, and every text keeps the ID it had.
   */
  method InternAll(table: StrIDTable, texts: seq<Text>) returns (result: seq<nat>, ok: bool)
    requires table.Valid()
    modifies table
    ensures table.Valid()
    ensures ok ==> |result| == |texts|
    ensures ok ==> forall a, b | 0 <= a < |texts| && 0 <= b < |texts| :: result[a] == result[b] <==> texts[a] == texts[b]
    ensures ok ==> forall a | 0 <= a < |texts| :: texts[a] in table.ids && table.ids[texts[a]] == result[a] && 0 < result[a] < 0x8000
    ensures forall s | s in old(table.ids) :: s in table.ids && table.ids[s] == old(table.ids)[s]
  {
    hide *;
    result := [];
    while |result| < |texts|
      invariant table.Valid() && |result| <= |texts|
      invariant forall a | 0 <= a < |result| :: texts[a] in table.ids && table.ids[texts[a]] == result[a] && 0 < result[a] < 0x8000
      invariant forall s | s in old(table.ids) :: s in table.ids && table.ids[s] == old(table.ids)[s]
      decreases |texts| - |result|
    {
      var id := table.Str2ID(texts[|result|]);
      if id.None? {
        return result, false;
      }
      result := result + [id.value];
    }
    forall a, b | 0 <= a < |texts| && 0 <= b < |texts| ensures result[a] == result[b] <==> texts[a] == texts[b] {
      IdsDiffer(table, texts[a], texts[b]);
    }
    ok := true;
  }

  /** NameAndTypeToHash: both IDs in one word. */
  function Key(name: nat, descriptor: nat): nat {
    name * 0x1_0000 + descriptor
  }

  lemma KeyInRange(name: nat, descriptor: nat)
    requires 0 < name < 0x8000 && descriptor < 0x8000
    ensures 0 < Key(name, descriptor) < 0x8000_0000
  {
  }

  method NameAndTypeToHash(table: StrIDTable, name: Text, descriptor: Text) returns (key: Option<nat>)
    requires table.Valid()
    modifies table
    ensures table.Valid()
    ensures key.Some? ==>
              && name in table.ids && descriptor in table.ids
              && key.value == Key(table.ids[name], table.ids[descriptor]) && 0 < key.value < 0x8000_0000
    ensures forall s | s in old(table.ids) :: s in table.ids && table.ids[s] == old(table.ids)[s]
  {
    hide *;
    var first := table.Str2ID(name);
    if first.None? {
      return None;
    }
    var second := table.Str2ID(descriptor);
    if second.None? {
      return None;
    }
    KeyInRange(first.value, second.value);
    key := Some(Key(first.value, second.value));
  }

  /** Keys are equal exactly for the same name and the same descriptor. */
  lemma KeysDiffer(table: StrIDTable, name: Text, descriptor: Text, name': Text, descriptor': Text)
    requires table.Valid() && {name, descriptor, name', descriptor'} <= table.ids.Keys
    ensures Key(table.ids[name], table.ids[descriptor]) == Key(table.ids[name'], table.ids[descriptor']) <==>
            name == name' && descriptor == descriptor'
  {
    table.IdInRange(descriptor);
    table.IdInRange(descriptor');
    IdsDiffer(table, name, name');
    IdsDiffer(table, descriptor, descriptor');
  }
}
