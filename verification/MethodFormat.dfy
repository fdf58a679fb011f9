/** Methods with their attributes as bytes: what write_methods writes and the reader takes in. */
module MethodFormat {
  import opened Octets
  import opened Types
  import opened ModifiedUtf8
  import opened ConstantPool
  import opened ClassBytes

  const ITEM_OBJECT: nat := 7
  const ITEM_NEW_OBJECT: nat := 8

  /** A line of an exception or line number table: items of two bytes. */
  type Row = seq<nat>

  datatype LocalVar = LocalVar(pc0: nat, length: nat, name: Text, descriptor: Text, slot: nat)

  /**
   An entry of a stack map.  For a class, info is its index in the old pool, or the
   complement of its place among the added classes; for a new object it is an offset.
   */
  datatype MapEntry = MapEntry(tag: nat, info: int)

  /** What the written indices depend on: those of the strings, and the last old entry that is no string. */
  datatype Indices = Indices(of: Text -> nat, lastOld: nat)

  datatype StackMap = StackMap(offset: nat, locals: seq<MapEntry>, stacks: seq<MapEntry>)

  datatype Code = Code(maxStack: nat, nlocals: nat, bytes: seq<Byte>, table: seq<Row>, lines: seq<Row>, vars: seq<LocalVar>, maps: seq<StackMap>)

  datatype Method = Method(access: nat, name: Text, descriptor: Text, code: Option<Code>, exceptions: seq<nat>, deprecated: bool, synthetic: bool)

  // ----- attribute names -----

  function CodeName(): Text { [67, 111, 100, 101] }
  function ExceptionsName(): Text { [69, 120, 99, 101, 112, 116, 105, 111, 110, 115] }
  function DeprecatedName(): Text { [68, 101, 112, 114, 101, 99, 97, 116, 101, 100] }
  function SyntheticName(): Text { [83, 121, 110, 116, 104, 101, 116, 105, 99] }
  function LineNumberTableName(): Text { [76, 105, 110, 101, 78, 117, 109, 98, 101, 114, 84, 97, 98, 108, 101] }
  function LocalVariableTableName(): Text { [76, 111, 99, 97, 108, 86, 97, 114, 105, 97, 98, 108, 101, 84, 97, 98, 108, 101] }

  // ----- bytes -----

  /** ACC_WRITTEN_FLAGS: the flags that a class file holds; the higher ones are the loader's own. */
  function WrittenFlags(access: nat): (r: nat)
    ensures r < 0x1000 && (access < 0x1000 ==> r == access)
  {
    access % 0x1000
  }

  function RowBytes(row: Row): (b: seq<Byte>)
    ensures |b| == 2 * |row|
  {
    if row == [] then [] else U2(row[0]) + RowBytes(row[1..])
  }

  function RowsBytes(rows: seq<Row>): seq<Byte> {
    if rows == [] then [] else RowBytes(rows[0]) + RowsBytes(rows[1..])
  }

  /** The written index of a class entry. */
  function WrittenClass(index: Indices, info: int): nat {
    if info >= 0 then info else index.lastOld + 1 + (-1 - info)
  }

  function EntryMapBytes(index: Indices, e: MapEntry): seq<Byte> {
    if e.tag == ITEM_OBJECT then [e.tag] + U2(WrittenClass(index, e.info))
    else if e.tag == ITEM_NEW_OBJECT then [e.tag] + U2(e.info % 0x1_0000)
    else [e.tag % 256]
  }

  /** write_stack_map */
  function EntriesBytes(index: Indices, es: seq<MapEntry>): seq<Byte> {
    if es == [] then [] else EntryMapBytes(index, es[0]) + EntriesBytes(index, es[1..])
  }

  /** stack_map_size */
  function StackMapSize(es: seq<MapEntry>): nat {
    if es == [] then 0
    else (if es[0].tag == ITEM_OBJECT || es[0].tag == ITEM_NEW_OBJECT then 3 else 1) + StackMapSize(es[1..])
  }

  /** The size computed ahead is that of the bytes written. */
  lemma {:induction false} StackMapSizeIsExact(index: Indices, es: seq<MapEntry>)
    ensures |EntriesBytes(index, es)| == StackMapSize(es)
  {
    if es != [] {
      StackMapSizeIsExact(index, es[1..]);
    }
  }

  function MapBytes(index: Indices, m: StackMap): seq<Byte> {
    U2(m.offset) + U2(|m.locals|) + EntriesBytes(index, m.locals) + U2(|m.stacks|) + EntriesBytes(index, m.stacks)
  }

  function MapsBytes(index: Indices, ms: seq<StackMap>): seq<Byte> {
    if ms == [] then [] else MapBytes(index, ms[0]) + MapsBytes(index, ms[1..])
  }

  /** What the stack maps add to the attribute lengths, without the 8 bytes in front. */
  function MapsSize(ms: seq<StackMap>): nat {
    if ms == [] then 0 else 6 + StackMapSize(ms[0].locals) + StackMapSize(ms[0].stacks) + MapsSize(ms[1..])
  }

  lemma {:induction false} MapsSizeIsExact(index: Indices, ms: seq<StackMap>)
    ensures |MapsBytes(index, ms)| == MapsSize(ms)
  {
    if ms != [] {
      StackMapSizeIsExact(index, ms[0].locals);
      StackMapSizeIsExact(index, ms[0].stacks);
      MapsSizeIsExact(index, ms[1..]);
    }
  }

  function VarRow(index: Indices, v: LocalVar): Row {
    [v.pc0, v.length, index.of(v.name), index.of(v.descriptor), v.slot]
  }

  function VarRows(index: Indices, vs: seq<LocalVar>): (rows: seq<Row>)
    ensures |rows| == |vs| && forall i | 0 <= i < |rows| :: rows[i] == VarRow(index, vs[i])
  {
    seq(|vs|, i requires 0 <= i < |vs| => VarRow(index, vs[i]))
  }

  /** An attribute whose content is a counted list. */
  function ListAttribute(name: nat, count: nat, content: seq<Byte>, length: nat): seq<Byte> {
    U2(name) + U4(length) + U2(count) + content
  }

  /** The lengths of the attributes of the code as write_methods computes them, header included. */
  function LinesLength(c: Code): nat { if c.lines == [] then 0 else 4 * |c.lines| + 8 }
  function VarsLength(c: Code): nat { if c.vars == [] then 0 else 10 * |c.vars| + 8 }
  function MapsLength(c: Code): nat { if c.maps == [] then 0 else 8 + MapsSize(c.maps) }

  function LinesAttribute(index: Indices, c: Code): seq<Byte> {
    if c.lines == [] then [] else ListAttribute(index.of(LineNumberTableName()), |c.lines|, RowsBytes(c.lines), LinesLength(c) - 6)
  }

  function VarsAttribute(index: Indices, c: Code): seq<Byte> {
    if c.vars == [] then []
    else ListAttribute(index.of(LocalVariableTableName()), |c.vars|, RowsBytes(VarRows(index, c.vars)), VarsLength(c) - 6)
  }

  function MapsAttribute(index: Indices, c: Code): seq<Byte> {
    if c.maps == [] then [] else ListAttribute(index.of(StackMapName()), |c.maps|, MapsBytes(index, c.maps), MapsLength(c) - 6)
  }

  function One(b: bool): nat { if b then 1 else 0 }

  function CodeAttributes(c: Code): nat {
    One(c.lines != []) + One(c.vars != []) + One(c.maps != [])
  }

  /** The declared length of the Code attribute. */
  function CodeLength(c: Code): nat {
    12 + |c.bytes| + |c.table| * 8 + MapsLength(c) + LinesLength(c) + VarsLength(c)
  }

  /** The Code attribute behind its length. */
  function CodeContent(index: Indices, c: Code): seq<Byte> {
    U2(c.maxStack) + (U2(c.nlocals) + (U4(|c.bytes|) + (c.bytes + (U2(|c.table|) + (RowsBytes(c.table) +
    (U2(CodeAttributes(c)) + (LinesAttribute(index, c) + (VarsAttribute(index, c) + MapsAttribute(index, c)))))))))
  }

  /** The code that is written: a code without bytes is left out. */
  function WrittenCode(m: Method): Option<Code> {
    if m.code.Some? && m.code.value.bytes != [] then m.code else None
  }

  function CodeAttribute(index: Indices, m: Method): seq<Byte> {
    var code := WrittenCode(m);
    if code.None? then [] else U2(index.of(CodeName())) + (U4(CodeLength(code.value)) + CodeContent(index, code.value))
  }

  function ExceptionsAttribute(index: Indices, m: Method): seq<Byte> {
    if m.exceptions == [] then []
    else ListAttribute(index.of(ExceptionsName()), |m.exceptions|, RowBytes(m.exceptions), 2 + |m.exceptions| * 2)
  }

  function EmptyAttribute(index: Indices, name: Text, present: bool): seq<Byte> {
    if present then U2(index.of(name)) + U4(0) else []
  }

  function AttributeCount(m: Method): nat {
    One(WrittenCode(m).Some?) + One(m.exceptions != []) + One(m.synthetic) + One(m.deprecated)
  }

  function MethodBytes(index: Indices, m: Method): seq<Byte> {
    U2(WrittenFlags(m.access)) + (U2(index.of(m.name)) + (U2(index.of(m.descriptor)) + (U2(AttributeCount(m)) +
    (CodeAttribute(index, m) + (ExceptionsAttribute(index, m) +
    (EmptyAttribute(index, DeprecatedName(), m.deprecated) + EmptyAttribute(index, SyntheticName(), m.synthetic)))))))
  }

  // ----- declared lengths -----

  predicate Width(rows: seq<Row>, n: nat) {
    forall i | 0 <= i < |rows| :: |rows[i]| == n && forall j | 0 <= j < n :: rows[i][j] < 0x1_0000
  }

  lemma OneMore(n: nat, k: nat)
    ensures n * (k + 1) == n * k + n
  {
  }

  lemma {:induction false} RowsLength(rows: seq<Row>, n: nat)
    requires Width(rows, n)
    ensures |RowsBytes(rows)| == 2 * n * |rows|
  {
    if rows != [] {
      var some := |rows[1..]|;
      RowsLength(rows[1..], n);
      OneMore(2 * n, some);
      assert |rows| == some + 1 && |rows[0]| == n;
    }
  }

  /** Tables of 16-bit items with the widths the format prescribes. */
  predicate CodeOk(c: Code) {
    && c.maxStack < 0x1_0000 && c.nlocals < 0x1_0000 && |c.bytes| < 0x1_0000
    && |c.table| < 0x1_0000 && Width(c.table, 4)
    && |c.lines| < 0x1_0000 && Width(c.lines, 2)
    && |c.vars| < 0x1_0000 && (forall i | 0 <= i < |c.vars| :: c.vars[i].pc0 < 0x1_0000 && c.vars[i].length < 0x1_0000 && c.vars[i].slot < 0x1_0000)
    && |c.maps| < 0x1_0000 && MapsSize(c.maps) < 0x1000_0000
  }

  // ----- reading -----

  /** getAsciz: the string an index at p refers to. */
  function GetText(w: seq<Const>, b: seq<Byte>, p: nat): Option<Text> {
    if p + 2 <= |b| && IsUtf8(w, Get2(b, p)) then Some(w[Get2(b, p)].text) else None
  }

  function ParseRow(b: seq<Byte>, p: nat, n: nat): Option<(Row, nat)>
    decreases n
  {
    if n == 0 then Some(([], p))
    else if p + 2 > |b| then None
    else
      var rest := ParseRow(b, p + 2, n - 1);
      if rest.None? then None else Some(([Get2(b, p)] + rest.value.0, rest.value.1))
  }

  function ParseRows(b: seq<Byte>, p: nat, count: nat, n: nat): Option<(seq<Row>, nat)>
    decreases count
  {
    if count == 0 then Some(([], p))
    else
      var first := ParseRow(b, p, n);
      if first.None? then None
      else
        var rest := ParseRows(b, first.value.1, count - 1, n);
        if rest.None? then None else Some(([first.value.0] + rest.value.0, rest.value.1))
  }

  /** A counted table that must end where its attribute does; p is at the length. */
  function ParseTable(b: seq<Byte>, p: nat, n: nat): Option<(seq<Row>, nat)> {
    if p + 6 > |b| then None
    else
      var rows := ParseRows(b, p + 6, Get2(b, p + 4), n);
      if rows.None? || rows.value.1 != p + 4 + Get4(b, p) then None else rows
  }

  function VarOf(w: seq<Const>, row: Row): Option<LocalVar> {
    if |row| == 5 && IsUtf8(w, row[2]) && IsUtf8(w, row[3]) then Some(LocalVar(row[0], row[1], w[row[2]].text, w[row[3]].text, row[4]))
    else None
  }

  function VarsOf(w: seq<Const>, rows: seq<Row>): Option<seq<LocalVar>> {
    if rows == [] then Some([])
    else
      var first, rest := VarOf(w, rows[0]), VarsOf(w, rows[1..]);
      if first.None? || rest.None? then None else Some([first.value] + rest.value)
  }

  /** An attribute that is not looked into; p is at the length. */
  function Skip(b: seq<Byte>, p: nat): Option<nat> {
    if p + 4 > |b| || p + 4 + Get4(b, p) > |b| then None else Some(p + 4 + Get4(b, p))
  }

  /** The attributes of the code: the last loop of ReadInCode. */
  function ParseCodeAttributes(w: seq<Const>, b: seq<Byte>, p: nat, n: nat, c: Code): Option<(Code, nat)>
    decreases n
  {
    if n == 0 then Some((c, p))
    else
      var name := GetText(w, b, p);
      if name.None? then None
      else if name.value == LineNumberTableName() then
        var lines := ParseTable(b, p + 2, 2);
        if lines.None? then None else ParseCodeAttributes(w, b, lines.value.1, n - 1, c.(lines := lines.value.0))
      else if name.value == LocalVariableTableName() then
        var rows := ParseTable(b, p + 2, 5);
        if rows.None? || VarsOf(w, rows.value.0).None? then None
        else ParseCodeAttributes(w, b, rows.value.1, n - 1, c.(vars := VarsOf(w, rows.value.0).value))
      else
        var next := Skip(b, p + 2);
        if next.None? then None else ParseCodeAttributes(w, b, next.value, n - 1, c)
  }

  /** The tables that are there already, from an earlier Code attribute of the method. */
  function KeptLines(earlier: Option<Code>): seq<Row> { if earlier.Some? then earlier.value.lines else [] }
  function KeptVars(earlier: Option<Code>): seq<LocalVar> { if earlier.Some? then earlier.value.vars else [] }

  /** ReadInCode; p is at the length of the attribute. */
  function ParseCode(w: seq<Const>, b: seq<Byte>, p: nat, argsSize: nat, earlier: Option<Code>): Option<(Code, nat)> {
    if p + 12 > |b| then None
    else
      var length, codeLength := Get4(b, p), Get4(b, p + 8);
      var q := p + 12 + codeLength;
      if Get2(b, p + 6) < argsSize || codeLength > 65535 || q + 2 > |b| then None
      else
        var table := ParseRows(b, q + 2, Get2(b, q), 4);
        if table.None? || table.value.1 + 2 > |b| then None
        else
          var r := table.value.1;
          var c := Code(Get2(b, p + 4), Get2(b, p + 6), b[p + 12..q], table.value.0, KeptLines(earlier), KeptVars(earlier), []);
          var code := ParseCodeAttributes(w, b, r + 2, Get2(b, r), c);
          if code.None? || code.value.1 != p + 4 + length then None else code
  }

  /** The attributes of a method: the inner loop of createInternalClass0. */
  function ParseMethodAttributes(w: seq<Const>, b: seq<Byte>, p: nat, n: nat, m: Method, argsSize: nat, mayHaveCode: bool, haveExceptions: bool): Option<(Method, nat)>
    decreases n
  {
    if n == 0 then Some((m, p))
    else
      var name := GetText(w, b, p);
      if name.None? then None
      else if name.value == CodeName() then
        var code := ParseCode(w, b, p + 2, argsSize, m.code);
        if !mayHaveCode || code.None? then None
        else ParseMethodAttributes(w, b, code.value.1, n - 1, m.(code := Some(code.value.0)), argsSize, mayHaveCode, haveExceptions)
      else if name.value == ExceptionsName() then
        var rows := ParseTable(b, p + 2, 1);
        if haveExceptions || rows.None? then None
        else ParseMethodAttributes(w, b, rows.value.1, n - 1, m.(exceptions := Firsts(rows.value.0)), argsSize, mayHaveCode, true)
      else
        var next := Skip(b, p + 2);
        if next.None? then None
        else if name.value == DeprecatedName() then
          if next.value != p + 6 then None
          else ParseMethodAttributes(w, b, next.value, n - 1, m.(deprecated := true), argsSize, mayHaveCode, haveExceptions)
        else if name.value == SyntheticName() then
          if next.value != p + 6 then None
          else ParseMethodAttributes(w, b, next.value, n - 1, m.(synthetic := true), argsSize, mayHaveCode, haveExceptions)
        else ParseMethodAttributes(w, b, next.value, n - 1, m, argsSize, mayHaveCode, haveExceptions)
  }

  function Firsts(rows: seq<Row>): seq<nat> {
    if rows == [] then [] else (if rows[0] == [] then [0] else [rows[0][0]]) + Firsts(rows[1..])
  }

  /** What the reader derives from flags, name and descriptor. */
  datatype Derived = Derived(argsSize: (nat, Text) -> nat, mayHaveCode: (nat, Text) -> bool)

  function ParseMethod(d: Derived, w: seq<Const>, b: seq<Byte>, p: nat): Option<(Method, nat)> {
    if p + 8 > |b| || GetText(w, b, p + 2).None? || GetText(w, b, p + 4).None? then None
    else
      var m := Method(WrittenFlags(Get2(b, p)), GetText(w, b, p + 2).value, GetText(w, b, p + 4).value, None, [], false, false);
      if d.argsSize(m.access, m.descriptor) > 255 then None
      else ParseMethodAttributes(w, b, p + 8, Get2(b, p + 6), m, d.argsSize(m.access, m.descriptor), d.mayHaveCode(m.access, m.name), false)
  }

  function ParseMethodList(d: Derived, w: seq<Const>, b: seq<Byte>, p: nat, n: nat): Option<(seq<Method>, nat)>
    decreases n
  {
    if n == 0 then Some(([], p))
    else
      var first := ParseMethod(d, w, b, p);
      if first.None? then None
      else
        var rest := ParseMethodList(d, w, b, first.value.1, n - 1);
        if rest.None? then None else Some(([first.value.0] + rest.value.0, rest.value.1))
  }

  function ParseMethods(d: Derived, w: seq<Const>, b: seq<Byte>, p: nat): Option<(seq<Method>, nat)> {
    if p + 2 > |b| then None else ParseMethodList(d, w, b, p + 2, Get2(b, p))
  }

  // ----- reading back -----

  /** The index of a string refers to that string. */
  predicate Refers(w: seq<Const>, index: Indices, t: Text) {
    index.of(t) < 0x1_0000 && IsUtf8(w, index.of(t)) && w[index.of(t)] == Utf8(t)
  }

  lemma ReadsText(w: seq<Const>, b: seq<Byte>, p: nat, index: Indices, t: Text)
    requires Refers(w, index, t) && Has(b, p, U2(index.of(t)))
    ensures GetText(w, b, p) == Some(t)
  {
    ReadsU2(b, p, index.of(t));
  }

  lemma {:induction false} ReadsRow(b: seq<Byte>, p: nat, row: Row)
    requires Has(b, p, RowBytes(row)) && forall j | 0 <= j < |row| :: row[j] < 0x1_0000
    ensures ParseRow(b, p, |row|) == Some((row, p + |RowBytes(row)|))
    decreases |row|
  {
    if row != [] {
      HasBoth(b, p, U2(row[0]), RowBytes(row[1..]));
      ReadsU2(b, p, row[0]);
      ReadsRow(b, p + 2, row[1..]);
      assert [row[0]] + row[1..] == row;
    }
  }

  lemma RowsStep(b: seq<Byte>, p: nat, count: nat, n: nat, row: Row, q: nat, rest: seq<Row>, end: nat)
    requires count > 0 && ParseRow(b, p, n) == Some((row, q)) && ParseRows(b, q, count - 1, n) == Some((rest, end))
    ensures ParseRows(b, p, count, n) == Some(([row] + rest, end))
  {
    hide ParseRow;
  }

  lemma NoRows(b: seq<Byte>, p: nat, n: nat)
    ensures ParseRows(b, p, 0, n) == Some(([], p)) && RowsBytes([]) == []
  {
  }

  lemma FirstRow(rows: seq<Row>, n: nat)
    requires rows != [] && Width(rows, n)
    ensures |rows[0]| == n && (forall j | 0 <= j < n :: rows[0][j] < 0x1_0000) && Width(rows[1..], n)
    ensures RowsBytes(rows) == RowBytes(rows[0]) + RowsBytes(rows[1..])
  {
  }

  lemma {:induction false} ReadsRows(b: seq<Byte>, p: nat, rows: seq<Row>, n: nat)
    requires Has(b, p, RowsBytes(rows)) && Width(rows, n)
    ensures ParseRows(b, p, |rows|, n) == Some((rows, p + |RowsBytes(rows)|))
    decreases |rows|
  {
    hide *;
    if rows == [] {
      NoRows(b, p, n);
    } else {
      FirstRow(rows, n);
      var q := p + |RowBytes(rows[0])|;
      HasBoth(b, p, RowBytes(rows[0]), RowsBytes(rows[1..]));
      ReadsRow(b, p, rows[0]);
      ReadsRows(b, q, rows[1..], n);
      RowsStep(b, p, |rows|, n, rows[0], q, rows[1..], q + |RowsBytes(rows[1..])|);
      assert [rows[0]] + rows[1..] == rows;
    }
  }

  /** The header of a list attribute. */
  lemma ReadsList(b: seq<Byte>, p: nat, name: nat, count: nat, content: seq<Byte>, length: nat)
    requires Has(b, p, ListAttribute(name, count, content, length)) && length < 0x1_0000_0000 && count < 0x1_0000
    ensures Has(b, p, U2(name)) && Has(b, p + 8, content) && p + 8 + |content| <= |b|
    ensures Get4(b, p + 2) == length && Get2(b, p + 6) == count
  {
    HasBoth(b, p, U2(name) + U4(length) + U2(count), content);
    HasBoth(b, p, U2(name) + U4(length), U2(count));
    HasBoth(b, p, U2(name), U4(length));
    ReadsU4(b, p + 2, length);
    ReadsU2(b, p + 6, count);
  }

  /** A list attribute whose length is right is read as a table. */
  lemma ReadsTable(b: seq<Byte>, p: nat, name: nat, rows: seq<Row>, n: nat, length: nat)
    requires Has(b, p, ListAttribute(name, |rows|, RowsBytes(rows), length)) && Width(rows, n) && |rows| < 0x1_0000
    requires length == 2 + 2 * n * |rows| < 0x1_0000_0000
    ensures Has(b, p, U2(name)) && ParseTable(b, p + 2, n) == Some((rows, p + 6 + length))
  {
    hide Has, U2, U4, Get2, Get4, RowsBytes, ParseRows, ListAttribute, Width;
    ReadsList(b, p, name, |rows|, RowsBytes(rows), length);
    ReadsRows(b, p + 8, rows, n);
    RowsLength(rows, n);
  }

  lemma {:induction false} ReadsVars(w: seq<Const>, index: Indices, vs: seq<LocalVar>)
    requires forall i | 0 <= i < |vs| :: Refers(w, index, vs[i].name) && Refers(w, index, vs[i].descriptor)
    ensures VarsOf(w, VarRows(index, vs)) == Some(vs)
  {
    if vs != [] {
      ReadsVars(w, index, vs[1..]);
      assert VarRows(index, vs)[1..] == VarRows(index, vs[1..]);
      assert VarRows(index, vs)[0] == VarRow(index, vs[0]);
      assert [vs[0]] + vs[1..] == vs;
    }
  }

  /** A list attribute that is not looked into is skipped to its end. */
  lemma SkipsList(b: seq<Byte>, p: nat, name: nat, count: nat, content: seq<Byte>, length: nat)
    requires Has(b, p, ListAttribute(name, count, content, length)) && length == 2 + |content| < 0x1_0000_0000 && count < 0x1_0000
    ensures Has(b, p, U2(name)) && Skip(b, p + 2) == Some(p + 6 + length)
  {
    hide Has, U2, Get4, ListAttribute;
    ReadsList(b, p, name, count, content, length);
  }

  // ----- the code attribute -----

  predicate CodeNamesRefer(w: seq<Const>, index: Indices, c: Code) {
    && (c.lines != [] ==> Refers(w, index, LineNumberTableName())) && (c.vars != [] ==> Refers(w, index, LocalVariableTableName()))
    && (c.maps != [] ==> Refers(w, index, StackMapName()))
    && forall i | 0 <= i < |c.vars| :: Refers(w, index, c.vars[i].name) && Refers(w, index, c.vars[i].descriptor)
  }

  lemma LinesStep(w: seq<Const>, b: seq<Byte>, p: nat, n: nat, into: Code, rows: seq<Row>, q: nat)
    requires n > 0 && GetText(w, b, p) == Some(LineNumberTableName()) && ParseTable(b, p + 2, 2) == Some((rows, q))
    ensures ParseCodeAttributes(w, b, p, n, into) == ParseCodeAttributes(w, b, q, n - 1, into.(lines := rows))
  {
    hide GetText, ParseTable, LineNumberTableName;
  }

  lemma VarsStep(w: seq<Const>, b: seq<Byte>, p: nat, n: nat, into: Code, rows: seq<Row>, vars: seq<LocalVar>, q: nat)
    requires n > 0 && GetText(w, b, p) == Some(LocalVariableTableName()) && ParseTable(b, p + 2, 5) == Some((rows, q)) && VarsOf(w, rows) == Some(vars)
    ensures ParseCodeAttributes(w, b, p, n, into) == ParseCodeAttributes(w, b, q, n - 1, into.(vars := vars))
  {
    NamesDiffer();
    hide GetText, ParseTable, LineNumberTableName, LocalVariableTableName, VarsOf;
  }

  lemma SkipStep(w: seq<Const>, b: seq<Byte>, p: nat, n: nat, into: Code, name: Text, q: nat)
    requires n > 0 && GetText(w, b, p) == Some(name) && Skip(b, p + 2) == Some(q)
    requires name != LineNumberTableName() && name != LocalVariableTableName()
    ensures ParseCodeAttributes(w, b, p, n, into) == ParseCodeAttributes(w, b, q, n - 1, into)
  {
    hide GetText, Skip, LineNumberTableName, LocalVariableTableName;
  }

  lemma LinesAre(index: Indices, c: Code)
    requires CodeOk(c)
    ensures c.lines == [] ==> LinesAttribute(index, c) == [] && LinesLength(c) == 0
    ensures c.lines != [] ==>
              && LinesAttribute(index, c) == ListAttribute(index.of(LineNumberTableName()), |c.lines|, RowsBytes(c.lines), LinesLength(c) - 6)
              && Width(c.lines, 2) && |c.lines| < 0x1_0000 && LinesLength(c) - 6 == 2 + 2 * 2 * |c.lines|
              && |LinesAttribute(index, c)| == LinesLength(c) < 0x8000_0000
  {
    RowsLength(c.lines, 2);
    hide RowsBytes, Width;
  }

  lemma CodeNames(w: seq<Const>, index: Indices, c: Code)
    requires CodeNamesRefer(w, index, c)
    ensures (c.lines != [] ==> Refers(w, index, LineNumberTableName())) && (c.vars != [] ==> Refers(w, index, LocalVariableTableName()))
    ensures c.maps != [] ==> Refers(w, index, StackMapName())
    ensures forall i | 0 <= i < |c.vars| :: Refers(w, index, c.vars[i].name) && Refers(w, index, c.vars[i].descriptor)
  {
  }

  lemma AfterLines(w: seq<Const>, b: seq<Byte>, p: nat, n: nat, index: Indices, c: Code, into: Code)
    requires CodeOk(c) && CodeNamesRefer(w, index, c) && Has(b, p, LinesAttribute(index, c)) && into.lines == []
    requires n >= One(c.lines != [])
    ensures ParseCodeAttributes(w, b, p, n, into) ==
            ParseCodeAttributes(w, b, p + |LinesAttribute(index, c)|, n - One(c.lines != []), into.(lines := c.lines))
    ensures |LinesAttribute(index, c)| == LinesLength(c)
  {
    Ones();
    hide *;
    LinesAre(index, c);
    if c.lines != [] {
      CodeNames(w, index, c);
      ReadsTable(b, p, index.of(LineNumberTableName()), c.lines, 2, LinesLength(c) - 6);
      ReadsText(w, b, p, index, LineNumberTableName());
      LinesStep(w, b, p, n, into, c.lines, p + LinesLength(c));
    } else {
      assert into.(lines := c.lines) == into;
    }
  }

  lemma Ones()
    ensures One(true) == 1 && One(false) == 0
  {
  }

  lemma VarsAre(w: seq<Const>, index: Indices, c: Code)
    requires CodeOk(c) && CodeNamesRefer(w, index, c)
    ensures c.vars == [] ==> VarsAttribute(index, c) == [] && VarsLength(c) == 0
    ensures c.vars != [] ==>
              && VarsAttribute(index, c) == ListAttribute(index.of(LocalVariableTableName()), |VarRows(index, c.vars)|, RowsBytes(VarRows(index, c.vars)), VarsLength(c) - 6)
              && Width(VarRows(index, c.vars), 5) && |VarRows(index, c.vars)| < 0x1_0000
              && VarsLength(c) - 6 == 2 + 2 * 5 * |VarRows(index, c.vars)|
              && |VarsAttribute(index, c)| == VarsLength(c) < 0x8000_0000
  {
    VarRowsWidth(w, index, c);
    RowsLength(VarRows(index, c.vars), 5);
    hide RowsBytes, Width, CodeNamesRefer;
  }

  lemma AfterVars(w: seq<Const>, b: seq<Byte>, p: nat, n: nat, index: Indices, c: Code, into: Code)
    requires CodeOk(c) && CodeNamesRefer(w, index, c) && Has(b, p, VarsAttribute(index, c)) && into.vars == []
    requires n >= One(c.vars != [])
    ensures ParseCodeAttributes(w, b, p, n, into) ==
            ParseCodeAttributes(w, b, p + |VarsAttribute(index, c)|, n - One(c.vars != []), into.(vars := c.vars))
    ensures |VarsAttribute(index, c)| == VarsLength(c)
  {
    Ones();
    hide *;
    VarsAre(w, index, c);
    if c.vars != [] {
      var rows := VarRows(index, c.vars);
      CodeNames(w, index, c);
      ReadsTable(b, p, index.of(LocalVariableTableName()), rows, 5, VarsLength(c) - 6);
      ReadsText(w, b, p, index, LocalVariableTableName());
      ReadsVars(w, index, c.vars);
      VarsStep(w, b, p, n, into, rows, c.vars, p + VarsLength(c));
    } else {
      assert into.(vars := c.vars) == into;
    }
  }

  lemma VarRowsWidth(w: seq<Const>, index: Indices, c: Code)
    requires CodeOk(c) && CodeNamesRefer(w, index, c)
    ensures Width(VarRows(index, c.vars), 5)
  {
    var rows := VarRows(index, c.vars);
    forall i | 0 <= i < |rows| ensures |rows[i]| == 5 && forall j | 0 <= j < 5 :: rows[i][j] < 0x1_0000 {
      assert Refers(w, index, c.vars[i].name) && Refers(w, index, c.vars[i].descriptor);
    }
  }

  lemma NamesDiffer()
    ensures LineNumberTableName() != LocalVariableTableName() && LineNumberTableName() != StackMapName()
    ensures LocalVariableTableName() != StackMapName()
    ensures CodeName() != ExceptionsName() && CodeName() != DeprecatedName() && CodeName() != SyntheticName()
    ensures ExceptionsName() != DeprecatedName() && ExceptionsName() != SyntheticName() && DeprecatedName() != SyntheticName()
  {
    assert |LineNumberTableName()| == 15 && |LocalVariableTableName()| == 18 && |StackMapName()| == 8;
    assert |CodeName()| == 4 && ExceptionsName()[0] == 69 && DeprecatedName()[0] == 68 && SyntheticName()[0] == 83;
  }

  /** The reader skips the stack maps. */
  lemma AfterMaps(w: seq<Const>, b: seq<Byte>, p: nat, n: nat, index: Indices, c: Code, into: Code)
    requires CodeOk(c) && CodeNamesRefer(w, index, c) && Has(b, p, MapsAttribute(index, c))
    requires n >= One(c.maps != [])
    ensures ParseCodeAttributes(w, b, p, n, into) ==
            ParseCodeAttributes(w, b, p + |MapsAttribute(index, c)|, n - One(c.maps != []), into)
    ensures |MapsAttribute(index, c)| == MapsLength(c)
  {
    OneAtMost();
    NamesDiffer();
    hide *;
    MapsAre(index, c);
    if c.maps != [] {
      CodeNames(w, index, c);
      SkipsList(b, p, index.of(StackMapName()), |c.maps|, MapsBytes(index, c.maps), MapsLength(c) - 6);
      ReadsText(w, b, p, index, StackMapName());
      SkipStep(w, b, p, n, into, StackMapName(), p + MapsLength(c));
    }
  }

  lemma MapsAre(index: Indices, c: Code)
    requires CodeOk(c)
    ensures One(false) == 0 && One(true) == 1
    ensures c.maps == [] ==> MapsAttribute(index, c) == [] && MapsLength(c) == 0
    ensures c.maps != [] ==>
              && MapsAttribute(index, c) == ListAttribute(index.of(StackMapName()), |c.maps|, MapsBytes(index, c.maps), MapsLength(c) - 6)
              && MapsLength(c) - 6 == 2 + |MapsBytes(index, c.maps)| < 0x1_0000_0000 && |c.maps| < 0x1_0000
              && |MapsAttribute(index, c)| == MapsLength(c)
  {
    MapsSizeIsExact(index, c.maps);
    hide MapsBytes, Width;
  }

  // ----- the whole attribute -----

  /** The items in front of the attributes of the code. */
  lemma ReadsHead(b: seq<Byte>, p: nat, index: Indices, c: Code)
    requires CodeOk(c) && Has(b, p, CodeContent(index, c))
    ensures p + 8 + |c.bytes| + 2 <= |b|
    ensures Get2(b, p) == c.maxStack && Get2(b, p + 2) == c.nlocals && Get4(b, p + 4) == |c.bytes|
    ensures b[p + 8..p + 8 + |c.bytes|] == c.bytes && Get2(b, p + 8 + |c.bytes|) == |c.table|
    ensures Has(b, p + 10 + |c.bytes|, RowsBytes(c.table) + CodeTail(index, c))
  {
    hide *;
    var tail := RowsBytes(c.table) + CodeTail(index, c);
    ContentIs(index, c);
    CodeSizes(c);
    HasBoth(b, p, U2(c.maxStack), U2(c.nlocals) + (U4(|c.bytes|) + (c.bytes + (U2(|c.table|) + tail))));
    HasBoth(b, p + 2, U2(c.nlocals), U4(|c.bytes|) + (c.bytes + (U2(|c.table|) + tail)));
    HasBoth(b, p + 4, U4(|c.bytes|), c.bytes + (U2(|c.table|) + tail));
    HasBoth(b, p + 8, c.bytes, U2(|c.table|) + tail);
    HasBoth(b, p + 8 + |c.bytes|, U2(|c.table|), tail);
    ReadsU2(b, p, c.maxStack);
    ReadsU2(b, p + 2, c.nlocals);
    ReadsU4(b, p + 4, |c.bytes|);
    ReadsU2(b, p + 8 + |c.bytes|, |c.table|);
    HasIs(b, p + 8, c.bytes);
  }

  lemma ContentIs(index: Indices, c: Code)
    ensures CodeContent(index, c) ==
            U2(c.maxStack) + (U2(c.nlocals) + (U4(|c.bytes|) + (c.bytes + (U2(|c.table|) + (RowsBytes(c.table) + CodeTail(index, c))))))
  {
    hide U2, U4, RowsBytes, LinesAttribute, VarsAttribute, MapsAttribute;
  }

  lemma CodeSizes(c: Code)
    requires CodeOk(c)
    ensures c.maxStack < 0x1_0000 && c.nlocals < 0x1_0000 && |c.bytes| < 0x1_0000 && |c.table| < 0x1_0000
  {
  }

  lemma HasIs(b: seq<Byte>, p: nat, w: seq<Byte>)
    requires Has(b, p, w)
    ensures p + |w| <= |b| && b[p..p + |w|] == w
  {
  }

  /** The attributes of the code with their count. */
  function CodeTail(index: Indices, c: Code): seq<Byte> {
    U2(CodeAttributes(c)) + (LinesAttribute(index, c) + (VarsAttribute(index, c) + MapsAttribute(index, c)))
  }

  function WithoutMaps(c: Code): Code { c.(maps := []) }

  lemma TailParts(b: seq<Byte>, p: nat, index: Indices, c: Code)
    requires Has(b, p, CodeTail(index, c))
    ensures var lines, vars, maps := LinesAttribute(index, c), VarsAttribute(index, c), MapsAttribute(index, c);
            && Has(b, p, U2(CodeAttributes(c))) && Has(b, p + 2, lines) && Has(b, p + 2 + |lines|, vars)
            && Has(b, p + 2 + |lines| + |vars|, maps) && |CodeTail(index, c)| == 2 + |lines| + |vars| + |maps|
    ensures CodeAttributes(c) == One(c.lines != []) + One(c.vars != []) + One(c.maps != []) < 4
  {
    hide *;
    var lines, vars, maps := LinesAttribute(index, c), VarsAttribute(index, c), MapsAttribute(index, c);
    TailIs(index, c);
    HasBoth(b, p, U2(CodeAttributes(c)), lines + (vars + maps));
    HasBoth(b, p + 2, lines, vars + maps);
    HasBoth(b, p + 2 + |lines|, vars, maps);
  }

  lemma TailIs(index: Indices, c: Code)
    ensures CodeTail(index, c) == U2(CodeAttributes(c)) + (LinesAttribute(index, c) + (VarsAttribute(index, c) + MapsAttribute(index, c)))
    ensures CodeAttributes(c) == One(c.lines != []) + One(c.vars != []) + One(c.maps != []) < 4
  {
    hide U2, LinesAttribute, VarsAttribute, MapsAttribute;
  }

  lemma Restored(c: Code)
    ensures WithoutMaps(c) == c.(lines := [], vars := [], maps := []).(lines := c.lines).(vars := c.vars)
  {
  }

  lemma OneAtMost()
    ensures forall b :: 0 <= One(b) <= 1
  {
  }

  lemma CodeParsed(w: seq<Const>, b: seq<Byte>, p: nat, c: Code)
    ensures ParseCodeAttributes(w, b, p, 0, c) == Some((c, p))
  {
  }

  lemma ReadsTail(w: seq<Const>, b: seq<Byte>, p: nat, index: Indices, c: Code)
    requires CodeOk(c) && CodeNamesRefer(w, index, c) && Has(b, p, CodeTail(index, c))
    ensures p + 2 <= |b|
    ensures ParseCodeAttributes(w, b, p + 2, Get2(b, p), c.(lines := [], vars := [], maps := [])) ==
            Some((WithoutMaps(c), p + 2 + LinesLength(c) + VarsLength(c) + MapsLength(c)))
    ensures |CodeTail(index, c)| == 2 + LinesLength(c) + VarsLength(c) + MapsLength(c)
  {
    hide *;
    var n := CodeAttributes(c);
    var c0 := c.(lines := [], vars := [], maps := []);
    var c1, c2 := c0.(lines := c.lines), WithoutMaps(c);
    Restored(c);
    OneAtMost();
    TailParts(b, p, index, c);
    ReadsU2(b, p, n);
    var q := p + 2 + |LinesAttribute(index, c)|;
    var r := q + |VarsAttribute(index, c)|;
    AfterLines(w, b, p + 2, n, index, c, c0);
    AfterVars(w, b, q, n - One(c.lines != []), index, c, c1);
    AfterMaps(w, b, r, One(c.maps != []), index, c, c2);
    CodeParsed(w, b, r + |MapsAttribute(index, c)|, c2);
  }

  /** The declared length of the Code attribute is that of its content. */
  lemma CodeLengthIsExact(w: seq<Const>, index: Indices, c: Code)
    requires CodeOk(c) && CodeNamesRefer(w, index, c)
    ensures |CodeContent(index, c)| == CodeLength(c)
  {
    var b := CodeTail(index, c);
    assert Has(b, 0, b) by { assert b[0..|b|] == b; }
    ReadsTail(w, b, 0, index, c);
    RowsLength(c.table, 4);
    hide LinesAttribute, VarsAttribute, MapsAttribute, RowsBytes, LinesLength, VarsLength, MapsLength;
  }

  lemma CodeStep(w: seq<Const>, b: seq<Byte>, p: nat, argsSize: nat, table: seq<Row>, r: nat, c: Code, end: nat)
    requires p + 12 <= |b| && Get2(b, p + 6) >= argsSize && Get4(b, p + 8) <= 65535 && p + 12 + Get4(b, p + 8) + 2 <= |b|
    requires ParseRows(b, p + 12 + Get4(b, p + 8) + 2, Get2(b, p + 12 + Get4(b, p + 8)), 4) == Some((table, r)) && r + 2 <= |b|
    requires ParseCodeAttributes(w, b, r + 2, Get2(b, r),
               Code(Get2(b, p + 4), Get2(b, p + 6), b[p + 12..p + 12 + Get4(b, p + 8)], table, [], [], [])) == Some((c, end))
    requires end == p + 4 + Get4(b, p)
    ensures ParseCode(w, b, p, argsSize, None) == Some((c, end))
  {
    hide ParseRows, ParseCodeAttributes, Get2, Get4;
  }

  lemma CodeBounds(c: Code)
    requires CodeOk(c)
    ensures |c.bytes| <= 65535 && Width(c.table, 4) && |RowsBytes(c.table)| == 8 * |c.table|
    ensures CodeLength(c) == 12 + |c.bytes| + 8 * |c.table| + LinesLength(c) + VarsLength(c) + MapsLength(c)
    ensures Code(c.maxStack, c.nlocals, c.bytes, c.table, [], [], []) == c.(lines := [], vars := [], maps := [])
  {
    RowsLength(c.table, 4);
    hide RowsBytes, LinesLength, VarsLength, MapsLength;
  }

  /** ReadInCode takes in the Code attribute that was written, to its last byte; stack maps are skipped. */
  lemma ReadsCode(w: seq<Const>, b: seq<Byte>, p: nat, index: Indices, c: Code, argsSize: nat)
    requires CodeOk(c) && CodeNamesRefer(w, index, c) && argsSize <= c.nlocals && CodeLength(c) < 0x1_0000_0000
    requires Has(b, p, U4(CodeLength(c)) + CodeContent(index, c))
    ensures ParseCode(w, b, p, argsSize, None) == Some((WithoutMaps(c), p + 4 + CodeLength(c)))
  {
    hide *;
    CodeBounds(c);
    HasBoth(b, p, U4(CodeLength(c)), CodeContent(index, c));
    ReadsU4(b, p, CodeLength(c));
    ReadsHead(b, p + 4, index, c);
    var q := p + 12 + |c.bytes|;
    HasBoth(b, q + 2, RowsBytes(c.table), CodeTail(index, c));
    ReadsRows(b, q + 2, c.table, 4);
    var r := q + 2 + |RowsBytes(c.table)|;
    ReadsTail(w, b, r, index, c);
    CodeStep(w, b, p, argsSize, c.table, r, WithoutMaps(c), r + 2 + LinesLength(c) + VarsLength(c) + MapsLength(c));
  }

  // ----- whole methods -----

  /** A method of a verified class, with strings that the pool has. */
  predicate MethodOk(d: Derived, w: seq<Const>, index: Indices, m: Method) {
    && Refers(w, index, m.name) && Refers(w, index, m.descriptor)
    && d.argsSize(WrittenFlags(m.access), m.descriptor) <= 255
    && (WrittenCode(m).Some? ==>
          && Refers(w, index, CodeName()) && CodeOk(m.code.value) && CodeNamesRefer(w, index, m.code.value)
          && CodeLength(m.code.value) < 0x1_0000_0000
          && d.argsSize(WrittenFlags(m.access), m.descriptor) <= m.code.value.nlocals && d.mayHaveCode(WrittenFlags(m.access), m.name))
    && (m.exceptions != [] ==>
          Refers(w, index, ExceptionsName()) && |m.exceptions| < 0x1_0000 && forall i | 0 <= i < |m.exceptions| :: m.exceptions[i] < 0x1_0000)
    && (m.deprecated ==> Refers(w, index, DeprecatedName()))
    && (m.synthetic ==> Refers(w, index, SyntheticName()))
  }

  /** The method as the reader takes it in. */
  function Reread(m: Method): Method {
    m.(access := WrittenFlags(m.access), code := if WrittenCode(m).Some? then Some(WithoutMaps(m.code.value)) else None)
  }

  lemma CodeRead(w: seq<Const>, b: seq<Byte>, p: nat, n: nat, m: Method, c: Code, q: nat, args: nat, exc: bool)
    requires n > 0 && GetText(w, b, p) == Some(CodeName()) && ParseCode(w, b, p + 2, args, m.code) == Some((c, q))
    ensures ParseMethodAttributes(w, b, p, n, m, args, true, exc) == ParseMethodAttributes(w, b, q, n - 1, m.(code := Some(c)), args, true, exc)
  {
    hide GetText, ParseCode, CodeName;
  }

  lemma ExceptionsRead(w: seq<Const>, b: seq<Byte>, p: nat, n: nat, m: Method, rows: seq<Row>, q: nat, args: nat, may: bool)
    requires n > 0 && GetText(w, b, p) == Some(ExceptionsName()) && ParseTable(b, p + 2, 1) == Some((rows, q))
    ensures ParseMethodAttributes(w, b, p, n, m, args, may, false) == ParseMethodAttributes(w, b, q, n - 1, m.(exceptions := Firsts(rows)), args, may, true)
  {
    NamesDiffer();
    hide GetText, ParseTable, CodeName, ExceptionsName, Firsts;
  }

  lemma FlagRead(w: seq<Const>, b: seq<Byte>, p: nat, n: nat, m: Method, args: nat, may: bool, exc: bool)
    requires n > 0 && Skip(b, p + 2) == Some(p + 6)
    ensures GetText(w, b, p) == Some(DeprecatedName()) ==>
              ParseMethodAttributes(w, b, p, n, m, args, may, exc) == ParseMethodAttributes(w, b, p + 6, n - 1, m.(deprecated := true), args, may, exc)
    ensures GetText(w, b, p) == Some(SyntheticName()) ==>
              ParseMethodAttributes(w, b, p, n, m, args, may, exc) == ParseMethodAttributes(w, b, p + 6, n - 1, m.(synthetic := true), args, may, exc)
  {
    NamesDiffer();
    hide GetText, Skip, CodeName, ExceptionsName, DeprecatedName, SyntheticName;
  }

  lemma CodePart(d: Derived, w: seq<Const>, index: Indices, m: Method)
    requires MethodOk(d, w, index, m)
    ensures One(false) == 0 && One(true) == 1
    ensures WrittenCode(m).None? ==> CodeAttribute(index, m) == [] && Reread(m).code == None
    ensures WrittenCode(m).Some? ==>
              var c := WrittenCode(m).value;
              && CodeAttribute(index, m) == U2(index.of(CodeName())) + (U4(CodeLength(c)) + CodeContent(index, c))
              && Reread(m).code == Some(WithoutMaps(c)) && Refers(w, index, CodeName()) && CodeOk(c) && CodeNamesRefer(w, index, c)
              && CodeLength(c) < 0x1_0000_0000 && d.argsSize(WrittenFlags(m.access), m.descriptor) <= c.nlocals && d.mayHaveCode(WrittenFlags(m.access), m.name)
  {
    hide CodeContent, CodeLength, CodeOk, CodeNamesRefer, Refers, WithoutMaps;
  }

  lemma AfterCode(d: Derived, w: seq<Const>, b: seq<Byte>, p: nat, n: nat, index: Indices, m: Method, into: Method, args: nat, may: bool)
    requires MethodOk(d, w, index, m) && args == d.argsSize(WrittenFlags(m.access), m.descriptor) && may == d.mayHaveCode(WrittenFlags(m.access), m.name)
    requires Has(b, p, CodeAttribute(index, m)) && into.code.None? && n >= One(WrittenCode(m).Some?)
    ensures ParseMethodAttributes(w, b, p, n, into, args, may, false) ==
            ParseMethodAttributes(w, b, p + |CodeAttribute(index, m)|, n - One(WrittenCode(m).Some?), into.(code := Reread(m).code), args, may, false)
  {
    OneAtMost();
    hide *;
    CodePart(d, w, index, m);
    if WrittenCode(m).Some? {
      var c := WrittenCode(m).value;
      CodeLengthIsExact(w, index, c);
      HasBoth(b, p, U2(index.of(CodeName())), U4(CodeLength(c)) + CodeContent(index, c));
      ReadsText(w, b, p, index, CodeName());
      ReadsCode(w, b, p + 2, index, c, args);
      CodeRead(w, b, p, n, into, WithoutMaps(c), p + 6 + CodeLength(c), args, false);
    } else {
      assert into.(code := None) == into;
    }
  }

  lemma {:induction false} FirstsOf(es: seq<nat>)
    ensures Firsts(Singles(es)) == es && RowsBytes(Singles(es)) == RowBytes(es)
  {
    if es != [] {
      FirstsOf(es[1..]);
      assert Singles(es)[1..] == Singles(es[1..]) && Singles(es)[0] == [es[0]];
      assert [es[0]] + es[1..] == es;
      assert [es[0]][1..] == [];
      assert RowBytes([es[0]]) == U2(es[0]) + RowBytes([]);
    }
  }

  function Singles(es: seq<nat>): (rows: seq<Row>)
    ensures |rows| == |es| && forall i | 0 <= i < |rows| :: rows[i] == [es[i]]
  {
    seq(|es|, i requires 0 <= i < |es| => [es[i]])
  }

  lemma AfterExceptions(d: Derived, w: seq<Const>, b: seq<Byte>, p: nat, n: nat, index: Indices, m: Method, into: Method, args: nat, may: bool)
    requires MethodOk(d, w, index, m) && Has(b, p, ExceptionsAttribute(index, m)) && into.exceptions == [] && n >= One(m.exceptions != [])
    ensures ParseMethodAttributes(w, b, p, n, into, args, may, false) ==
            ParseMethodAttributes(w, b, p + |ExceptionsAttribute(index, m)|, n - One(m.exceptions != []), into.(exceptions := m.exceptions), args, may,
                                  m.exceptions != [])
  {
    OneAtMost();
    hide *;
    ExceptionsPart(d, w, index, m);
    var es := m.exceptions;
    if es != [] {
      FirstsOf(es);
      ReadsTable(b, p, index.of(ExceptionsName()), Singles(es), 1, 2 + |es| * 2);
      ReadsText(w, b, p, index, ExceptionsName());
      ExceptionsRead(w, b, p, n, into, Singles(es), p + 8 + |es| * 2, args, may);
    } else {
      assert into.(exceptions := []) == into;
    }
  }

  lemma ExceptionsPart(d: Derived, w: seq<Const>, index: Indices, m: Method)
    requires MethodOk(d, w, index, m)
    ensures One(false) == 0 && One(true) == 1
    ensures m.exceptions == [] ==> ExceptionsAttribute(index, m) == []
    ensures m.exceptions != [] ==>
              && ExceptionsAttribute(index, m) ==
                 ListAttribute(index.of(ExceptionsName()), |Singles(m.exceptions)|, RowsBytes(Singles(m.exceptions)), 2 + |m.exceptions| * 2)
              && |ExceptionsAttribute(index, m)| == 8 + |m.exceptions| * 2
              && Width(Singles(m.exceptions), 1) && |Singles(m.exceptions)| < 0x1_0000 && Refers(w, index, ExceptionsName())
  {
    FirstsOf(m.exceptions);
    RowsLength(Singles(m.exceptions), 1);
    hide RowsBytes, RowBytes, CodeOk, CodeNamesRefer, CodeLength, Refers;
  }

  lemma ReadsEmpty(w: seq<Const>, b: seq<Byte>, p: nat, index: Indices, name: Text)
    requires Refers(w, index, name) && Has(b, p, EmptyAttribute(index, name, true))
    ensures GetText(w, b, p) == Some(name) && Skip(b, p + 2) == Some(p + 6)
  {
    HasBoth(b, p, U2(index.of(name)), U4(0));
    ReadsText(w, b, p, index, name);
    ReadsU4(b, p + 2, 0);
  }

  lemma AfterFlags(d: Derived, w: seq<Const>, b: seq<Byte>, p: nat, index: Indices, m: Method, into: Method, args: nat, may: bool, exc: bool)
    requires MethodOk(d, w, index, m) && !into.deprecated && !into.synthetic
    requires Has(b, p, EmptyAttribute(index, DeprecatedName(), m.deprecated) + EmptyAttribute(index, SyntheticName(), m.synthetic))
    ensures ParseMethodAttributes(w, b, p, One(m.synthetic) + One(m.deprecated), into, args, may, exc) ==
            Some((into.(deprecated := m.deprecated, synthetic := m.synthetic), p + 6 * One(m.deprecated) + 6 * One(m.synthetic)))
  {
    var x, y := EmptyAttribute(index, DeprecatedName(), m.deprecated), EmptyAttribute(index, SyntheticName(), m.synthetic);
    HasBoth(b, p, x, y);
    var q := p + |x|;
    if m.deprecated {
      ReadsEmpty(w, b, p, index, DeprecatedName());
      FlagRead(w, b, p, One(m.synthetic) + 1, into, args, may, exc);
    } else {
      assert into.(deprecated := false) == into;
    }
    var next := into.(deprecated := m.deprecated);
    if m.synthetic {
      ReadsEmpty(w, b, q, index, SyntheticName());
      FlagRead(w, b, q, 1, next, args, may, exc);
    } else {
      assert next.(synthetic := false) == next;
    }
    MethodParsed(w, b, q + 6 * One(m.synthetic), next.(synthetic := m.synthetic), args, may, exc);
    hide ParseMethodAttributes, Has, GetText, Skip, Refers;
  }

  lemma MethodParsed(w: seq<Const>, b: seq<Byte>, p: nat, m: Method, args: nat, may: bool, exc: bool)
    ensures ParseMethodAttributes(w, b, p, 0, m, args, may, exc) == Some((m, p))
  {
  }

  /** A method is read back as it was written, except for the stack maps. */
  lemma MethodParts(d: Derived, w: seq<Const>, b: seq<Byte>, p: nat, index: Indices, m: Method)
    requires MethodOk(d, w, index, m) && Has(b, p, MethodBytes(index, m))
    ensures var code, exceptions := CodeAttribute(index, m), ExceptionsAttribute(index, m);
            var flags := EmptyAttribute(index, DeprecatedName(), m.deprecated) + EmptyAttribute(index, SyntheticName(), m.synthetic);
            && p + 8 <= |b| && Get2(b, p) == WrittenFlags(m.access) && GetText(w, b, p + 2) == Some(m.name) && GetText(w, b, p + 4) == Some(m.descriptor)
            && Get2(b, p + 6) == AttributeCount(m)
            && Has(b, p + 8, code) && Has(b, p + 8 + |code|, exceptions) && Has(b, p + 8 + |code| + |exceptions|, flags)
            && |MethodBytes(index, m)| == 8 + |code| + |exceptions| + 6 * One(m.deprecated) + 6 * One(m.synthetic)
    ensures AttributeCount(m) == One(WrittenCode(m).Some?) + One(m.exceptions != []) + One(m.synthetic) + One(m.deprecated)
    ensures d.argsSize(WrittenFlags(m.access), m.descriptor) <= 255
  {
    hide *;
    var code, exceptions := CodeAttribute(index, m), ExceptionsAttribute(index, m);
    var flags := EmptyAttribute(index, DeprecatedName(), m.deprecated) + EmptyAttribute(index, SyntheticName(), m.synthetic);
    var n := AttributeCount(m);
    MethodIs(d, w, index, m);
    HasBoth(b, p, U2(WrittenFlags(m.access)), U2(index.of(m.name)) + (U2(index.of(m.descriptor)) + (U2(n) + (code + (exceptions + flags)))));
    HasBoth(b, p + 2, U2(index.of(m.name)), U2(index.of(m.descriptor)) + (U2(n) + (code + (exceptions + flags))));
    HasBoth(b, p + 4, U2(index.of(m.descriptor)), U2(n) + (code + (exceptions + flags)));
    HasBoth(b, p + 6, U2(n), code + (exceptions + flags));
    HasBoth(b, p + 8, code, exceptions + flags);
    HasBoth(b, p + 8 + |code|, exceptions, flags);
    ReadsU2(b, p, WrittenFlags(m.access));
    ReadsU2(b, p + 6, n);
    ReadsText(w, b, p + 2, index, m.name);
    ReadsText(w, b, p + 4, index, m.descriptor);
  }

  lemma MethodIs(d: Derived, w: seq<Const>, index: Indices, m: Method)
    requires MethodOk(d, w, index, m)
    ensures var code, exceptions := CodeAttribute(index, m), ExceptionsAttribute(index, m);
            var flags := EmptyAttribute(index, DeprecatedName(), m.deprecated) + EmptyAttribute(index, SyntheticName(), m.synthetic);
            && MethodBytes(index, m) ==
               U2(WrittenFlags(m.access)) + (U2(index.of(m.name)) + (U2(index.of(m.descriptor)) + (U2(AttributeCount(m)) + (code + (exceptions + flags)))))
            && |flags| == 6 * One(m.deprecated) + 6 * One(m.synthetic)
    ensures Refers(w, index, m.name) && Refers(w, index, m.descriptor) && d.argsSize(WrittenFlags(m.access), m.descriptor) <= 255
    ensures AttributeCount(m) == One(WrittenCode(m).Some?) + One(m.exceptions != []) + One(m.synthetic) + One(m.deprecated) < 0x1_0000
  {
    hide U2, U4, CodeAttribute, ExceptionsAttribute, CodeOk, CodeNamesRefer, CodeLength, Refers, DeprecatedName, SyntheticName;
  }

  lemma MethodStep(d: Derived, w: seq<Const>, b: seq<Byte>, p: nat, name: Text, descriptor: Text)
    requires p + 8 <= |b| && GetText(w, b, p + 2) == Some(name) && GetText(w, b, p + 4) == Some(descriptor)
    requires d.argsSize(WrittenFlags(Get2(b, p)), descriptor) <= 255
    ensures var access := WrittenFlags(Get2(b, p));
            ParseMethod(d, w, b, p) ==
            ParseMethodAttributes(w, b, p + 8, Get2(b, p + 6), Method(access, name, descriptor, None, [], false, false),
                                  d.argsSize(access, descriptor), d.mayHaveCode(access, name), false)
  {
    hide GetText, Get2, ParseMethodAttributes;
  }

  lemma Rebuilt(m: Method)
    ensures Reread(m) == Method(WrittenFlags(m.access), m.name, m.descriptor, None, [], false, false).(code := Reread(m).code).(exceptions := m.exceptions).(deprecated := m.deprecated, synthetic := m.synthetic)
  {
  }

  /** A method is read back as it was written, except for the stack maps. */
  lemma ReadsMethod(d: Derived, w: seq<Const>, b: seq<Byte>, p: nat, index: Indices, m: Method)
    requires MethodOk(d, w, index, m) && Has(b, p, MethodBytes(index, m))
    ensures ParseMethod(d, w, b, p) == Some((Reread(m), p + |MethodBytes(index, m)|))
  {
    OneAtMost();
    hide *;
    MethodParts(d, w, b, p, index, m);
    MethodStep(d, w, b, p, m.name, m.descriptor);
    var args, may := d.argsSize(WrittenFlags(m.access), m.descriptor), d.mayHaveCode(WrittenFlags(m.access), m.name);
    var m0 := Method(WrittenFlags(m.access), m.name, m.descriptor, None, [], false, false);
    var m1 := m0.(code := Reread(m).code);
    var m2 := m1.(exceptions := m.exceptions);
    Rebuilt(m);
    var n := AttributeCount(m);
    var q := p + 8 + |CodeAttribute(index, m)|;
    var r := q + |ExceptionsAttribute(index, m)|;
    AfterCode(d, w, b, p + 8, n, index, m, m0, args, may);
    AfterExceptions(d, w, b, q, n - One(WrittenCode(m).Some?), index, m, m1, args, may);
    AfterFlags(d, w, b, r, index, m, m2, args, may, m.exceptions != []);
  }

  // ----- all methods -----

  function MethodListBytes(index: Indices, ms: seq<Method>): seq<Byte> {
    if ms == [] then [] else MethodBytes(index, ms[0]) + MethodListBytes(index, ms[1..])
  }

  /** write_methods */
  function MethodsBytes(index: Indices, ms: seq<Method>): seq<Byte> {
    U2(|ms|) + MethodListBytes(index, ms)
  }

  function RereadAll(ms: seq<Method>): (r: seq<Method>)
    ensures |r| == |ms| && forall i | 0 <= i < |ms| :: r[i] == Reread(ms[i])
  {
    seq(|ms|, i requires 0 <= i < |ms| => Reread(ms[i]))
  }

  lemma ListStep(d: Derived, w: seq<Const>, b: seq<Byte>, p: nat, n: nat, m: Method, q: nat, rest: seq<Method>, end: nat)
    requires n > 0 && ParseMethod(d, w, b, p) == Some((m, q)) && ParseMethodList(d, w, b, q, n - 1) == Some((rest, end))
    ensures ParseMethodList(d, w, b, p, n) == Some(([m] + rest, end))
  {
    hide ParseMethod;
  }

  lemma {:induction false} ReadsMethodList(d: Derived, w: seq<Const>, b: seq<Byte>, p: nat, index: Indices, ms: seq<Method>)
    requires (forall i | 0 <= i < |ms| :: MethodOk(d, w, index, ms[i])) && Has(b, p, MethodListBytes(index, ms))
    ensures ParseMethodList(d, w, b, p, |ms|) == Some((RereadAll(ms), p + |MethodListBytes(index, ms)|))
    decreases |ms|
  {
    hide *;
    if ms == [] {
      NoMethods(d, w, b, p, index);
    } else {
      FirstMethod(index, ms);
      HasBoth(b, p, MethodBytes(index, ms[0]), MethodListBytes(index, ms[1..]));
      ReadsMethod(d, w, b, p, index, ms[0]);
      var q := p + |MethodBytes(index, ms[0])|;
      ReadsMethodList(d, w, b, q, index, ms[1..]);
      ListStep(d, w, b, p, |ms|, Reread(ms[0]), q, RereadAll(ms[1..]), q + |MethodListBytes(index, ms[1..])|);
    }
  }

  lemma NoMethods(d: Derived, w: seq<Const>, b: seq<Byte>, p: nat, index: Indices)
    ensures ParseMethodList(d, w, b, p, 0) == Some(([], p)) && MethodListBytes(index, []) == [] && RereadAll([]) == []
  {
  }

  lemma FirstMethod(index: Indices, ms: seq<Method>)
    requires ms != []
    ensures MethodListBytes(index, ms) == MethodBytes(index, ms[0]) + MethodListBytes(index, ms[1..])
    ensures [Reread(ms[0])] + RereadAll(ms[1..]) == RereadAll(ms)
  {
    hide MethodBytes, Reread;
  }

  /** The methods part of the class file is read back to its last byte. */
  lemma MethodsRoundTrip(d: Derived, w: seq<Const>, b: seq<Byte>, p: nat, index: Indices, ms: seq<Method>)
    requires |ms| < 0x1_0000 && (forall i | 0 <= i < |ms| :: MethodOk(d, w, index, ms[i])) && Has(b, p, MethodsBytes(index, ms))
    ensures ParseMethods(d, w, b, p) == Some((RereadAll(ms), p + |MethodsBytes(index, ms)|))
  {
    hide Has, MethodListBytes, U2, Get2, ParseMethodList, MethodOk;
    HasBoth(b, p, U2(|ms|), MethodListBytes(index, ms));
    ReadsU2(b, p, |ms|);
    ReadsMethodList(d, w, b, p + 2, index, ms);
  }
}
