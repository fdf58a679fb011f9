/** write_methods: the methods appended to the class buffer, and the whole round trip. */
module MethodWriter {
  import opened Octets
  import opened Types
  import opened ModifiedUtf8
  import opened ConstantPool
  import opened ClassBytes
  import opened ClassWriter
  import MethodFormat

  type Method = MethodFormat.Method
  type Row = MethodFormat.Row

  /** lookup_utf8 once all strings are there, and last_not_utf8_index. */
  function IndexIn(pool: seq<Const>, n: nat, added: seq<Text>): MethodFormat.Indices
    requires pool != [] && pool[0].Unusable?
  {
    MethodFormat.Indices(t => Lookup(pool, n, added, t), LastNotUtf8(pool))
  }

  // ----- one more item at the end -----

  lemma {:induction false} RowEnd(row: Row, v: nat)
    ensures MethodFormat.RowBytes(row + [v]) == MethodFormat.RowBytes(row) + U2(v)
  {
    hide U2;
    if row == [] {
      assert [v][1..] == [];
      assert row + [v] == [v];
    } else {
      assert (row + [v])[1..] == row[1..] + [v];
      RowEnd(row[1..], v);
    }
  }

  lemma {:induction false} RowsEnd(rows: seq<Row>, row: Row)
    ensures MethodFormat.RowsBytes(rows + [row]) == MethodFormat.RowsBytes(rows) + MethodFormat.RowBytes(row)
  {
    hide MethodFormat.RowBytes;
    if rows == [] {
      assert [row][1..] == [];
      assert rows + [row] == [row];
    } else {
      assert (rows + [row])[1..] == rows[1..] + [row];
      RowsEnd(rows[1..], row);
    }
  }

  lemma {:induction false} EntriesEnd(index: MethodFormat.Indices, es: seq<MethodFormat.MapEntry>, e: MethodFormat.MapEntry)
    ensures MethodFormat.EntriesBytes(index, es + [e]) == MethodFormat.EntriesBytes(index, es) + MethodFormat.EntryMapBytes(index, e)
  {
    hide MethodFormat.EntryMapBytes;
    if es == [] {
      assert [e][1..] == [];
      assert es + [e] == [e];
    } else {
      assert (es + [e])[1..] == es[1..] + [e];
      EntriesEnd(index, es[1..], e);
    }
  }

  lemma {:induction false} MapsEnd(index: MethodFormat.Indices, ms: seq<MethodFormat.StackMap>, m: MethodFormat.StackMap)
    ensures MethodFormat.MapsBytes(index, ms + [m]) == MethodFormat.MapsBytes(index, ms) + MethodFormat.MapBytes(index, m)
  {
    hide MethodFormat.MapBytes;
    if ms == [] {
      assert [m][1..] == [];
      assert ms + [m] == [m];
    } else {
      assert (ms + [m])[1..] == ms[1..] + [m];
      MapsEnd(index, ms[1..], m);
    }
  }

  lemma {:induction false} MethodsEnd(index: MethodFormat.Indices, ms: seq<Method>, m: Method)
    ensures MethodFormat.MethodListBytes(index, ms + [m]) == MethodFormat.MethodListBytes(index, ms) + MethodFormat.MethodBytes(index, m)
  {
    hide MethodFormat.MethodBytes;
    if ms == [] {
      assert [m][1..] == [];
      assert ms + [m] == [m];
    } else {
      assert (ms + [m])[1..] == ms[1..] + [m];
      MethodsEnd(index, ms[1..], m);
    }
  }

  lemma UpTo<T>(s: seq<T>, i: nat)
    requires i < |s|
    ensures s[..i + 1] == s[..i] + [s[i]]
  {
  }

  lemma Joined(start: seq<Byte>, a: seq<Byte>, b: seq<Byte>)
    ensures start + a + b == start + (a + b)
  {
  }

  // ----- the loops -----

  method WriteRow(out: Writer, row: Row)
    modifies out`buf
    ensures out.buf == old(out.buf) + MethodFormat.RowBytes(row)
  {
    hide *;
    Nothing();
    ghost var start := out.buf;
    var i := 0;
    while i < |row|
      invariant 0 <= i <= |row| && out.buf == start + MethodFormat.RowBytes(row[..i])
    {
      out.WriteU2(row[i]);
      UpTo(row, i);
      RowEnd(row[..i], row[i]);
      Joined(start, MethodFormat.RowBytes(row[..i]), U2(row[i]));
      i := i + 1;
    }
    assert row[..|row|] == row;
  }

  method WriteRows(out: Writer, rows: seq<Row>)
    modifies out`buf
    ensures out.buf == old(out.buf) + MethodFormat.RowsBytes(rows)
  {
    hide *;
    Nothing();
    ghost var start := out.buf;
    var i := 0;
    while i < |rows|
      invariant 0 <= i <= |rows| && out.buf == start + MethodFormat.RowsBytes(rows[..i])
    {
      WriteRow(out, rows[i]);
      UpTo(rows, i);
      RowsEnd(rows[..i], rows[i]);
      Joined(start, MethodFormat.RowsBytes(rows[..i]), MethodFormat.RowBytes(rows[i]));
      i := i + 1;
    }
    assert rows[..|rows|] == rows;
  }

  lemma Nothing()
    ensures MethodFormat.RowBytes([]) == [] && MethodFormat.RowsBytes([]) == []
    ensures forall index :: MethodFormat.EntriesBytes(index, []) == [] && MethodFormat.MapsBytes(index, []) == []
    ensures forall index :: MethodFormat.MethodListBytes(index, []) == []
  {
  }

  /** write_stack_map */
  method WriteStackMap(out: Writer, last: nat, ghost index: MethodFormat.Indices, es: seq<MethodFormat.MapEntry>)
    requires index.lastOld == last
    modifies out`buf
    ensures out.buf == old(out.buf) + MethodFormat.EntriesBytes(index, es)
  {
    hide *;
    Nothing();
    ghost var start := out.buf;
    var i := 0;
    while i < |es|
      invariant 0 <= i <= |es| && out.buf == start + MethodFormat.EntriesBytes(index, es[..i])
    {
      WriteMapEntry(out, last, index, es[i]);
      UpTo(es, i);
      EntriesEnd(index, es[..i], es[i]);
      Joined(start, MethodFormat.EntriesBytes(index, es[..i]), MethodFormat.EntryMapBytes(index, es[i]));
      i := i + 1;
    }
    assert es[..|es|] == es;
  }

  method WriteMapEntry(out: Writer, last: nat, ghost index: MethodFormat.Indices, e: MethodFormat.MapEntry)
    requires index.lastOld == last
    modifies out`buf
    ensures out.buf == old(out.buf) + MethodFormat.EntryMapBytes(index, e)
  {
    hide U2;
    out.WriteU1(e.tag);
    if e.tag == MethodFormat.ITEM_NEW_OBJECT {
      out.WriteU2(e.info % 0x1_0000);
    }
    if e.tag == MethodFormat.ITEM_OBJECT {
      if e.info >= 0 {
        out.WriteU2(e.info);
      } else {
        out.WriteU2(last + 1 + (-1 - e.info));
      }
    }
  }

  method WriteStackMaps(out: Writer, last: nat, ghost index: MethodFormat.Indices, ms: seq<MethodFormat.StackMap>)
    requires index.lastOld == last
    modifies out`buf
    ensures out.buf == old(out.buf) + MethodFormat.MapsBytes(index, ms)
  {
    hide *;
    Nothing();
    ghost var start := out.buf;
    var j := 0;
    while j < |ms|
      invariant 0 <= j <= |ms| && out.buf == start + MethodFormat.MapsBytes(index, ms[..j])
    {
      WriteOneMap(out, last, index, ms[j]);
      UpTo(ms, j);
      MapsEnd(index, ms[..j], ms[j]);
      Joined(start, MethodFormat.MapsBytes(index, ms[..j]), MethodFormat.MapBytes(index, ms[j]));
      j := j + 1;
    }
    assert ms[..|ms|] == ms;
  }

  method WriteOneMap(out: Writer, last: nat, ghost index: MethodFormat.Indices, m: MethodFormat.StackMap)
    requires index.lastOld == last
    modifies out`buf
    ensures out.buf == old(out.buf) + MethodFormat.MapBytes(index, m)
  {
    hide U2, MethodFormat.EntriesBytes;
    out.WriteU2(m.offset);
    out.WriteU2(|m.locals|);
    WriteStackMap(out, last, index, m.locals);
    out.WriteU2(|m.stacks|);
    WriteStackMap(out, last, index, m.stacks);
  }

  /** The size that write_methods computes ahead for the stack maps. */
  method SizeOfMaps(ms: seq<MethodFormat.StackMap>) returns (size: nat)
    ensures size == MethodFormat.MapsSize(ms)
  {
    hide MethodFormat.StackMapSize;
    size := 0;
    var j := |ms|;
    while j > 0
      invariant 0 <= j <= |ms| && size == MethodFormat.MapsSize(ms[j..])
    {
      j := j - 1;
      size := 6 + MethodFormat.StackMapSize(ms[j].locals) + MethodFormat.StackMapSize(ms[j].stacks) + size;
      assert ms[j..][1..] == ms[j + 1..] && ms[j..][0] == ms[j];
    }
    assert ms[0..] == ms;
  }

  // ----- attributes -----

  /** The pool is sealed: every string that is looked up is there. */
  ghost predicate Sealed(out: Writer)
    reads out
  {
    out.pool != [] && out.pool[0].Unusable?
  }

  ghost function IndexOf(out: Writer): MethodFormat.Indices
    requires Sealed(out)
    reads out
  {
    IndexIn(out.pool, |out.classes|, out.newUtf8)
  }

  method WriteName(out: Writer, name: Text)
    requires Sealed(out) && Known(out.pool, out.newUtf8, name)
    modifies out`buf, out`newUtf8
    ensures out.newUtf8 == old(out.newUtf8) && Sealed(out)
    ensures out.buf == old(out.buf) + U2(IndexOf(out).of(name))
  {
    hide U2, Known, Lookup;
    var i := out.LookupUtf8(name);
    out.WriteU2(i);
  }

  method WriteList(out: Writer, name: Text, count: nat, length: nat)
    requires Sealed(out) && Known(out.pool, out.newUtf8, name)
    modifies out`buf, out`newUtf8
    ensures out.newUtf8 == old(out.newUtf8) && Sealed(out)
    ensures out.buf == old(out.buf) + (U2(IndexOf(out).of(name)) + U4(length) + U2(count))
  {
    hide U2, U4, Known, Lookup;
    WriteName(out, name);
    out.WriteU4(length);
    out.WriteU2(count);
  }

  /** The strings of a method that are looked up when it is written. */
  predicate NamesOf(pool: seq<Const>, added: seq<Text>, m: Method) {
    && Known(pool, added, m.name) && Known(pool, added, m.descriptor)
    && (MethodFormat.WrittenCode(m).Some? ==> CodeNamesOf(pool, added, m.code.value) && Known(pool, added, MethodFormat.CodeName()))
    && (m.exceptions != [] ==> Known(pool, added, MethodFormat.ExceptionsName()))
    && (m.deprecated ==> Known(pool, added, MethodFormat.DeprecatedName()))
    && (m.synthetic ==> Known(pool, added, MethodFormat.SyntheticName()))
  }

  predicate CodeNamesOf(pool: seq<Const>, added: seq<Text>, c: MethodFormat.Code) {
    && (c.lines != [] ==> Known(pool, added, MethodFormat.LineNumberTableName()))
    && (c.vars != [] ==> Known(pool, added, MethodFormat.LocalVariableTableName()))
    && (c.maps != [] ==> Known(pool, added, StackMapName()))
    && forall i | 0 <= i < |c.vars| :: Known(pool, added, c.vars[i].name) && Known(pool, added, c.vars[i].descriptor)
  }

  method WriteLines(out: Writer, c: MethodFormat.Code)
    requires Sealed(out) && CodeNamesOf(out.pool, out.newUtf8, c)
    modifies out`buf, out`newUtf8
    ensures out.newUtf8 == old(out.newUtf8) && Sealed(out)
    ensures out.buf == old(out.buf) + MethodFormat.LinesAttribute(IndexOf(out), c)
  {
    hide U2, U4, Known, Lookup, MethodFormat.RowsBytes, MethodFormat.LineNumberTableName, IndexIn;
    if |c.lines| > 0 {
      WriteList(out, MethodFormat.LineNumberTableName(), |c.lines|, MethodFormat.LinesLength(c) - 6);
      WriteRows(out, c.lines);
    }
  }

  method WriteVars(out: Writer, c: MethodFormat.Code)
    requires Sealed(out) && CodeNamesOf(out.pool, out.newUtf8, c)
    modifies out`buf, out`newUtf8
    ensures out.newUtf8 == old(out.newUtf8) && Sealed(out)
    ensures out.buf == old(out.buf) + MethodFormat.VarsAttribute(IndexOf(out), c)
  {
    hide U2, U4, Known, Lookup, MethodFormat.RowsBytes, MethodFormat.LocalVariableTableName, IndexIn, MethodFormat.VarRow;
    if |c.vars| > 0 {
      WriteList(out, MethodFormat.LocalVariableTableName(), |c.vars|, MethodFormat.VarsLength(c) - 6);
      WriteVarRows(out, c);
    }
  }

  method WriteVarRows(out: Writer, c: MethodFormat.Code)
    requires Sealed(out) && CodeNamesOf(out.pool, out.newUtf8, c)
    modifies out`buf, out`newUtf8
    ensures out.newUtf8 == old(out.newUtf8) && Sealed(out)
    ensures out.buf == old(out.buf) + MethodFormat.RowsBytes(MethodFormat.VarRows(IndexOf(out), c.vars))
  {
    hide U2, Known, Lookup, MethodFormat.RowsBytes, MethodFormat.RowBytes, IndexIn;
    Nothing();
    ghost var start, rows, added := out.buf, MethodFormat.VarRows(IndexOf(out), c.vars), out.newUtf8;
    var j := 0;
    while j < |c.vars|
      invariant 0 <= j <= |c.vars| && out.newUtf8 == added && Sealed(out)
      invariant out.buf == start + MethodFormat.RowsBytes(rows[..j])
    {
      ghost var before := out.buf;
      WriteVar(out, c.vars[j]);
      UpTo(rows, j);
      RowsEnd(rows[..j], rows[j]);
      Joined(start, MethodFormat.RowsBytes(rows[..j]), MethodFormat.RowBytes(rows[j]));
      j := j + 1;
    }
    assert rows[..|rows|] == rows;
  }

  method WriteVar(out: Writer, v: MethodFormat.LocalVar)
    requires Sealed(out) && Known(out.pool, out.newUtf8, v.name) && Known(out.pool, out.newUtf8, v.descriptor)
    modifies out`buf, out`newUtf8
    ensures out.newUtf8 == old(out.newUtf8) && Sealed(out)
    ensures out.buf == old(out.buf) + MethodFormat.RowBytes(MethodFormat.VarRow(IndexOf(out), v))
  {
    hide U2, Known, Lookup, MethodFormat.RowBytes, IndexIn;
    var name := out.LookupUtf8(v.name);
    var descriptor := out.LookupUtf8(v.descriptor);
    IndexIs(out, v.name);
    IndexIs(out, v.descriptor);
    WriteRow(out, [v.pc0, v.length, name, descriptor, v.slot]);
  }

  lemma IndexIs(out: Writer, t: Text)
    requires Sealed(out)
    ensures IndexOf(out).of(t) == Lookup(out.pool, |out.classes|, out.newUtf8, t) && IndexOf(out).lastOld == LastNotUtf8(out.pool)
  {
  }

  method WriteMapsAttribute(out: Writer, c: MethodFormat.Code, length: nat)
    requires Sealed(out) && CodeNamesOf(out.pool, out.newUtf8, c) && length == MethodFormat.MapsLength(c)
    modifies out`buf, out`newUtf8
    ensures out.newUtf8 == old(out.newUtf8) && Sealed(out)
    ensures out.buf == old(out.buf) + MethodFormat.MapsAttribute(IndexOf(out), c)
  {
    hide U2, U4, Known, Lookup, MethodFormat.MapsBytes, StackMapName, IndexIn, LastNotUtf8;
    if |c.maps| > 0 {
      WriteList(out, StackMapName(), |c.maps|, length - 6);
      IndexIs(out, StackMapName());
      WriteStackMaps(out, LastNotUtf8(out.pool), IndexOf(out), c.maps);
    }
  }

  /** The Code attribute behind its name. */
  method WriteCode(out: Writer, c: MethodFormat.Code)
    requires Sealed(out) && CodeNamesOf(out.pool, out.newUtf8, c)
    modifies out`buf, out`newUtf8
    ensures out.newUtf8 == old(out.newUtf8) && Sealed(out)
    ensures out.buf == old(out.buf) + (U4(MethodFormat.CodeLength(c)) + MethodFormat.CodeContent(IndexOf(out), c))
  {
    hide U2, U4, Known, Lookup, IndexIn, CodeNamesOf, MethodFormat.RowsBytes, MethodFormat.MapsSize, MethodFormat.LinesAttribute,
         MethodFormat.VarsAttribute, MethodFormat.MapsAttribute, MethodFormat.CodeContent, MethodFormat.CodeLength, MethodFormat.LinesLength,
         MethodFormat.VarsLength, MethodFormat.MapsLength, MethodFormat.CodeAttributes;
    ghost var start, index := out.buf, IndexOf(out);
    ghost var r1, r2, r3 := MethodFormat.LinesAttribute(index, c), MethodFormat.VarsAttribute(index, c), MethodFormat.MapsAttribute(index, c);
    CodeParts(index, c);
    var mapsLength := 0;
    if |c.maps| > 0 {
      var size := SizeOfMaps(c.maps);
      mapsLength := 8 + size;
    }
    out.WriteU4(12 + |c.bytes| + |c.table| * 8 + mapsLength + MethodFormat.LinesLength(c) + MethodFormat.VarsLength(c));
    out.WriteU2(c.maxStack);
    out.WriteU2(c.nlocals);
    out.WriteU4(|c.bytes|);
    out.WriteBytes(c.bytes);
    out.WriteU2(|c.table|);
    WriteRows(out, c.table);
    out.WriteU2(MethodFormat.CodeAttributes(c));
    assert out.buf == start + U4(MethodFormat.CodeLength(c)) + U2(c.maxStack) + U2(c.nlocals) + U4(|c.bytes|) + c.bytes + U2(|c.table|)
                      + MethodFormat.RowsBytes(c.table) + U2(MethodFormat.CodeAttributes(c));
    WriteLines(out, c);
    WriteVars(out, c);
    WriteMapsAttribute(out, c, mapsLength);
    Nested(start, U4(MethodFormat.CodeLength(c)), U2(c.maxStack), U2(c.nlocals), U4(|c.bytes|), c.bytes, U2(|c.table|), MethodFormat.RowsBytes(c.table),
           U2(MethodFormat.CodeAttributes(c)), r1, r2, r3);
  }

  lemma CodeParts(index: MethodFormat.Indices, c: MethodFormat.Code)
    ensures MethodFormat.CodeLength(c) == 12 + |c.bytes| + |c.table| * 8 + MethodFormat.MapsLength(c) + MethodFormat.LinesLength(c) + MethodFormat.VarsLength(c)
    ensures MethodFormat.MapsLength(c) == if |c.maps| == 0 then 0 else 8 + MethodFormat.MapsSize(c.maps)
    ensures MethodFormat.CodeContent(index, c) ==
            U2(c.maxStack) + (U2(c.nlocals) + (U4(|c.bytes|) + (c.bytes + (U2(|c.table|) + (MethodFormat.RowsBytes(c.table) +
            (U2(MethodFormat.CodeAttributes(c)) + (MethodFormat.LinesAttribute(index, c) +
            (MethodFormat.VarsAttribute(index, c) + MethodFormat.MapsAttribute(index, c)))))))))
  {
    hide U2, U4, MethodFormat.RowsBytes, MethodFormat.MapsSize, MethodFormat.LinesAttribute, MethodFormat.VarsAttribute, MethodFormat.MapsAttribute,
         MethodFormat.LinesLength, MethodFormat.VarsLength, MethodFormat.CodeAttributes;
  }

  lemma Nested(s: seq<Byte>, a: seq<Byte>, b: seq<Byte>, c: seq<Byte>, d: seq<Byte>, e: seq<Byte>, f: seq<Byte>, g: seq<Byte>,
               h: seq<Byte>, i: seq<Byte>, j: seq<Byte>, k: seq<Byte>)
    ensures s + a + b + c + d + e + f + g + h + i + j + k == s + (a + (b + (c + (d + (e + (f + (g + (h + (i + (j + k))))))))))
  {
    Nested5(s + a + b + c + d + e, f, g, h, i, j, k);
    Nested5(s, a, b, c, d, e, f + (g + (h + (i + (j + k)))));
  }

  lemma Nested5(s: seq<Byte>, a: seq<Byte>, b: seq<Byte>, c: seq<Byte>, d: seq<Byte>, e: seq<Byte>, f: seq<Byte>)
    ensures s + a + b + c + d + e + f == s + (a + (b + (c + (d + (e + f)))))
  {
    Joined(s + a + b + c + d, e, f);
    Joined(s + a + b + c, d, e + f);
    Joined(s + a + b, c, d + (e + f));
    Joined(s + a, b, c + (d + (e + f)));
    Joined(s, a, b + (c + (d + (e + f))));
  }

  // ----- whole methods -----

  method WriteCodeAttribute(out: Writer, m: Method)
    requires Sealed(out) && NamesOf(out.pool, out.newUtf8, m)
    modifies out`buf, out`newUtf8
    ensures out.newUtf8 == old(out.newUtf8) && Sealed(out)
    ensures out.buf == old(out.buf) + MethodFormat.CodeAttribute(IndexOf(out), m)
  {
    hide U2, U4, Known, Lookup, IndexIn, CodeNamesOf, MethodFormat.CodeName, MethodFormat.CodeLength, MethodFormat.CodeContent;
    if m.code.Some? && |m.code.value.bytes| > 0 {
      ghost var start, index, c := out.buf, IndexOf(out), m.code.value;
      WriteName(out, MethodFormat.CodeName());
      WriteCode(out, m.code.value);
      Joined(start, U2(index.of(MethodFormat.CodeName())), U4(MethodFormat.CodeLength(c)) + MethodFormat.CodeContent(index, c));
    }
  }

  method WriteExceptions(out: Writer, m: Method)
    requires Sealed(out) && NamesOf(out.pool, out.newUtf8, m)
    modifies out`buf, out`newUtf8
    ensures out.newUtf8 == old(out.newUtf8) && Sealed(out)
    ensures out.buf == old(out.buf) + MethodFormat.ExceptionsAttribute(IndexOf(out), m)
  {
    hide U2, U4, Known, Lookup, IndexIn, CodeNamesOf, MethodFormat.ExceptionsName, MethodFormat.RowBytes;
    if |m.exceptions| > 0 {
      WriteList(out, MethodFormat.ExceptionsName(), |m.exceptions|, 2 + |m.exceptions| * 2);
      WriteRow(out, m.exceptions);
    }
  }

  method WriteEmpty(out: Writer, name: Text, present: bool)
    requires Sealed(out) && (present ==> Known(out.pool, out.newUtf8, name))
    modifies out`buf, out`newUtf8
    ensures out.newUtf8 == old(out.newUtf8) && Sealed(out)
    ensures out.buf == old(out.buf) + MethodFormat.EmptyAttribute(IndexOf(out), name, present)
  {
    hide U2, U4, Known, Lookup, IndexIn;
    if present {
      WriteName(out, name);
      out.WriteU4(0);
    }
  }

  /** One round of the loop of write_methods. */
  method WriteMethod(out: Writer, m: Method)
    requires Sealed(out) && NamesOf(out.pool, out.newUtf8, m)
    modifies out`buf, out`newUtf8
    ensures out.newUtf8 == old(out.newUtf8) && Sealed(out)
    ensures out.buf == old(out.buf) + MethodFormat.MethodBytes(IndexOf(out), m)
  {
    hide U2, Known, Lookup, IndexIn, CodeNamesOf, MethodFormat.CodeAttribute, MethodFormat.ExceptionsAttribute, MethodFormat.EmptyAttribute,
         MethodFormat.CodeName, MethodFormat.ExceptionsName, MethodFormat.DeprecatedName, MethodFormat.SyntheticName, MethodFormat.One;
    ghost var start, index := out.buf, IndexOf(out);
    out.WriteU2(MethodFormat.WrittenFlags(m.access));
    WriteName(out, m.name);
    WriteName(out, m.descriptor);
    out.WriteU2(MethodFormat.AttributeCount(m));
    WriteCodeAttribute(out, m);
    WriteExceptions(out, m);
    WriteEmpty(out, MethodFormat.DeprecatedName(), m.deprecated);
    WriteEmpty(out, MethodFormat.SyntheticName(), m.synthetic);
    NestedMethod(start, index, m);
  }

  lemma NestedMethod(start: seq<Byte>, index: MethodFormat.Indices, m: Method)
    ensures start + U2(MethodFormat.WrittenFlags(m.access)) + U2(index.of(m.name)) + U2(index.of(m.descriptor)) + U2(MethodFormat.AttributeCount(m))
            + MethodFormat.CodeAttribute(index, m) + MethodFormat.ExceptionsAttribute(index, m)
            + MethodFormat.EmptyAttribute(index, MethodFormat.DeprecatedName(), m.deprecated)
            + MethodFormat.EmptyAttribute(index, MethodFormat.SyntheticName(), m.synthetic)
            == start + MethodFormat.MethodBytes(index, m)
  {
    var a, b, c, d := U2(MethodFormat.WrittenFlags(m.access)), U2(index.of(m.name)), U2(index.of(m.descriptor)), U2(MethodFormat.AttributeCount(m));
    var e, f := MethodFormat.CodeAttribute(index, m), MethodFormat.ExceptionsAttribute(index, m);
    var g := MethodFormat.EmptyAttribute(index, MethodFormat.DeprecatedName(), m.deprecated);
    var h := MethodFormat.EmptyAttribute(index, MethodFormat.SyntheticName(), m.synthetic);
    MethodBytesAre(index, m);
    hide *;
    Nested5(start + a + b, c, d, e, f, g, h);
    Joined(start + a, b, c + (d + (e + (f + (g + h)))));
    Joined(start, a, b + (c + (d + (e + (f + (g + h))))));
  }

  lemma MethodBytesAre(index: MethodFormat.Indices, m: Method)
    ensures MethodFormat.MethodBytes(index, m) ==
            U2(MethodFormat.WrittenFlags(m.access)) + (U2(index.of(m.name)) + (U2(index.of(m.descriptor)) + (U2(MethodFormat.AttributeCount(m)) +
            (MethodFormat.CodeAttribute(index, m) + (MethodFormat.ExceptionsAttribute(index, m) +
            (MethodFormat.EmptyAttribute(index, MethodFormat.DeprecatedName(), m.deprecated) +
             MethodFormat.EmptyAttribute(index, MethodFormat.SyntheticName(), m.synthetic)))))))
  {
  }

  /** write_methods */
  method WriteMethods(out: Writer, ms: seq<Method>)
    requires Sealed(out) && forall i | 0 <= i < |ms| :: NamesOf(out.pool, out.newUtf8, ms[i])
    modifies out`buf, out`newUtf8
    ensures out.newUtf8 == old(out.newUtf8) && Sealed(out)
    ensures out.buf == old(out.buf) + MethodFormat.MethodsBytes(IndexOf(out), ms)
  {
    hide U2, NamesOf, MethodFormat.MethodBytes, MethodFormat.MethodListBytes, IndexIn;
    Nothing();
    ghost var before, index, added := out.buf, IndexOf(out), out.newUtf8;
    out.WriteU2(|ms|);
    ghost var start := out.buf;
    var i := 0;
    while i < |ms|
      invariant 0 <= i <= |ms| && out.newUtf8 == added && Sealed(out)
      invariant out.buf == start + MethodFormat.MethodListBytes(index, ms[..i])
    {
      WriteMethod(out, ms[i]);
      UpTo(ms, i);
      MethodsEnd(index, ms[..i], ms[i]);
      Joined(start, MethodFormat.MethodListBytes(index, ms[..i]), MethodFormat.MethodBytes(index, ms[i]));
      i := i + 1;
    }
    assert ms[..|ms|] == ms;
    Joined(before, U2(|ms|), MethodFormat.MethodListBytes(index, ms));
  }

  // ----- what the reader needs of a method -----

  /** What a verified method has, apart from its strings. */
  predicate MethodFits(d: MethodFormat.Derived, m: Method) {
    && d.argsSize(MethodFormat.WrittenFlags(m.access), m.descriptor) <= 255
    && (MethodFormat.WrittenCode(m).Some? ==>
          && MethodFormat.CodeOk(m.code.value) && MethodFormat.CodeLength(m.code.value) < 0x1_0000_0000
          && d.argsSize(MethodFormat.WrittenFlags(m.access), m.descriptor) <= m.code.value.nlocals && d.mayHaveCode(MethodFormat.WrittenFlags(m.access), m.name))
    && (m.exceptions != [] ==> |m.exceptions| < 0x1_0000 && forall i | 0 <= i < |m.exceptions| :: m.exceptions[i] < 0x1_0000)
  }

  /** A string that is known when the pool is sealed is found by the reader under the index written for it. */
  lemma KnownRefers(pool: seq<Const>, classes: seq<Text>, added: seq<Text>, t: Text)
    requires ValidPool(pool) && |pool| + |classes| + |added| <= MOST_CONSTANTS && Known(pool, added, t)
    ensures MethodFormat.Refers(Written(pool, classes, added), IndexIn(pool, |classes|, added), t)
  {
    LookupResolves(pool, classes, added, t);
  }

  lemma MethodIsOk(d: MethodFormat.Derived, pool: seq<Const>, classes: seq<Text>, added: seq<Text>, m: Method)
    requires ValidPool(pool) && |pool| + |classes| + |added| <= MOST_CONSTANTS
    requires NamesOf(pool, added, m) && MethodFits(d, m)
    ensures MethodFormat.MethodOk(d, Written(pool, classes, added), IndexIn(pool, |classes|, added), m)
  {
    var w, index := Written(pool, classes, added), IndexIn(pool, |classes|, added);
    forall t | Known(pool, added, t) ensures MethodFormat.Refers(w, index, t) {
      KnownRefers(pool, classes, added, t);
    }
    hide Known, Lookup, IndexIn, Written, ValidPool, MethodFormat.Refers, MethodFormat.CodeOk, MethodFormat.CodeLength,
         MethodFormat.CodeName, MethodFormat.ExceptionsName, MethodFormat.DeprecatedName, MethodFormat.SyntheticName,
         MethodFormat.LineNumberTableName, MethodFormat.LocalVariableTableName, StackMapName;
  }
}
