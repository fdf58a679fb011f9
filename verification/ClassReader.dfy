/** The reader of classloader.c with its moving pointer, proved against the formats of ClassBytes and MethodFormat. */
module ClassReader {
  import opened Octets
  import opened Types
  import opened ModifiedUtf8
  import opened ConstantPool
  import opened ClassBytes
  import opened MethodFormat

  /** A result and the new pointer are what the format says; no result stands for an error. */
  predicate Agrees<T(==)>(r: Option<T>, spec: Option<(T, nat)>, p: nat) {
    if spec.None? then r.None? else r == Some(spec.value.0) && p == spec.value.1
  }

  /** A list whose first part has been read. */
  function Before<T>(done: seq<T>, rest: Option<(seq<T>, nat)>): Option<(seq<T>, nat)> {
    if rest.None? then None else Some((done + rest.value.0, rest.value.1))
  }

  lemma BeforeBefore<T>(a: seq<T>, b: seq<T>, rest: Option<(seq<T>, nat)>)
    ensures Before(a, Before(b, rest)) == Before(a + b, rest)
    ensures Before([], rest) == rest
  {
    if rest.Some? {
      assert a + (b + rest.value.0) == a + b + rest.value.0;
      assert [] + rest.value.0 == rest.value.0;
    }
  }

  // ----- one more step of each list -----

  lemma EntriesStep(b: seq<Byte>, p: nat, n: nat)
    requires n > 0
    ensures ParseConst(b, p).None? ==> ParseEntries(b, p, n).None?
    ensures ParseConst(b, p).Some? ==>
              var c, q := ParseConst(b, p).value.0, ParseConst(b, p).value.1;
              var slots := if c.Wide? then [c, Unusable] else [c];
              ParseEntries(b, p, n) == if |slots| > n then None else Before(slots, ParseEntries(b, q, n - |slots|))
  {
    hide ParseConst;
  }

  lemma RowStep(b: seq<Byte>, p: nat, n: nat)
    requires n > 0
    ensures ParseRow(b, p, n) == if p + 2 > |b| then None else Before([Get2(b, p)], ParseRow(b, p + 2, n - 1))
  {
  }

  lemma RowsAre(b: seq<Byte>, p: nat, count: nat, n: nat)
    requires count > 0
    ensures ParseRows(b, p, count, n) ==
            var first := ParseRow(b, p, n); if first.None? then None else Before([first.value.0], ParseRows(b, first.value.1, count - 1, n))
  {
    hide ParseRow;
  }

  lemma MethodsAre(d: Derived, w: seq<Const>, b: seq<Byte>, p: nat, n: nat)
    requires n > 0
    ensures ParseMethodList(d, w, b, p, n) ==
            var first := ParseMethod(d, w, b, p); if first.None? then None else Before([first.value.0], ParseMethodList(d, w, b, first.value.1, n - 1))
  {
    hide ParseMethod;
  }

  lemma Ends(d: Derived, w: seq<Const>, b: seq<Byte>, p: nat, k: nat)
    ensures ParseEntries(b, p, 0) == Some(([], p)) && ParseRow(b, p, 0) == Some(([], p)) && ParseRows(b, p, 0, k) == Some(([], p))
    ensures ParseMethodList(d, w, b, p, 0) == Some(([], p))
  {
  }

  // ----- local variables -----

  /** A row of the local variable table with its strings. */
  function ParseVar(w: seq<Const>, b: seq<Byte>, p: nat): Option<(LocalVar, nat)> {
    var row := ParseRow(b, p, 5);
    if row.None? || VarOf(w, row.value.0).None? then None else Some((VarOf(w, row.value.0).value, row.value.1))
  }

  lemma RowOfFive(b: seq<Byte>, p: nat)
    ensures ParseRow(b, p, 5) ==
            if p + 10 > |b| then None else Some(([Get2(b, p), Get2(b, p + 2), Get2(b, p + 4), Get2(b, p + 6), Get2(b, p + 8)], p + 10))
  {
    RowStep(b, p, 5);
    RowStep(b, p + 2, 4);
    RowStep(b, p + 4, 3);
    RowStep(b, p + 6, 2);
    RowStep(b, p + 8, 1);
    hide Get2, ParseRow;
    RowEnd(b, p + 10);
    if p + 10 <= |b| {
      var v0, v1, v2, v3, v4 := Get2(b, p), Get2(b, p + 2), Get2(b, p + 4), Get2(b, p + 6), Get2(b, p + 8);
      assert [v4] + [] == [v4] && [v3] + [v4] == [v3, v4] && [v2] + [v3, v4] == [v2, v3, v4];
      assert [v1] + [v2, v3, v4] == [v1, v2, v3, v4] && [v0] + [v1, v2, v3, v4] == [v0, v1, v2, v3, v4];
    }
  }

  lemma RowEnd(b: seq<Byte>, p: nat)
    ensures ParseRow(b, p, 0) == Some(([], p))
  {
  }

  lemma VarIs(w: seq<Const>, b: seq<Byte>, p: nat)
    ensures ParseVar(w, b, p) ==
            if p + 10 > |b| || GetText(w, b, p + 4).None? || GetText(w, b, p + 6).None? then None
            else Some((LocalVar(Get2(b, p), Get2(b, p + 2), GetText(w, b, p + 4).value, GetText(w, b, p + 6).value, Get2(b, p + 8)), p + 10))
  {
    RowOfFive(b, p);
    hide Get2, ParseRow;
  }

  /** The local variable table read variable by variable. */
  function ParseVars(w: seq<Const>, b: seq<Byte>, p: nat, n: nat): Option<(seq<LocalVar>, nat)>
    decreases n
  {
    if n == 0 then Some(([], p))
    else
      var first := ParseVar(w, b, p);
      if first.None? then None else Before([first.value.0], ParseVars(w, b, first.value.1, n - 1))
  }

  /** It comes to the same whether the strings are looked up row by row or behind the table. */
  lemma {:induction false} VarsAreRows(w: seq<Const>, b: seq<Byte>, p: nat, n: nat)
    ensures var rows := ParseRows(b, p, n, 5);
            ParseVars(w, b, p, n) ==
            if rows.None? || VarsOf(w, rows.value.0).None? then None else Some((VarsOf(w, rows.value.0).value, rows.value.1))
    decreases n
  {
    if n > 0 {
      RowsAre(b, p, n, 5);
      var row := ParseRow(b, p, 5);
      if row.Some? {
        VarsAreRows(w, b, row.value.1, n - 1);
        var rest := ParseRows(b, row.value.1, n - 1, 5);
        if rest.Some? {
          var rows := [row.value.0] + rest.value.0;
          assert rows[0] == row.value.0 && rows[1..] == rest.value.0;
        }
      }
      hide ParseRow, ParseRows, VarOf;
    }
  }

  lemma VarsStepIs(w: seq<Const>, b: seq<Byte>, p: nat, n: nat)
    ensures ParseVars(w, b, p, 0) == Some(([], p))
    ensures n > 0 ==>
              ParseVars(w, b, p, n) ==
              var first := ParseVar(w, b, p);
              if first.None? then None else Before([first.value.0], ParseVars(w, b, first.value.1, n - 1))
  {
    hide ParseVar;
  }

  /** ReadLocalVars; p is at the length. */
  function ParseVarTable(w: seq<Const>, b: seq<Byte>, p: nat): Option<(seq<LocalVar>, nat)> {
    var rows := ParseTable(b, p, 5);
    if rows.None? || VarsOf(w, rows.value.0).None? then None else Some((VarsOf(w, rows.value.0).value, rows.value.1))
  }

  lemma VarTableIs(w: seq<Const>, b: seq<Byte>, p: nat)
    ensures ParseVarTable(w, b, p) ==
            if p + 6 > |b| then None
            else
              var vars := ParseVars(w, b, p + 6, Get2(b, p + 4));
              if vars.None? || vars.value.1 != p + 4 + Get4(b, p) then None else vars
  {
    if p + 6 <= |b| {
      VarsAreRows(w, b, p + 6, Get2(b, p + 4));
    }
    hide Get2, Get4, ParseRows, ParseVars, VarsOf;
  }

  /** One attribute of the code, taken into what is known of it. */
  function ParseCodeAttribute(w: seq<Const>, b: seq<Byte>, p: nat, c: Code): Option<(Code, nat)> {
    var name := GetText(w, b, p);
    if name.None? then None
    else if name.value == LineNumberTableName() then
      var lines := ParseTable(b, p + 2, 2);
      if lines.None? then None else Some((c.(lines := lines.value.0), lines.value.1))
    else if name.value == LocalVariableTableName() then
      var vars := ParseVarTable(w, b, p + 2);
      if vars.None? then None else Some((c.(vars := vars.value.0), vars.value.1))
    else
      var next := Skip(b, p + 2);
      if next.None? then None else Some((c, next.value))
  }

  lemma CodeAttributesStep(w: seq<Const>, b: seq<Byte>, p: nat, n: nat, c: Code)
    ensures ParseCodeAttributes(w, b, p, 0, c) == Some((c, p))
    ensures n > 0 ==>
              ParseCodeAttributes(w, b, p, n, c) ==
              var first := ParseCodeAttribute(w, b, p, c);
              if first.None? then None else ParseCodeAttributes(w, b, first.value.1, n - 1, first.value.0)
  {
    hide GetText, ParseTable, Skip, VarsOf, LineNumberTableName, LocalVariableTableName;
  }

  /** One attribute of a method. */
  function ParseMethodAttribute(w: seq<Const>, b: seq<Byte>, p: nat, m: Method, argsSize: nat, mayHaveCode: bool, haveExceptions: bool): Option<((Method, bool), nat)> {
    var name := GetText(w, b, p);
    if name.None? then None
    else if name.value == CodeName() then
      var code := ParseCode(w, b, p + 2, argsSize, m.code);
      if !mayHaveCode || code.None? then None else Some(((m.(code := Some(code.value.0)), haveExceptions), code.value.1))
    else if name.value == ExceptionsName() then
      var rows := ParseTable(b, p + 2, 1);
      if haveExceptions || rows.None? then None else Some(((m.(exceptions := Firsts(rows.value.0)), true), rows.value.1))
    else
      var next := Skip(b, p + 2);
      if next.None? then None
      else if name.value == DeprecatedName() then
        if next.value != p + 6 then None else Some(((m.(deprecated := true), haveExceptions), next.value))
      else if name.value == SyntheticName() then
        if next.value != p + 6 then None else Some(((m.(synthetic := true), haveExceptions), next.value))
      else Some(((m, haveExceptions), next.value))
  }

  lemma MethodAttributesStep(w: seq<Const>, b: seq<Byte>, p: nat, n: nat, m: Method, args: nat, may: bool, exc: bool)
    ensures ParseMethodAttributes(w, b, p, 0, m, args, may, exc) == Some((m, p))
    ensures n > 0 ==>
              ParseMethodAttributes(w, b, p, n, m, args, may, exc) ==
              var first := ParseMethodAttribute(w, b, p, m, args, may, exc);
              if first.None? then None else ParseMethodAttributes(w, b, first.value.1, n - 1, first.value.0.0, args, may, first.value.0.1)
  {
    hide GetText, ParseTable, Skip, ParseCode, CodeName, ExceptionsName, DeprecatedName, SyntheticName, Firsts;
  }

  // ----- the reader -----

  class Reader {
    const b: seq<Byte>
    /** The pointer into the class file. */
    var p: nat

    constructor (b: seq<Byte>)
      ensures this.b == b && p == 0
    {
      this.b, p := b, 0;
    }

    method Get1Byte() returns (v: Option<Byte>)
      modifies this
      ensures if old(p) < |b| then v == Some(b[old(p)]) && p == old(p) + 1 else v.None?
    {
      if |b| - p < 1 {
        return None;
      }
      v := Some(b[p]);
      p := p + 1;
    }

    method Get2Bytes() returns (v: Option<nat>)
      modifies this
      ensures if old(p) + 2 <= |b| then v == Some(Get2(b, old(p))) && p == old(p) + 2 else v.None?
    {
      if |b| - p < 2 {
        return None;
      }
      v := Some((b[p] as int) * 256 + b[p + 1]);
      p := p + 2;
    }

    method Get4Bytes() returns (v: Option<nat>)
      modifies this
      ensures if old(p) + 4 <= |b| then v == Some(Get4(b, old(p))) && p == old(p) + 4 else v.None?
    {
      if |b| - p < 4 {
        return None;
      }
      v := Some((b[p] as int) * 0x100_0000 + (b[p + 1] as int) * 0x1_0000 + (b[p + 2] as int) * 256 + b[p + 3]);
      p := p + 4;
    }

    method GetNBytes(n: nat) returns (v: Option<seq<Byte>>)
      modifies this
      ensures if old(p) + n <= |b| then v == Some(b[old(p)..old(p) + n]) && p == old(p) + n else v.None?
    {
      if |b| - p < n {
        return None;
      }
      v := Some(b[p..p + n]);
      p := p + n;
    }

    /** getAsciz */
    method GetAsciz(w: seq<Const>) returns (v: Option<Text>)
      modifies this
      ensures v == GetText(w, b, old(p)) && (v.Some? ==> p == old(p) + 2 <= |b|)
    {
      var value :- Get2Bytes();
      if value == 0 || value >= |w| || !w[value].Utf8? {
        return None;
      }
      v := Some(w[value].text);
    }

    /** An attribute that is not looked into. */
    method SkipAttribute() returns (done: Option<()>)
      modifies this
      ensures var next := Skip(b, old(p)); if next.None? then done.None? else done.Some? && p == next.value
    {
      var length :- Get4Bytes();
      var _ :- GetNBytes(length);
      done := Some(());
    }

    // ----- LoadConstantPool -----

    method LoadConstant() returns (c: Option<Const>)
      modifies this
      ensures Agrees(c, ParseConst(b, old(p)), p)
    {
      hide Get2, Get4, Acceptable;
      var tag :- Get1Byte();
      if tag == UTF8 {
        var length :- Get2Bytes();
        var s :- GetNBytes(length);
        var ok := VerifyUtf8String(s);
        if !ok {
          return None;
        }
        c := Some(Utf8(s));
      } else if tag == CLASS || tag == STRING {
        var n :- Get2Bytes();
        c := Some(if tag == CLASS then ClassIndex(n) else StringIndex(n));
      } else if FIELDREF <= tag <= NAME_AND_TYPE {
        var x :- Get2Bytes();
        var y :- Get2Bytes();
        c := Some(if tag == NAME_AND_TYPE then NameType(x, y) else Member(tag, x, y));
      } else if tag == INTEGER || tag == FLOAT {
        var v :- Get4Bytes();
        c := Some(Word(tag, v));
      } else if tag == LONG || tag == DOUBLE {
        var high :- Get4Bytes();
        var low :- Get4Bytes();
        c := Some(Wide(tag, high, low));
      } else {
        c := None;
      }
    }

    method LoadConstantPool() returns (pool: Option<seq<Const>>)
      modifies this
      ensures Agrees(pool, ParsePool(b, old(p)), p)
    {
      hide Get2, ParseConst, ParseEntries;
      ghost var start := p;
      var count :- Get2Bytes();
      if count > MOST_CONSTANTS || count < 1 {
        return None;
      }
      var entries: seq<Const> := [];
      var i := 1;
      BeforeBefore([], [], ParseEntries(b, p, count - 1));
      while i < count
        invariant 1 <= i <= count && start + 2 <= |b|
        invariant ParseEntries(b, start + 2, count - 1) == Before(entries, ParseEntries(b, p, count - i))
      {
        EntriesStep(b, p, count - i);
        var c :- LoadConstant();
        var slots := [c];
        if c.Wide? {
          i := i + 1;
          if i >= count {
            return None;
          }
          slots := [c, Unusable];
        }
        BeforeBefore(entries, slots, ParseEntries(b, p, count - i - 1));
        entries := entries + slots;
        i := i + 1;
      }
      PoolEnd(b, p, entries);
      pool := Some([Unusable] + entries);
    }

    // ----- tables -----

    method ReadRow(n: nat) returns (row: Option<Row>)
      modifies this
      ensures Agrees(row, ParseRow(b, old(p), n), p)
    {
      hide Get2, ParseRow;
      ghost var start := p;
      var items: Row := [];
      var i := 0;
      BeforeBefore([], [], ParseRow(b, p, n));
      while i < n
        invariant 0 <= i <= n && ParseRow(b, start, n) == Before(items, ParseRow(b, p, n - i))
      {
        RowStep(b, p, n - i);
        var v :- Get2Bytes();
        BeforeBefore(items, [v], ParseRow(b, p, n - i - 1));
        items := items + [v];
        i := i + 1;
      }
      RowEnd(b, p);
      ItIsAll(items, p);
      row := Some(items);
    }

    method ReadRows(count: nat, n: nat) returns (rows: Option<seq<Row>>)
      modifies this
      ensures Agrees(rows, ParseRows(b, old(p), count, n), p)
    {
      hide ParseRow, ParseRows;
      ghost var start := p;
      var done: seq<Row> := [];
      var i := 0;
      BeforeBefore([], [], ParseRows(b, p, count, n));
      while i < count
        invariant 0 <= i <= count && ParseRows(b, start, count, n) == Before(done, ParseRows(b, p, count - i, n))
      {
        RowsAre(b, p, count - i, n);
        var row :- ReadRow(n);
        BeforeBefore(done, [row], ParseRows(b, p, count - i - 1, n));
        done := done + [row];
        i := i + 1;
      }
      Ends(Derived((_, _) => 0, (_, _) => false), [], b, p, n);
      ItIsAll(done, p);
      rows := Some(done);
    }

    /** ReadLineTable and ReadExceptions: a table that must end with its attribute. */
    method ReadTable(n: nat) returns (rows: Option<seq<Row>>)
      modifies this
      ensures Agrees(rows, ParseTable(b, old(p), n), p)
    {
      hide Get2, Get4, ParseRows;
      var length :- Get4Bytes();
      var end := p + length;
      var count :- Get2Bytes();
      var table :- ReadRows(count, n);
      if p != end {
        return None;
      }
      rows := Some(table);
    }

    method ReadLocalVar(w: seq<Const>) returns (v: Option<LocalVar>)
      modifies this
      ensures Agrees(v, ParseVar(w, b, old(p)), p)
    {
      hide Get2, GetText, ParseVar;
      VarIs(w, b, p);
      var pc0 :- Get2Bytes();
      var length :- Get2Bytes();
      var name :- GetAsciz(w);
      var descriptor :- GetAsciz(w);
      var slot :- Get2Bytes();
      v := Some(LocalVar(pc0, length, name, descriptor, slot));
    }

    method ReadLocalVars(w: seq<Const>) returns (vars: Option<seq<LocalVar>>)
      modifies this
      ensures Agrees(vars, ParseVarTable(w, b, old(p)), p)
    {
      hide Get2, Get4, ParseVar, ParseVars, ParseVarTable;
      VarTableIs(w, b, p);
      var length :- Get4Bytes();
      ghost var start := p;
      var end := p + length;
      var count :- Get2Bytes();
      var done: seq<LocalVar> := [];
      var i := 0;
      BeforeBefore([], [], ParseVars(w, b, p, count));
      while i < count
        invariant 0 <= i <= count && ParseVars(w, b, start + 2, count) == Before(done, ParseVars(w, b, p, count - i))
      {
        VarsStepIs(w, b, p, count - i);
        var v :- ReadLocalVar(w);
        BeforeBefore(done, [v], ParseVars(w, b, p, count - i - 1));
        done := done + [v];
        i := i + 1;
      }
      VarsStepIs(w, b, p, 0);
      ItIsAll(done, p);
      if p != end {
        return None;
      }
      vars := Some(done);
    }

    // ----- ReadInCode -----

    method ReadCodeAttribute(w: seq<Const>, c: Code) returns (r: Option<Code>)
      modifies this
      ensures Agrees(r, ParseCodeAttribute(w, b, old(p), c), p)
    {
      hide GetText, ParseTable, ParseVarTable, Skip, LineNumberTableName, LocalVariableTableName;
      var name :- GetAsciz(w);
      if name == LineNumberTableName() {
        var lines :- ReadTable(2);
        r := Some(c.(lines := lines));
      } else if name == LocalVariableTableName() {
        var vars :- ReadLocalVars(w);
        r := Some(c.(vars := vars));
      } else {
        var _ :- SkipAttribute();
        r := Some(c);
      }
    }

    method ReadCodeAttributes(w: seq<Const>, n: nat, into: Code) returns (r: Option<Code>)
      modifies this
      ensures Agrees(r, ParseCodeAttributes(w, b, old(p), n, into), p)
    {
      hide ParseCodeAttribute, ParseCodeAttributes;
      ghost var start := p;
      var c := into;
      var i := 0;
      while i < n
        invariant 0 <= i <= n && ParseCodeAttributes(w, b, start, n, into) == ParseCodeAttributes(w, b, p, n - i, c)
      {
        CodeAttributesStep(w, b, p, n - i, c);
        c :- ReadCodeAttribute(w, c);
        i := i + 1;
      }
      CodeAttributesStep(w, b, p, 0, c);
      r := Some(c);
    }

    method ReadInCode(w: seq<Const>, argsSize: nat, earlier: Option<Code>) returns (code: Option<Code>)
      modifies this
      ensures Agrees(code, ParseCode(w, b, old(p), argsSize, earlier), p)
    {
      hide Get2, Get4, ParseRows, ParseCodeAttributes;
      var length :- Get4Bytes();
      ghost var start := p;
      var end := p + length;
      var maxStack :- Get2Bytes();
      var nlocals :- Get2Bytes();
      var codeLength :- Get4Bytes();
      if nlocals < argsSize || codeLength > 65535 {
        return None;
      }
      var bytes :- GetNBytes(codeLength);
      var tableLength :- Get2Bytes();
      var table :- ReadRows(tableLength, 4);
      var count :- Get2Bytes();
      var c :- ReadCodeAttributes(w, count, Code(maxStack, nlocals, bytes, table, KeptLines(earlier), KeptVars(earlier), []));
      if p != end {
        return None;
      }
      code := Some(c);
    }

    // ----- the methods part of createInternalClass0 -----

    method ReadMethodAttribute(w: seq<Const>, m: Method, argsSize: nat, mayHaveCode: bool, haveExceptions: bool)
      returns (r: Option<(Method, bool)>)
      modifies this
      ensures Agrees(r, ParseMethodAttribute(w, b, old(p), m, argsSize, mayHaveCode, haveExceptions), p)
    {
      hide GetText, ParseTable, ParseCode, Skip, CodeName, ExceptionsName, DeprecatedName, SyntheticName, Firsts;
      ghost var start := p;
      var name :- GetAsciz(w);
      if name == CodeName() {
        if !mayHaveCode {
          return None;
        }
        var c :- ReadInCode(w, argsSize, m.code);
        r := Some((m.(code := Some(c)), haveExceptions));
      } else if name == ExceptionsName() {
        if haveExceptions {
          return None;
        }
        var rows :- ReadTable(1);
        r := Some((m.(exceptions := Firsts(rows)), true));
      } else {
        SkippedWhole(b, p);
        if name == DeprecatedName() || name == SyntheticName() {
          var length :- Get4Bytes();
          if length > 0 {
            return None;
          }
          r := Some((if name == DeprecatedName() then m.(deprecated := true) else m.(synthetic := true), haveExceptions));
        } else {
          var _ :- SkipAttribute();
          r := Some((m, haveExceptions));
        }
      }
    }

    method ReadMethodAttributes(w: seq<Const>, n: nat, into: Method, argsSize: nat, mayHaveCode: bool) returns (r: Option<Method>)
      modifies this
      ensures Agrees(r, ParseMethodAttributes(w, b, old(p), n, into, argsSize, mayHaveCode, false), p)
    {
      hide ParseMethodAttribute, ParseMethodAttributes;
      ghost var start := p;
      var m, haveExceptions := into, false;
      var j := 0;
      while j < n
        invariant 0 <= j <= n
        invariant ParseMethodAttributes(w, b, start, n, into, argsSize, mayHaveCode, false) ==
                  ParseMethodAttributes(w, b, p, n - j, m, argsSize, mayHaveCode, haveExceptions)
      {
        MethodAttributesStep(w, b, p, n - j, m, argsSize, mayHaveCode, haveExceptions);
        var next :- ReadMethodAttribute(w, m, argsSize, mayHaveCode, haveExceptions);
        m, haveExceptions := next.0, next.1;
        j := j + 1;
      }
      MethodAttributesStep(w, b, p, 0, m, argsSize, mayHaveCode, haveExceptions);
      r := Some(m);
    }

    method ReadMethod(d: Derived, w: seq<Const>) returns (m: Option<Method>)
      modifies this
      ensures Agrees(m, ParseMethod(d, w, b, old(p)), p)
    {
      hide Get2, GetText, ParseMethodAttributes;
      var flags :- Get2Bytes();
      var access := WrittenFlags(flags);
      var name :- GetAsciz(w);
      var descriptor :- GetAsciz(w);
      var argsSize := d.argsSize(access, descriptor);
      if argsSize > 255 {
        return None;
      }
      var count :- Get2Bytes();
      m := ReadMethodAttributes(w, count, Method(access, name, descriptor, None, [], false, false), argsSize, d.mayHaveCode(access, name));
    }

    method ReadMethods(d: Derived, w: seq<Const>) returns (ms: Option<seq<Method>>)
      modifies this
      ensures Agrees(ms, ParseMethods(d, w, b, old(p)), p)
    {
      hide Get2, ParseMethod, ParseMethodList;
      var count :- Get2Bytes();
      ghost var start := p;
      var done: seq<Method> := [];
      var i := count;
      BeforeBefore([], [], ParseMethodList(d, w, b, p, count));
      while i > 0
        invariant 0 <= i <= count && ParseMethodList(d, w, b, start, count) == Before(done, ParseMethodList(d, w, b, p, i))
      {
        MethodsAre(d, w, b, p, i);
        var m :- ReadMethod(d, w);
        BeforeBefore(done, [m], ParseMethodList(d, w, b, p, i - 1));
        done := done + [m];
        i := i - 1;
      }
      Ends(d, w, b, p, 0);
      ItIsAll(done, p);
      ms := Some(done);
    }
  }

  lemma PoolEnd(b: seq<Byte>, p: nat, entries: seq<Const>)
    ensures Before(entries, ParseEntries(b, p, 0)) == Some((entries, p))
  {
    assert entries + [] == entries;
  }

  lemma ItIsAll<T>(done: seq<T>, p: nat)
    ensures Before(done, Some(([], p))) == Some((done, p))
  {
    assert done + [] == done;
  }

  lemma SkippedWhole(b: seq<Byte>, p: nat)
    ensures Skip(b, p).Some? ==> p + 4 <= |b|
    ensures p + 4 <= |b| ==> (Skip(b, p) == Some(p + 4) <==> Get4(b, p) == 0)
    ensures Skip(b, p).None? ==> p + 4 > |b| || Get4(b, p) > 0
  {
  }
}
