/** Modified UTF-8 (section 4.4.7 of the JVM specification): utf.c and the check of the class reader. */
module ModifiedUtf8 {
  import opened Octets

  type Char = c: int | 0 <= c < 0x1_0000

  // ----- encoding -----

  /** One character; the high bits of the bytes are disjoint from the added bits. */
  function EncodeChar(ch: Char): (r: seq<Byte>)
    ensures 1 <= |r| <= 3
  {
    if ch != 0 && ch <= 0x7f then [ch]
    else if ch <= 0x7ff then [0xC0 + ch / 64, 0x80 + ch % 64]
    else [0xE0 + ch / 4096, 0x80 + ch / 64 % 64, 0x80 + ch % 64]
  }

  function Encode(s: seq<Char>): seq<Byte> {
    if s == [] then [] else Encode(s[..|s| - 1]) + EncodeChar(s[|s| - 1])
  }

  lemma {:induction false} EncodeFront(ch: Char, s: seq<Char>)
    ensures Encode([ch] + s) == EncodeChar(ch) + Encode(s)
  {
    hide EncodeChar;
    if s == [] {
      assert [ch] + s == [ch] && [ch][..0] == [];
      assert Encode([ch]) == Encode([]) + EncodeChar(ch);
    } else {
      var n := |s| - 1;
      assert ([ch] + s)[..n + 1] == [ch] + s[..n];
      EncodeFront(ch, s[..n]);
    }
  }

  lemma {:induction false} EncodeGrows(s: seq<Char>, m: nat, n: nat)
    requires m <= n <= |s|
    ensures |Encode(s[..m])| <= |Encode(s[..n])|
    decreases n
  {
    if m < n {
      EncodeGrows(s, m, n - 1);
      assert s[..n][..n - 1] == s[..n - 1];
    }
  }

  lemma EncodePrefix(s: seq<Char>, n: nat)
    requires n < |s|
    ensures Encode(s[..n + 1]) == Encode(s[..n]) + EncodeChar(s[n])
  {
    assert s[..n + 1][..n] == s[..n];
  }

  /** unicode2utfstrlen, with the terminating zero. */
  method Unicode2UtfStrlen(s: seq<Char>) returns (length: nat)
    ensures length == |Encode(s)| + 1
  {
    length := 1;
    var i := 0;
    while i < |s|
      invariant 0 <= i <= |s| && length == |Encode(s[..i])| + 1
    {
      EncodePrefix(s, i);
      var ch := s[i];
      if ch != 0 && ch <= 0x7f {
        length := length + 1;
      } else if ch <= 0x7ff {
        length := length + 2;
      } else {
        length := length + 3;
      }
      i := i + 1;
    }
    assert s[..|s|] == s;
  }

  method PutBytes(buffer: array<Byte>, at: nat, bytes: seq<Byte>)
    requires at + |bytes| <= buffer.Length && 1 <= |bytes| <= 3
    modifies buffer
    ensures buffer[..at + |bytes|] == old(buffer[..at]) + bytes
    ensures forall k | at + |bytes| <= k < buffer.Length :: buffer[k] == old(buffer[k])
  {
    buffer[at] := bytes[0];
    if |bytes| > 1 {
      buffer[at + 1] := bytes[1];
    }
    if |bytes| > 2 {
      buffer[at + 2] := bytes[2];
    }
  }

  /**
   unicode2utf into a given buffer: as many characters from the front as fit before the
   terminating zero, and all of them when the buffer has the computed length.
   */
  method Unicode2Utf(s: seq<Char>, buffer: array<Byte>, buflength: nat) returns (ghost n: nat)
    requires 0 < buflength <= buffer.Length
    modifies buffer
    ensures n <= |s| && |Encode(s[..n])| < buflength
    ensures buffer[..|Encode(s[..n])| + 1] == Encode(s[..n]) + [0]
    ensures n < |s| ==> |Encode(s[..n + 1])| >= buflength
    ensures buflength > |Encode(s)| ==> s[..n] == s
  {
    hide EncodeChar;
    var bufptr, bufleft, i := 0, buflength - 1, 0;
    while i < |s|
      invariant 0 <= i <= |s| && bufptr == |Encode(s[..i])| && bufptr + bufleft == buflength - 1 && bufleft >= 0
      invariant buffer[..bufptr] == Encode(s[..i])
    {
      EncodePrefix(s, i);
      hide Encode;
      var bytes := EncodeChar(s[i]);
      bufleft := bufleft - |bytes|;
      if bufleft < 0 {
        break;
      }
      PutBytes(buffer, bufptr, bytes);
      bufptr, i := bufptr + |bytes|, i + 1;
    }
    n := i;
    buffer[bufptr] := 0;
    if n < |s| {
      EncodeGrows(s, n + 1, |s|);
    }
    assert s[..|s|] == s;
  }

  // ----- decoding -----

  /** A C string: the bytes up to a terminating zero. */
  predicate Terminated(s: seq<Byte>) {
    |s| > 0 && s[|s| - 1] == 0
  }

  predicate Continues(b: Byte) {
    0x80 <= b < 0xC0
  }

  function LowSix(b: int): int { b % 64 }

  /** next_utf2unicode at position p: the character, 0x80 for a bad one, and the bytes taken. */
  function Next(s: seq<Byte>, p: nat): (r: (Char, nat))
    requires Terminated(s) && p < |s|
    ensures 1 <= r.1 <= 3
    ensures s[p] != 0 ==> p + r.1 < |s|
  {
    var ch: int := s[p];
    if ch < 0x80 then (ch, 1)
    else if 0xC0 <= ch < 0xE0 then
      if Continues(s[p + 1]) then (ch % 32 * 64 + LowSix(s[p + 1]), 2) else (0x80, 1)
    else if 0xE0 <= ch < 0xF0 then
      if Continues(s[p + 1]) then
        if Continues(s[p + 2]) then ((ch % 16 * 64 + LowSix(s[p + 1])) * 64 + LowSix(s[p + 2]), 3) else (0x80, 2)
      else (0x80, 1)
    else (0x80, 1)
  }

  /** Decoding never steps over the first zero. */
  lemma StopsAtZero(s: seq<Byte>, p: nat, z: nat)
    requires Terminated(s) && p < z < |s| && s[z] == 0 && forall q | p <= q < z :: s[q] != 0
    ensures p + Next(s, p).1 <= z
  {
  }

  function Decode(s: seq<Byte>, p: nat): seq<Char>
    requires Terminated(s) && p < |s|
    decreases |s| - p
  {
    if s[p] == 0 then [] else [Next(s, p).0] + Decode(s, p + Next(s, p).1)
  }

  /** utfstrlen from position p. */
  method UtfStrlen(s: seq<Byte>, start: nat) returns (length: nat)
    requires Terminated(s) && start < |s|
    ensures length == |Decode(s, start)|
  {
    length := 0;
    var p := start;
    while s[p] != 0
      invariant p < |s| && |Decode(s, start)| == length + |Decode(s, p)|
      decreases |s| - p
    {
      p := p + Next(s, p).1;
      length := length + 1;
    }
  }

  /** utf2unicode: at most max characters are stored, and the number of all of them is returned. */
  method Utf2Unicode(s: seq<Byte>, unistring: array<Char>, max: nat) returns (length: nat)
    requires Terminated(s) && max <= unistring.Length
    modifies unistring
    ensures length == |Decode(s, 0)|
    ensures var n := if length < max then length else max; unistring[..n] == Decode(s, 0)[..n]
  {
    var p, n := 0, 0;
    while n < max && s[p] != 0
      invariant p < |s| && n <= max && n + |Decode(s, p)| == |Decode(s, 0)|
      invariant unistring[..n] + Decode(s, p) == Decode(s, 0)
      decreases |s| - p
    {
      unistring[n] := Next(s, p).0;
      assert unistring[..n + 1] == unistring[..n] + [Next(s, p).0];
      p, n := p + Next(s, p).1, n + 1;
    }
    assert unistring[..n] == Decode(s, 0)[..n];
    if n == max {
      var rest := UtfStrlen(s, p);
      length := max + rest;
    } else {
      length := n;
    }
  }

  // ----- round trip -----

  lemma {:induction false} NextIsLocal(a: seq<Byte>, s: seq<Byte>, p: nat)
    requires Terminated(s) && p < |s|
    ensures Terminated(a + s) && Next(a + s, |a| + p) == Next(s, p)
  {
  }

  lemma {:induction false} DecodeIsLocal(a: seq<Byte>, s: seq<Byte>, p: nat)
    requires Terminated(s) && p < |s|
    ensures Terminated(a + s) && Decode(a + s, |a| + p) == Decode(s, p)
    decreases |s| - p
  {
    NextIsLocal(a, s, p);
    if s[p] != 0 {
      DecodeIsLocal(a, s, p + Next(s, p).1);
    }
  }

  lemma NextOfEncoded(ch: Char, s: seq<Byte>)
    requires Terminated(s)
    ensures Terminated(EncodeChar(ch) + s) && EncodeChar(ch)[0] != 0
    ensures Next(EncodeChar(ch) + s, 0) == (ch, |EncodeChar(ch)|)
  {
  }

  /** Decoding an encoded string gives it back, zeros included. */
  lemma {:induction false} RoundTrip(s: seq<Char>)
    ensures Decode(Encode(s) + [0], 0) == s
  {
    if s != [] {
      var ch, rest := s[0], s[1..];
      RoundTrip(rest);
      EncodeFront(ch, rest);
      assert s == [ch] + rest;
      var tail := Encode(rest) + [0];
      assert Encode(s) + [0] == EncodeChar(ch) + tail;
      NextOfEncoded(ch, tail);
      DecodeIsLocal(EncodeChar(ch), tail, 0);
    }
  }

  // ----- the check of the class reader -----

  /** How many bytes the character at p takes in an acceptable string; 0 if it is not acceptable. */
  function Group(b: seq<Byte>, p: nat): (n: nat)
    requires p < |b|
    ensures n > 0 ==> p + n <= |b|
  {
    var c := b[p];
    if c == 0 then 0
    else if c < 0x80 then 1
    else if 0xC0 <= c < 0xE0 then if p + 1 < |b| && Continues(b[p + 1]) then 2 else 0
    else if 0xE0 <= c < 0xF0 then if p + 2 < |b| && Continues(b[p + 1]) && Continues(b[p + 2]) then 3 else 0
    else 0
  }

  predicate Acceptable(b: seq<Byte>, p: nat)
    requires p <= |b|
    decreases |b| - p
  {
    p == |b| || (Group(b, p) > 0 && Acceptable(b, p + Group(b, p)))
  }

  /** verifyUTF8String */
  method VerifyUtf8String(b: seq<Byte>) returns (ok: bool)
    ensures ok <==> Acceptable(b, 0)
  {
    var i := 0;
    while i < |b|
      invariant 0 <= i <= |b| && (Acceptable(b, 0) <==> Acceptable(b, i))
    {
      var c := b[i];
      if c == 0 {
        return false;
      }
      if c >= 128 {
        if c / 16 == 0xC || c / 16 == 0xD {
          i := i + 1;
          if i >= |b| || !Continues(b[i]) {
            return false;
          }
        } else if c / 16 == 0xE {
          i := i + 2;
          if i >= |b| || !Continues(b[i - 1]) || !Continues(b[i]) {
            return false;
          }
        } else {
          return false;
        }
      }
      i := i + 1;
    }
    ok := true;
  }

  lemma {:induction false} AcceptableIsLocal(a: seq<Byte>, b: seq<Byte>, p: nat)
    requires p <= |b|
    ensures Acceptable(a + b, |a| + p) <==> Acceptable(b, p)
    decreases |b| - p
  {
    if p < |b| {
      assert Group(a + b, |a| + p) == Group(b, p);
      if Group(b, p) > 0 {
        AcceptableIsLocal(a, b, p + Group(b, p));
      }
    }
  }

  /** The reader accepts whatever the encoder writes. */
  lemma {:induction false} EncodedIsAcceptable(s: seq<Char>)
    ensures Acceptable(Encode(s), 0)
  {
    if s != [] {
      var ch, rest := s[0], s[1..];
      EncodedIsAcceptable(rest);
      EncodeFront(ch, rest);
      assert s == [ch] + rest;
      AcceptableIsLocal(EncodeChar(ch), Encode(rest), 0);
      assert Group(Encode(s), 0) == |EncodeChar(ch)|;
    }
  }

  /** On acceptable strings every character is decoded from the bytes the check has seen as one. */
  lemma AcceptableDecodes(b: seq<Byte>, p: nat)
    requires p < |b| && Group(b, p) > 0
    ensures Next(b + [0], p).1 == Group(b, p) && (b + [0])[p] != 0
  {
  }

  /** The character at p is written in the shortest form. */
  predicate Shortest(b: seq<Byte>, p: nat)
    requires p < |b|
  {
    && (Group(b, p) == 2 ==> b[p] != 0xC1 && (b[p] == 0xC0 ==> b[p + 1] == 0x80))
    && (Group(b, p) == 3 ==> b[p] != 0xE0 || b[p + 1] >= 0xA0)
  }

  predicate AllShortest(b: seq<Byte>, p: nat)
    requires p <= |b|
    decreases |b| - p
  {
    p == |b| || (Group(b, p) > 0 && Shortest(b, p) && AllShortest(b, p + Group(b, p)))
  }

  lemma ReencodeTwo(c: int, d: int)
    requires 0xC0 <= c < 0xE0 && 0x80 <= d < 0xC0
    ensures var ch := c % 32 * 64 + LowSix(d);
            0 <= ch < 0x800 && (EncodeChar(ch) == [c, d] <==> c != 0xC1 && (c == 0xC0 ==> d == 0x80)) &&
            (EncodeChar(ch) != [c, d] ==> |EncodeChar(ch)| < 2)
  {
    assert c % 32 == c - 0xC0 && LowSix(d) == d - 0x80;
  }

  lemma ReencodeThree(c: int, d: int, e: int)
    requires 0xE0 <= c < 0xF0 && 0x80 <= d < 0xC0 && 0x80 <= e < 0xC0
    ensures var ch := (c % 16 * 64 + LowSix(d)) * 64 + LowSix(e);
            0 <= ch < 0x1_0000 && (EncodeChar(ch) == [c, d, e] <==> c != 0xE0 || d >= 0xA0) &&
            (EncodeChar(ch) != [c, d, e] ==> |EncodeChar(ch)| < 3)
  {
    assert c % 16 == c - 0xE0 && LowSix(d) == d - 0x80 && LowSix(e) == e - 0x80;
  }

  /** A character is written back as it was, or shorter. */
  lemma ReencodeOne(b: seq<Byte>, p: nat)
    requires p < |b| && Group(b, p) > 0
    ensures EncodeChar(Next(b + [0], p).0) == b[p..p + Group(b, p)] <==> Shortest(b, p)
    ensures !Shortest(b, p) ==> |EncodeChar(Next(b + [0], p).0)| < Group(b, p)
  {
    if Group(b, p) == 2 {
      ReencodeTwo(b[p], b[p + 1]);
    } else if Group(b, p) == 3 {
      ReencodeThree(b[p], b[p + 1], b[p + 2]);
    }
  }

  lemma FirstGroup(b: seq<Byte>, p: nat)
    requires p < |b| && Acceptable(b, p)
    ensures var s, n := b + [0], Group(b, p);
            && n > 0 && Acceptable(b, p + n) && Terminated(s) && Next(s, p).1 == n && Decode(s, p) == [Next(s, p).0] + Decode(s, p + n)
            && (AllShortest(b, p) <==> Shortest(b, p) && AllShortest(b, p + n))
  {
    AcceptableDecodes(b, p);
  }

  lemma NoGroup(b: seq<Byte>)
    ensures Terminated(b + [0]) && Decode(b + [0], |b|) == [] && Encode([]) == [] && AllShortest(b, |b|)
  {
  }

  /** An acceptable string is the encoding of what it decodes to exactly when it is in shortest form. */
  lemma {:induction false} Reencoded(b: seq<Byte>, p: nat)
    requires p <= |b| && Acceptable(b, p)
    ensures Encode(Decode(b + [0], p)) == b[p..] <==> AllShortest(b, p)
    ensures !AllShortest(b, p) ==> |Encode(Decode(b + [0], p))| < |b| - p
    decreases |b| - p
  {
    hide *;
    NoGroup(b);
    if p < |b| {
      var s, n := b + [0], Group(b, p);
      FirstGroup(b, p);
      ReencodeOne(b, p);
      Reencoded(b, p + n);
      EncodeFront(Next(s, p).0, Decode(s, p + n));
      assert b[p..] == b[p..p + n] + b[p + n..];
      BothParts(EncodeChar(Next(s, p).0), b[p..p + n], Shortest(b, p), Encode(Decode(s, p + n)), b[p + n..], AllShortest(b, p + n));
    }
  }

  lemma BothParts(x: seq<Byte>, a: seq<Byte>, sameX: bool, y: seq<Byte>, b: seq<Byte>, sameY: bool)
    requires (x == a <==> sameX) && (!sameX ==> |x| < |a|) && (y == b <==> sameY) && (!sameY ==> |y| < |b|)
    ensures x + y == a + b <==> sameX && sameY
    ensures !(sameX && sameY) ==> |x + y| < |a + b|
  {
  }

  /** The check also accepts longer forms: two spellings of one name. */
  lemma LongFormsAccepted()
    ensures Acceptable([0xC1, 0x81], 0) && Acceptable([0x41], 0)
    ensures Decode([0xC1, 0x81] + [0], 0) == Decode([0x41] + [0], 0) == [0x41]
  {
    var s: seq<Byte>, t: seq<Byte> := [0xC1, 0x81] + [0], [0x41] + [0];
    assert Next(s, 0) == (0x41, 2) && Decode(s, 2) == [];
    assert Next(t, 0) == (0x41, 1) && Decode(t, 1) == [];
    assert Group([0xC1, 0x81], 0) == 2 && Acceptable([0xC1, 0x81], 2);
    assert Group([0x41], 0) == 1 && Acceptable([0x41], 1);
  }
}
