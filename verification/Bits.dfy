/** Powers of two, bit reversal and the little-endian bit stream of RFC 1951, section 3.1.1. */
module Bits {
  import opened Octets

  function Pow2(n: nat): (p: nat)
    ensures p > 0
  {
    if n == 0 then 1 else 2 * Pow2(n - 1)
  }

  lemma {:induction false} Pow2Add(a: nat, b: nat)
    ensures Pow2(a + b) == Pow2(a) * Pow2(b)
  {
    if a > 0 {
      Pow2Add(a - 1, b);
    }
  }

  lemma {:induction false} Pow2Monotone(a: nat, b: nat)
    requires a <= b
    ensures Pow2(a) <= Pow2(b)
  {
    if a < b {
      Pow2Monotone(a, b - 1);
    }
  }

  // ----- products, one fact at a time -----

  lemma Distributes(a: int, b: int, c: int)
    ensures (a + b) * c == a * c + b * c
    ensures c * (a + b) == c * a + c * b
  {
  }

  lemma Associates(a: int, b: int, c: int)
    ensures a * (b * c) == (a * b) * c
  {
  }

  lemma AtLeastOnce(k: int, d: int)
    requires k >= 1 && d >= 0
    ensures k * d >= d
  {
    Distributes(k - 1, 1, d);
    assert (k - 1) * d >= 0;
  }

  lemma ProductGrows(a: int, b: int, d: nat)
    ensures a <= b ==> a * d <= b * d
  {
    if a < b {
      Distributes(a, b - a, d);
      AtLeastOnce(b - a, d);
    }
  }

  /** Division is determined by its defining equation. */
  lemma DivModIs(x: int, d: int, q: int, r: int)
    requires 0 <= r < d && x == q * d + r
    ensures x / d == q && x % d == r
  {
    var y := x / d;
    Distributes(y, -q, d);
    assert (y - q) * d == y * d - q * d == r - x % d;
    if y > q {
      AtLeastOnce(y - q, d);
    } else if y < q {
      Distributes(y - q, q - y, d);
      AtLeastOnce(q - y, d);
    }
  }

  lemma DivMod(x: nat, d: nat)
    requires d > 0
    ensures x == (x / d) * d + x % d && x % d < d && x / d >= 0
  {
  }

  /** Cutting a number at a * b directly, or first at a and then at b. */
  lemma CutProduct(x: nat, a: nat, b: nat)
    requires a > 0 && b > 0
    ensures a * b > 0
    ensures x / (a * b) == (x / a) / b
    ensures x % (a * b) == x % a + a * ((x / a) % b)
    ensures (x % (a * b)) / a == (x / a) % b
    ensures (x % (a * b)) % a == x % a
  {
    AtLeastOnce(b, a);
    DivMod(x, a);
    DivMod(x / a, b);
    var low, high := x % a, x / a;
    var mid, top := high % b, high / b;
    var r := low + a * mid;
    Distributes(top * b, mid, a);
    Associates(top, b, a);
    assert x == top * (b * a) + mid * a + low;
    Distributes(b - 1 - mid, mid, a);
    assert (b - 1 - mid) * a >= 0;
    Distributes(b, -1, a);
    assert 0 <= r < a * b;
    DivModIs(x, a * b, top, r);
    DivModIs(r, a, mid, low);
  }

  lemma CutTwice(x: nat, a: nat, b: nat)
    ensures x / Pow2(a + b) == (x / Pow2(a)) / Pow2(b)
    ensures x % Pow2(a + b) == x % Pow2(a) + Pow2(a) * ((x / Pow2(a)) % Pow2(b))
    ensures (x % Pow2(a + b)) / Pow2(a) == (x / Pow2(a)) % Pow2(b)
    ensures (x % Pow2(a + b)) % Pow2(a) == x % Pow2(a)
  {
    Pow2Add(a, b);
    CutProduct(x, Pow2(a), Pow2(b));
  }

  /** Prefix and suffix of the low a + b bits. */
  lemma CutParts(x: nat, a: nat, b: nat)
    ensures (x % Pow2(a + b)) / Pow2(a) == (x / Pow2(a)) % Pow2(b)
    ensures (x % Pow2(a + b)) % Pow2(a) == x % Pow2(a)
  {
    CutTwice(x, a, b);
  }

  /** The low bits of the low bits are the low bits. */
  lemma ModMod(x: nat, a: nat, b: nat)
    requires a <= b
    ensures (x % Pow2(b)) % Pow2(a) == x % Pow2(a)
  {
    CutTwice(x, a, b - a);
  }

  // ----- reversal -----

  /** The low n bits of x in the opposite order. */
  function Reverse(n: nat, x: int): (r: nat)
    ensures r < Pow2(n)
  {
    if n == 0 then 0 else (x % 2) * Pow2(n - 1) + Reverse(n - 1, x / 2)
  }

  lemma {:induction false} ReverseSplit(a: nat, b: nat, x: nat)
    ensures Reverse(a + b, x) == Reverse(a, x) * Pow2(b) + Reverse(b, x / Pow2(a))
  {
    if a == 0 {
      assert Pow2(0) == 1 && Reverse(0, x) == 0;
    } else {
      ReverseSplit(a - 1, b, x / 2);
      CutProduct(x, 2, Pow2(a - 1));
      Pow2Add(a - 1, b);
      var t := x % 2;
      Distributes(t * Pow2(a - 1), Reverse(a - 1, x / 2), Pow2(b));
      Associates(t, Pow2(a - 1), Pow2(b));
    }
  }

  /** Only the low n bits matter. */
  lemma {:induction false} ReverseMod(n: nat, k: nat, x: nat)
    requires n <= k
    ensures Reverse(n, x % Pow2(k)) == Reverse(n, x)
  {
    if n > 0 {
      CutProduct(x, 2, Pow2(k - 1));
      ReverseMod(n - 1, k - 1, x / 2);
    }
  }

  lemma ReverseStep(n: nat, x: int)
    requires n > 0
    ensures Reverse(n, x) == (x % 2) * Pow2(n - 1) + Reverse(n - 1, x / 2)
    ensures Reverse(1, x) == x % 2
  {
    assert Pow2(0) == 1 && Reverse(0, x / 2) == 0;
  }

  lemma {:induction false} ReverseTwice(n: nat, x: nat)
    requires x < Pow2(n)
    ensures Reverse(n, Reverse(n, x)) == x
  {
    if n > 0 {
      HalfFits(n, x);
      ReverseTwice(n - 1, x / 2);
      ReverseTwiceStep(n, x);
    }
  }

  lemma ReverseTwiceStep(n: nat, x: nat)
    requires n > 0 && Reverse(n - 1, Reverse(n - 1, x / 2)) == x / 2
    ensures Reverse(n, Reverse(n, x)) == x
  {
    hide Reverse, Pow2;
    ReverseStep(n, x);
    ReverseStep(1, x % 2);
    var low, y := Reverse(n - 1, x / 2), Reverse(n, x);
    DivModIs(y, Pow2(n - 1), x % 2, low);
    ReverseMod(n - 1, n - 1, y);
    ReverseLast(n, y);
  }

  lemma HalfFits(n: nat, x: nat)
    requires n > 0 && x < Pow2(n)
    ensures x / 2 < Pow2(n - 1)
  {
  }

  lemma ReverseLast(n: nat, y: nat)
    requires n > 0
    ensures Reverse(n, y) == Reverse(n - 1, y) * 2 + Reverse(1, y / Pow2(n - 1))
  {
    ReverseSplit(n - 1, 1, y);
    assert Pow2(1) == 2;
  }

  lemma {:induction false} ReverseZero(n: nat)
    ensures Reverse(n, 0) == 0
  {
    if n > 0 {
      ReverseZero(n - 1);
    }
  }

  // ----- the bit stream -----

  /** The bytes of a file; reading past the end gives all ones, as the value of EOF does. */
  function ByteAt(file: seq<Byte>, k: nat): Byte {
    if k < |file| then file[k] else 255
  }

  /** Bit `pos` of the stream: bytes in order, each from its least significant bit. */
  function BitAt(file: seq<Byte>, pos: nat): (b: nat)
    ensures b < 2
  {
    (ByteAt(file, pos / 8) / Pow2(pos % 8)) % 2
  }

  /** The n bits from `pos` on as a number, first bit least significant. */
  function Window(file: seq<Byte>, pos: nat, n: nat): (w: nat)
    ensures w < Pow2(n)
    decreases n
  {
    if n == 0 then 0 else BitAt(file, pos) + 2 * Window(file, pos + 1, n - 1)
  }

  lemma {:induction false} WindowConcat(file: seq<Byte>, pos: nat, a: nat, b: nat)
    ensures Window(file, pos, a + b) == Window(file, pos, a) + Pow2(a) * Window(file, pos + a, b)
    decreases a
  {
    if a > 0 {
      WindowConcat(file, pos + 1, a - 1, b);
      var w := Window(file, pos + a, b);
      assert pos + 1 + (a - 1) == pos + a;
      Associates(2, Pow2(a - 1), w);
      Distributes(Window(file, pos + 1, a - 1), Pow2(a - 1) * w, 2);
      var n := a - 1 + b;
      assert Window(file, pos, n + 1) == BitAt(file, pos) + 2 * Window(file, pos + 1, n);
    } else {
      assert Pow2(0) == 1;
    }
  }

  /** Taking the first a bits of a window, and dropping them. */
  lemma WindowSplit(file: seq<Byte>, pos: nat, a: nat, b: nat)
    ensures Window(file, pos, a + b) == Window(file, pos, a) + Pow2(a) * Window(file, pos + a, b)
    ensures Window(file, pos, a + b) % Pow2(a) == Window(file, pos, a)
    ensures Window(file, pos, a + b) / Pow2(a) == Window(file, pos + a, b)
  {
    hide Window, Pow2;
    WindowConcat(file, pos, a, b);
    DivModIs(Window(file, pos, a + b), Pow2(a), Window(file, pos + a, b), Window(file, pos, a));
  }

  lemma WindowStep(file: seq<Byte>, pos: nat, n: nat)
    requires n > 0
    ensures Window(file, pos, n) == BitAt(file, pos) + 2 * Window(file, pos + 1, n - 1)
  {
  }

  lemma LowBit(x: nat, a: nat)
    ensures x / Pow2(a) == (x / Pow2(a)) % 2 + 2 * (x / Pow2(a + 1))
  {
    assert Pow2(a + 1) == Pow2(a) * 2;
    hide Pow2;
    CutProduct(x, Pow2(a), 2);
    DivMod(x / Pow2(a), 2);
  }

  /** One bit of a byte and what is above it. */
  lemma BitOfByte(file: seq<Byte>, k: nat, a: nat)
    requires a < 8
    ensures ByteAt(file, k) / Pow2(a) == BitAt(file, 8 * k + a) + 2 * (ByteAt(file, k) / Pow2(a + 1))
  {
    DivModIs(8 * k + a, 8, k, a);
    LowBit(ByteAt(file, k), a);
  }

  lemma {:induction false} WindowOfByte(file: seq<Byte>, k: nat, a: nat)
    requires a <= 8
    ensures Window(file, 8 * k + a, 8 - a) == ByteAt(file, k) / Pow2(a)
    decreases 8 - a
  {
    if a < 8 {
      hide Window, Pow2, BitAt;
      WindowOfByte(file, k, a + 1);
      BitOfByte(file, k, a);
      WindowStep(file, 8 * k + a, 8 - a);
    } else {
      Pow2Add(4, 4);
      assert Pow2(4) == 16;
      DivModIs(ByteAt(file, k), Pow2(8), 0, ByteAt(file, k));
    }
  }

  /** Eight aligned bits are a byte. */
  lemma WindowIsByte(file: seq<Byte>, k: nat)
    ensures Window(file, 8 * k, 8) == ByteAt(file, k)
  {
    WindowOfByte(file, k, 0);
    assert Pow2(0) == 1;
  }
}
