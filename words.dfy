/**
 * Machine words of the key-stretching code: unsigned 64-bit words with the C
 * semantics of `+`, `*`, `^` and `&` (all wrap modulo 2^64), bytes, powers of
 * two, and the little-endian view of a word buffer as bytes that the code
 * relies on when it hands `(uint8 *)` casts of word buffers to PBKDF2.
 */
module Words {

  const TWO32: nat := 0x1_0000_0000
  const TWO64: nat := 0x1_0000_0000_0000_0000

  /** C `uint64`. */
  type Word = w: nat | w < TWO64
  /** C `uint32`. */
  type U32 = w: nat | w < TWO32
  /** C `uint8`. */
  type byte = b: nat | b < 256

  function Pow2(k: nat): (r: nat)
    ensures r >= 1
  {
    if k == 0 then 1 else 2 * Pow2(k - 1)
  }

  lemma {:induction false} Pow2Add(a: nat, b: nat)
    ensures Pow2(a + b) == Pow2(a) * Pow2(b)
  {
    if a > 0 {
      Pow2Add(a - 1, b);
    }
  }

  lemma Pow2Split(a: nat, b: nat)
    requires a <= b
    ensures Pow2(b) == Pow2(a) * Pow2(b - a)
  {
    Pow2Add(a, b - a);
    assert a + (b - a) == b;
  }

  lemma Pow2Monotone(a: nat, b: nat)
    requires a <= b
    ensures Pow2(a) <= Pow2(b)
  {
    Pow2Add(a, b - a);
  }

  lemma Pow2Of32()
    ensures Pow2(32) == TWO32
  {
    Pow2Word();
  }

  lemma Pow2Word()
    ensures Pow2(8) == 256 && Pow2(32) == TWO32 && Pow2(64) == TWO64
  {
    assert Pow2(4) == 16;
    Pow2Add(4, 4);
    Pow2Add(8, 8);
    Pow2Add(16, 16);
    Pow2Add(32, 32);
  }

  /** Quotient and remainder are determined by the division equation. */
  lemma DivModUnique(x: int, d: int, q: int, r: int)
    requires d > 0 && 0 <= r < d && x == d * q + r
    ensures x / d == q && x % d == r
  {
    var k := q - x / d;
    assert d * k == x % d - r;
    if k >= 1 {
      MulAtLeast(d, k);
    } else if k <= -1 {
      MulAtLeast(d, -k);
    }
  }

  /** A remainder by a larger modulus leaves the number as it is. */
  lemma SmallMod(x: int, m: int)
    requires 0 <= x < m
    ensures x % m == x
  {
    DivModUnique(x, m, 0, x);
  }

  /** A non-negative number taken modulo m does not grow. */
  lemma ModAtMost(x: int, m: int)
    requires 0 <= x && m > 0
    ensures 0 <= x % m <= x
  {
    if x >= m {
      assert x == m * (x / m) + x % m;
      MulAtLeast(m, x / m);
    } else {
      SmallMod(x, m);
    }
  }

  /** The quotient counts the whole multiples of d in x, with less than d left over. */
  lemma DivBounds(x: nat, d: nat)
    requires d > 0
    ensures 0 <= x / d && d * (x / d) <= x < d * (x / d) + d
  {
    var q := x / d;
    assert x == d * q + x % d;
    if q < 0 {
      MulAtLeast(d, -q);
      assert false;
    }
  }

  lemma MulAtLeast(d: int, k: int)
    requires d > 0 && k >= 1
    ensures d * k >= d
  {
    assert d * k == d * (k - 1) + d;
  }

  lemma DivDiv(w: nat, d: nat, e: nat)
    requires d >= 1 && e >= 1
    ensures (w / d) / e == w / (d * e)
  {
    var q1, r1 := w / d, w % d;
    var q2, r2 := q1 / e, q1 % e;
    MulAdd(d, e, q2, r2);
    MulBelow(d, r2, e);
    DivModUnique(w, d * e, q2, d * r2 + r1);
  }

  lemma MulAdd(d: int, e: int, q: int, r: int)
    ensures d * (e * q + r) == (d * e) * q + d * r
  {
  }

  lemma MulBelow(d: nat, r: nat, e: nat)
    requires r < e
    ensures d * r + d <= d * e
  {
    assert d * e == d * r + d * (e - r);
    if d > 0 {
      MulAtLeast(d, e - r);
    }
  }

  /** x is 1, 2, 4, 8, ...: the test the command-line validators perform by halving. */
  predicate IsPow2(x: nat)
    decreases x
  {
    if x <= 1 then x == 1 else x % 2 == 0 && IsPow2(x / 2)
  }

  /** The exponent of a power of two; IsPow2 and Pow2 describe the same numbers. */
  function Log2(x: nat): (k: nat)
    requires IsPow2(x)
    ensures Pow2(k) == x
    decreases x
  {
    if x == 1 then 0 else 1 + Log2(x / 2)
  }

  lemma {:induction false} Pow2IsPow2(k: nat)
    ensures IsPow2(Pow2(k))
  {
    if k > 0 {
      Pow2IsPow2(k - 1);
      assert Pow2(k) / 2 == Pow2(k - 1);
    }
  }

  /** x is a power of two. */
  ghost predicate IsPowerOfTwo(x: nat)
  {
    exists k: nat :: Pow2(k) == x
  }

  /** The halving test and the powers of two describe the same numbers. */
  lemma PowerOfTwoHalving(x: nat)
    ensures IsPow2(x) <==> IsPowerOfTwo(x)
  {
    if IsPow2(x) {
      var k := Log2(x);
      assert Pow2(k) == x;
    }
    if IsPowerOfTwo(x) {
      var k: nat :| Pow2(k) == x;
      Pow2IsPow2(k);
    }
  }

  /** uint64 addition. */
  function Add(a: Word, b: Word): Word
  {
    (a + b) % TWO64
  }

  /** uint64 multiplication. */
  function Mul(a: Word, b: Word): Word
  {
    (a * b) % TWO64
  }

  /** Bitwise exclusive or of two naturals: the lowest bit, then the bits above it. */
  function BitXor(a: nat, b: nat): nat
    decreases a + b, 1
  {
    (a + b) % 2 + 2 * HigherXor(a, b)
  }

  /** The exclusive or of the bits of a and b above the lowest. */
  function HigherXor(a: nat, b: nat): nat
    decreases a + b, 0
  {
    if a + b == 0 then 0 else BitXor(a / 2, b / 2)
  }

  /** Bitwise and of two naturals. */
  function BitAnd(a: nat, b: nat): nat
    decreases a
  {
    if a == 0 || b == 0 then 0
    else 2 * BitAnd(a / 2, b / 2) + (if a % 2 == 1 && b % 2 == 1 then 1 else 0)
  }

  lemma {:induction false} XorBelow(a: nat, b: nat, n: nat)
    requires a < Pow2(n) && b < Pow2(n)
    ensures BitXor(a, b) < Pow2(n)
    decreases n
  {
    if a + b != 0 {
      assert n > 0;
      XorBelow(a / 2, b / 2, n - 1);
      assert BitXor(a, b) == (a + b) % 2 + 2 * BitXor(a / 2, b / 2);
    }
  }

  /** uint64 `^`: the low 64 bits of the bitwise exclusive or. */
  function Xor(a: Word, b: Word): Word
  {
    BitXor(a, b) % TWO64
  }

  /** The exclusive or of two 64-bit words has no bits above the 64th, so `^` loses nothing. */
  lemma XorOfWords(a: Word, b: Word)
    ensures Xor(a, b) == BitXor(a, b)
  {
    Pow2Word();
    XorBelow(a, b, 64);
    SmallMod(BitXor(a, b), TWO64);
  }

  /** `a & b` never exceeds `b`. */
  lemma {:induction false} AndAtMost(a: nat, b: nat)
    ensures BitAnd(a, b) <= b
    decreases a
  {
    if a != 0 && b != 0 {
      AndAtMost(a / 2, b / 2);
    }
  }

  /** With an even mask the low bit of the result is clear. */
  lemma AndEvenMask(a: nat, b: nat)
    requires b % 2 == 0
    ensures BitAnd(a, b) == 2 * BitAnd(a / 2, b / 2)
  {
  }

  /** A mask that is a multiple of 8 gives a multiple of 8. */
  lemma AndAligned8(a: nat, b: nat)
    requires b % 8 == 0
    ensures BitAnd(a, b) % 8 == 0
  {
    var q := b / 8;
    var a1, b1 := a / 2, b / 2;
    var a2, b2 := a1 / 2, b1 / 2;
    DivModUnique(b, 2, 4 * q, 0);
    DivModUnique(b1, 2, 2 * q, 0);
    DivModUnique(b2, 2, q, 0);
    AndEvenMask(a, b);
    AndEvenMask(a1, b1);
    AndEvenMask(a2, b2);
    var z := BitAnd(a2 / 2, b2 / 2);
    DivModUnique(8 * z, 8, z, 0);
  }

  lemma {:induction false} AndCommutes(a: nat, b: nat)
    ensures BitAnd(a, b) == BitAnd(b, a)
    decreases a
  {
    if a != 0 && b != 0 {
      AndCommutes(a / 2, b / 2);
    }
  }

  /** `x % n`, for n = 2p, splits into the low bit and `(x / 2) % p`. */
  lemma ModDouble(x: nat, p: nat, n: nat)
    requires p >= 1 && n == 2 * p
    ensures x % n == 2 * ((x / 2) % p) + x % 2
  {
    var q := x / n;
    var r := x % n;
    assert x == n * q + r;
    assert x == 2 * (p * q + r / 2) + r % 2;
    DivModUnique(x, 2, p * q + r / 2, r % 2);
    DivModUnique(x / 2, p, q, r / 2);
  }

  /** The step of AndLowMask: a mask of one more bit keeps one more bit of x. */
  lemma AndLowMaskStep(x: nat, p: nat, n: nat)
    requires x > 0 && p >= 1 && n == 2 * p
    requires BitAnd(x / 2, p - 1) == (x / 2) % p
    ensures BitAnd(x, n - 1) == x % n
  {
    DivModUnique(n - 1, 2, p - 1, 1);
    ModDouble(x, p, n);
    var low := if x % 2 == 1 then 1 else 0;
    assert low == x % 2;
    assert BitAnd(x, n - 1) == 2 * BitAnd(x / 2, p - 1) + low;
  }

  /** A low mask of k one bits keeps exactly `x % 2^k`. */
  lemma {:induction false} AndLowMask(x: nat, k: nat)
    ensures BitAnd(x, Pow2(k) - 1) == x % Pow2(k)
    decreases k
  {
    if k == 0 {
      DivModUnique(x, 1, x, 0);
    } else if x == 0 {
      DivModUnique(0, Pow2(k), 0, 0);
    } else {
      AndLowMask(x / 2, k - 1);
      AndLowMaskStep(x, Pow2(k - 1), Pow2(k));
    }
  }


  /** `(x - r) % m == m - r` for a multiple x = m * n of m and 0 < r <= m. */
  lemma ModBelowMultiple(x: nat, m: nat, n: nat, r: nat)
    requires 0 < r <= m && n >= 1 && x == m * n
    ensures x >= r && (x - r) % m == m - r
  {
    assert x - r == m * (n - 1) + (m - r);
    DivModUnique(x - r, m, n - 1, m - r);
  }

  /**
   * The page mask `(L - 1) & ~7`, where `~7` is taken in a word of `width` bits
   * (32 for a uint32, 64 for a uint64), is `L - 8` for a power of two L >= 8.
   */
  lemma PageMaskValue(lg: nat, width: nat)
    requires 3 <= lg <= width
    ensures 8 <= Pow2(lg) <= Pow2(width)
    ensures BitAnd(Pow2(lg) - 1, Pow2(width) - 8) == Pow2(lg) - 8
  {
    HighMaskModulo(lg, width);
    LowMaskAnd(Pow2(width) - 8, lg);
  }

  lemma LowMaskAnd(x: nat, k: nat)
    ensures BitAnd(Pow2(k) - 1, x) == x % Pow2(k)
  {
    AndLowMask(x, k);
    AndCommutes(Pow2(k) - 1, x);
  }

  lemma HighMaskModulo(lg: nat, width: nat)
    requires 3 <= lg <= width
    ensures 8 <= Pow2(lg) <= Pow2(width)
    ensures (Pow2(width) - 8) % Pow2(lg) == Pow2(lg) - 8
  {
    Pow2Monotone(3, lg);
    assert Pow2(3) == 8;
    Pow2Monotone(lg, width);
    Pow2Split(lg, width);
    ModBelowMultiple(Pow2(width), Pow2(lg), Pow2(width - lg), 8);
  }

  /**
   * An address masked with `L - 8`, for a page of L >= 8 words with L a
   * multiple of 8, starts an aligned run of 8 words that lies inside the page.
   */
  lemma MaskedAddressInPage(x: nat, L: nat)
    requires L >= 8 && L % 8 == 0
    ensures BitAnd(x, L - 8) % 8 == 0 && BitAnd(x, L - 8) + 8 <= L
  {
    AndAtMost(x, L - 8);
    DivModUnique(L, 8, L / 8, 0);
    DivModUnique(L - 8, 8, L / 8 - 1, 0);
    AndAligned8(x, L - 8);
  }


  // ---------------------------------------------------------------------
  // Little-endian view of word buffers as bytes.

  /** The word whose little-endian bytes are b[0..8]. */
  function WordOfBytes(b: seq<byte>): (w: Word)
    requires |b| == 8
  {
    var b0: nat, b1: nat, b2: nat, b3: nat := b[0], b[1], b[2], b[3];
    var b4: nat, b5: nat, b6: nat, b7: nat := b[4], b[5], b[6], b[7];
    b0 + 256 * (b1 + 256 * (b2 + 256 * (b3 + 256 * (b4 + 256 * (b5 + 256 * (b6 + 256 * b7))))))
  }

  /** The 8 little-endian bytes of w. */
  function BytesOfWord(w: Word): (b: seq<byte>)
    ensures |b| == 8
  {
    [w % 256, (w / 0x100) % 256, (w / 0x1_0000) % 256, (w / 0x100_0000) % 256,
     (w / 0x1_0000_0000) % 256, (w / 0x100_0000_0000) % 256,
     (w / 0x1_0000_0000_0000) % 256, w / 0x100_0000_0000_0000]
  }

  lemma DigitStep(w: nat, d: nat)
    requires d >= 1
    ensures w / d == (w / d) % 256 + 256 * (w / (d * 256))
  {
    DivDiv(w, d, 256);
  }

  lemma WordBytesRoundTrip(w: Word)
    ensures WordOfBytes(BytesOfWord(w)) == w
  {
    DigitStep(w, 1);
    DigitStep(w, 0x100);
    DigitStep(w, 0x1_0000);
    DigitStep(w, 0x100_0000);
    DigitStep(w, 0x1_0000_0000);
    DigitStep(w, 0x100_0000_0000);
    DigitStep(w, 0x1_0000_0000_0000);
  }

  /** 8n bytes read as n little-endian words. */
  function WordsOf(bytes: seq<byte>, n: nat): (ws: seq<Word>)
    requires |bytes| == 8 * n
    ensures |ws| == n
  {
    WholeWords(n);
    WordsOfBytes(bytes)
  }

  /** 8n bytes are n whole words. */
  lemma WholeWords(n: nat)
    ensures (8 * n) % 8 == 0 && (8 * n) / 8 == n
  {
    DivModUnique(8 * n, 8, n, 0);
  }

  /** The words of a buffer filled byte by byte (length a multiple of 8). */
  function WordsOfBytes(b: seq<byte>): (ws: seq<Word>)
    requires |b| % 8 == 0
    ensures |ws| == |b| / 8
    decreases |b|
  {
    if b == [] then [] else [WordOfBytes(b[..8])] + WordsOfBytes(b[8..])
  }

  /** The bytes of a word buffer read byte by byte. */
  function BytesOfWords(ws: seq<Word>): (b: seq<byte>)
    ensures |b| == 8 * |ws|
  {
    if ws == [] then [] else BytesOfWord(ws[0]) + BytesOfWords(ws[1..])
  }

  /** Reading a word buffer as bytes and back gives the same words. */
  lemma {:induction false} WordsBytesRoundTrip(ws: seq<Word>)
    ensures WordsOfBytes(BytesOfWords(ws)) == ws
  {
    if ws != [] {
      var b := BytesOfWords(ws);
      assert b[..8] == BytesOfWord(ws[0]);
      assert b[8..] == BytesOfWords(ws[1..]);
      WordBytesRoundTrip(ws[0]);
      WordsBytesRoundTrip(ws[1..]);
    }
  }

  /** Word j of a buffer filled byte by byte is made of bytes 8j .. 8j + 7. */
  lemma {:induction false} WordsOfBytesAt(b: seq<byte>, j: nat)
    requires |b| % 8 == 0 && j < |b| / 8
    ensures 8 * j + 8 <= |b| && WordsOfBytes(b)[j] == WordOfBytes(b[8 * j .. 8 * j + 8])
    decreases j
  {
    if j > 0 {
      WordsOfBytesAt(b[8..], j - 1);
      assert b[8..][8 * (j - 1) .. 8 * (j - 1) + 8] == b[8 * j .. 8 * j + 8];
    }
  }

  /** `n` zero bytes: what `memset(p, '\0', n)` leaves. */
  function ZeroBytes(n: nat): (z: seq<byte>)
    ensures |z| == n && forall i :: 0 <= i < n ==> z[i] == 0
  {
    seq(n, _ => 0)
  }

  /**
   * The index after i among n, wrapping to the first: the next context
   * in a ring of n, or the next word on a page of n words.
   */
  function Successor(i: nat, n: nat): (j: nat)
    requires i < n
    ensures j < n
  {
    if i + 1 == n then 0 else i + 1
  }

  /** The index before i among n, wrapping to the last. */
  function Predecessor(i: nat, n: nat): (j: nat)
    requires i < n
    ensures j < n
  {
    if i == 0 then n - 1 else i - 1
  }

  /** `n` copies of zero: what `memset(p, 0, ...)` leaves. */
  function Zeros(n: nat): (z: seq<Word>)
    ensures |z| == n && forall i :: 0 <= i < n ==> z[i] == 0
  {
    seq(n, _ => 0)
  }
}
