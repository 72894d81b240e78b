/** Bit sequences, the numbers they stand for, and the codes u(n), ue(v) and se(v) of ITU-T H.264,
    sections 7.2 and 9.1. */
module Bits {
  import opened Bytes

  type Bit = b: int | 0 <= b < 2

  const WORD: nat := 0x1_0000_0000_0000_0000

  function Pow2(n: nat): (p: nat)
    ensures p > 0
  {
    if n == 0 then 1 else 2 * Pow2(n - 1)
  }

  /** The number in the n bits from `at` on; the first bit is the most significant one. */
  function Val(bits: seq<Bit>, at: nat, n: nat): (v: nat)
    requires at + n <= |bits|
    ensures v < Pow2(n)
  {
    if n == 0 then 0 else 2 * Val(bits, at, n - 1) + bits[at + n - 1]
  }

  /** v << d without loss */
  function Shl(v: nat, d: nat): nat {
    if d == 0 then v else 2 * Shl(v, d - 1)
  }

  lemma {:induction false} ShlIsProduct(v: nat, d: nat)
    ensures Shl(v, d) == v * Pow2(d)
  {
    if d > 0 {
      ShlIsProduct(v, d - 1);
    }
  }

  lemma {:induction false} ValAppend(bits: seq<Bit>, at: nat, n: nat, m: nat)
    requires at + n + m <= |bits|
    ensures Val(bits, at, n + m) == Shl(Val(bits, at, n), m) + Val(bits, at + n, m)
    decreases m
  {
    if m > 0 {
      ValAppend(bits, at, n, m - 1);
    }
  }

  lemma {:induction false} Pow2Monotone(a: nat, b: nat)
    requires a <= b
    ensures Pow2(a) <= Pow2(b)
    decreases b - a
  {
    if a < b {
      Pow2Monotone(a + 1, b);
    }
  }

  // --------------------------------------------------- 64-bit arithmetic

  /** What remains of a number in a word: the number modulo 2^64. */
  function Wrap(v: nat): (r: nat)
    ensures r < WORD
    ensures v < WORD ==> r == v
  {
    if v < WORD then v else Wrap(v - WORD)
  }

  lemma {:induction false} WrapAdd(u: nat, x: nat)
    ensures Wrap(Wrap(u) + x) == Wrap(u + x)
    decreases u
  {
    if u >= WORD {
      WrapAdd(u - WORD, x);
    }
  }

  lemma {:induction false} WrapDouble(u: nat)
    ensures Wrap(2 * Wrap(u)) == Wrap(2 * u)
  {
    if u >= WORD {
      WrapDouble(u - WORD);
      assert Wrap(2 * u) == Wrap(2 * u - WORD) == Wrap(2 * (u - WORD));
    }
  }

  lemma {:induction false} WrapShl(u: nat, d: nat)
    ensures Wrap(Shl(Wrap(u), d)) == Wrap(Shl(u, d))
  {
    if d > 0 {
      WrapShl(u, d - 1);
      WrapDouble(Shl(Wrap(u), d - 1));
      WrapDouble(Shl(u, d - 1));
    }
  }

  lemma Pow2Is64()
    ensures Pow2(64) == WORD
  {
    assert Pow2(8) == 0x100;
    assert Pow2(16) == 0x1_0000;
    assert Pow2(24) == 0x100_0000;
    assert Pow2(32) == 0x1_0000_0000;
    assert Pow2(40) == 0x100_0000_0000;
    assert Pow2(48) == 0x1_0000_0000_0000;
    assert Pow2(56) == 0x100_0000_0000_0000;
  }

  lemma FitsWord(bits: seq<Bit>, at: nat, n: nat)
    requires at + n <= |bits| && n <= 64
    ensures Val(bits, at, n) < WORD
  {
    Pow2Monotone(n, 64);
    Pow2Is64();
  }

  /** v <<= d; v += x */
  lemma Accumulate(bits: seq<Bit>, at: nat, n: nat, d: nat, v: nat, x: nat)
    requires at + n + d <= |bits|
    requires v == Wrap(Val(bits, at, n)) && x == Val(bits, at + n, d)
    ensures Wrap(Wrap(Shl(v, d)) + x) == Wrap(Val(bits, at, n + d))
  {
    ValAppend(bits, at, n, d);
    WrapShl(Val(bits, at, n), d);
    WrapAdd(Shl(v, d), x);
    WrapAdd(Shl(Val(bits, at, n), d), x);
  }

  // --------------------------------------------- shift and mask on a byte

  /** Bit `i` of a byte, from the left. */
  function BitOf(b: Byte, i: nat): Bit
    requires i < 8
  {
    b / Pow2(7 - i) % 2
  }

  function BitsOf(data: seq<Byte>): (bits: seq<Bit>)
    ensures |bits| == 8 * |data|
  {
    seq(8 * |data|, i requires 0 <= i < 8 * |data| => BitOf(data[i / 8], i % 8))
  }

  lemma BitAt(data: seq<Byte>, pos: nat, i: nat)
    requires pos < |data| && i < 8
    ensures BitsOf(data)[8 * pos + i] == BitOf(data[pos], i)
  {
    assert (8 * pos + i) / 8 == pos && (8 * pos + i) % 8 == i;
  }

  lemma DivTwice(b: nat, p: nat)
    requires p > 0
    ensures b / (2 * p) == b / p / 2
  {
    var q, r := b / p, b % p;
    assert b == q * p + r;
    var h, t := q / 2, q % 2;
    assert b == h * (2 * p) + (t * p + r);
    assert 0 <= t * p + r < 2 * p;
    Quotient(b, 2 * p, h, t * p + r);
  }

  lemma ModTwice(q: nat, m: nat)
    requires m > 0
    ensures q % (2 * m) == 2 * (q / 2 % m) + q % 2
  {
    var h, r := q / 2, q % 2;
    var k, t := h / m, h % m;
    assert h == k * m + t;
    assert q == k * (2 * m) + (2 * t + r);
    Quotient(q, 2 * m, k, 2 * t + r);
  }

  /** (b >> (8 - offs - d)) & (0xff >> (8 - d)) */
  function Extract(b: Byte, offs: nat, d: nat): nat
    requires offs + d <= 8
  {
    b / Pow2(8 - offs - d) % Pow2(d)
  }

  lemma ExtractMore(b: Byte, offs: nat, d: nat)
    requires offs + d < 8
    ensures Extract(b, offs, d + 1) == 2 * Extract(b, offs, d) + BitOf(b, offs + d)
  {
    var p := Pow2(7 - offs - d);
    DivTwice(b, p);
    ModTwice(b / p, Pow2(d));
  }

  /** It is the d bits of the byte from bit offs on. */
  lemma {:induction false} ExtractIsVal(data: seq<Byte>, pos: nat, offs: nat, d: nat)
    requires pos < |data| && offs + d <= 8
    ensures Extract(data[pos], offs, d) == Val(BitsOf(data), 8 * pos + offs, d)
    decreases d
  {
    if d > 0 {
      ExtractIsVal(data, pos, offs, d - 1);
      ExtractMore(data[pos], offs, d - 1);
      BitAt(data, pos, offs + d - 1);
    }
  }

  // --------------------------------------------------------------- codes

  /** `s` stands at a position. */
  predicate Holds(bits: seq<Bit>, at: nat, s: seq<Bit>) {
    at + |s| <= |bits| && forall i | 0 <= i < |s| :: bits[at + i] == s[i]
  }

  lemma HoldsParts(bits: seq<Bit>, at: nat, a: seq<Bit>, b: seq<Bit>)
    ensures Holds(bits, at, a + b) <==> Holds(bits, at, a) && Holds(bits, at + |a|, b)
  {
    if Holds(bits, at, a) && Holds(bits, at + |a|, b) {
      forall i | 0 <= i < |a + b| ensures bits[at + i] == (a + b)[i] {
        assert i >= |a| ==> bits[at + |a| + (i - |a|)] == b[i - |a|];
      }
    }
    if Holds(bits, at, a + b) {
      forall i | 0 <= i < |a| ensures bits[at + i] == a[i] {
        assert (a + b)[i] == a[i];
      }
      forall i | 0 <= i < |b| ensures bits[at + |a| + i] == b[i] {
        assert bits[at + (|a| + i)] == (a + b)[|a| + i];
      }
    }
  }

  /** u(n) */
  function Fixed(n: nat, v: nat): (s: seq<Bit>)
    ensures |s| == n
  {
    if n == 0 then [] else Fixed(n - 1, v / 2) + [v % 2]
  }

  lemma {:induction false} FixedVal(bits: seq<Bit>, at: nat, n: nat, v: nat)
    requires v < Pow2(n) && Holds(bits, at, Fixed(n, v))
    ensures Val(bits, at, n) == v
    decreases n
  {
    if n > 0 {
      HoldsParts(bits, at, Fixed(n - 1, v / 2), [v % 2]);
      FixedVal(bits, at, n - 1, v / 2);
      assert bits[at + (n - 1) + 0] == [v % 2][0];
    }
  }

  function Zeros(k: nat): (s: seq<Bit>)
    ensures |s| == k
    ensures forall i | 0 <= i < k :: s[i] == 0
  {
    seq(k, _ => 0)
  }

  /** The number of bits of `n` after its first one. */
  function Log2(n: nat): (k: nat)
    requires n > 0
    ensures Pow2(k) <= n < 2 * Pow2(k)
  {
    if n == 1 then 0 else Log2(n / 2) + 1
  }

  lemma LogBelow64(n: nat)
    requires 0 < n < WORD
    ensures Log2(n) < 64
  {
    if Log2(n) >= 64 {
      Pow2Monotone(64, Log2(n));
      Pow2Is64();
      assert false;
    }
  }

  /** ue(v): as many zeros as `v` + 1 has bits after its first, and `v` + 1. */
  function Ue(v: nat): (s: seq<Bit>)
    ensures |s| == 2 * Log2(v + 1) + 1
  {
    var k := Log2(v + 1);
    Zeros(k) + ([1] + Fixed(k, v + 1 - Pow2(k)))
  }

  /** se(v) */
  function Se(v: int): seq<Bit> {
    Ue(if v > 0 then 2 * v - 1 else -2 * v)
  }
}
