/** Bytes, numbers as big-endian bytes, and chains of byte strings. */
module Bytes {
  type Byte = b: int | 0 <= b < 256

  function Reverse(s: seq<Byte>): (r: seq<Byte>)
    ensures |r| == |s|
    ensures forall i | 0 <= i < |s| :: r[i] == s[|s| - 1 - i]
  {
    if s == [] then [] else Reverse(s[1..]) + [s[0]]
  }

  function U16(n: int): (s: seq<Byte>)
    requires 0 <= n < 0x1_0000
    ensures |s| == 2
  {
    assert 0 <= n / 0x100 < 0x100;
    [n / 0x100, n % 0x100]
  }

  function U32(n: int): (s: seq<Byte>)
    requires 0 <= n < 0x1_0000_0000
    ensures |s| == 4
  {
    U16(n / 0x1_0000) + U16(n % 0x1_0000)
  }

  function FromU16(s: seq<Byte>): (n: nat)
    requires |s| == 2
    ensures n < 0x1_0000 && U16(n) == s
  {
    var high: int, low: int := s[0], s[1];
    assert (high * 0x100 + low) / 0x100 == high;
    high * 0x100 + low
  }

  function FromU32(s: seq<Byte>): (n: nat)
    requires |s| == 4
    ensures n < 0x1_0000_0000
  {
    FromU16(s[..2]) * 0x1_0000 + FromU16(s[2..])
  }

  lemma U16Inverse(n: int)
    requires 0 <= n < 0x1_0000
    ensures FromU16(U16(n)) == n
  {
  }

  lemma U32Inverse(n: int)
    requires 0 <= n < 0x1_0000_0000
    ensures FromU32(U32(n)) == n
  {
    U16Inverse(n / 0x1_0000);
    U16Inverse(n % 0x1_0000);
    assert U32(n)[..2] == U16(n / 0x1_0000) && U32(n)[2..] == U16(n % 0x1_0000);
  }

  /** The bytes of a chain. */
  function Flat(chain: seq<seq<Byte>>): seq<Byte> {
    if chain == [] then [] else chain[0] + Flat(chain[1..])
  }

  lemma {:induction false} FlatPush(chain: seq<seq<Byte>>, b: seq<Byte>)
    ensures Flat(chain + [b]) == Flat(chain) + b
  {
    if chain == [] {
      assert [] + [b] == [b] && [b][1..] == [];
      assert Flat([b]) == b + Flat([]) == b;
    } else {
      assert (chain + [b])[1..] == chain[1..] + [b];
      FlatPush(chain[1..], b);
    }
  }

  /** Quotient and remainder are unique. */
  lemma Quotient(x: nat, m: nat, q: nat, r: nat)
    requires m > 0 && x == q * m + r && r < m
    ensures x / m == q && x % m == r
  {
    var d: int, n: int := x / m - q, m;
    assert x == (x / m) * m + x % m;
    assert d * n == r - x % m;
    assert d >= 1 ==> d * n >= n;
    assert d <= -1 ==> d * n <= -1 * n;
  }
}
