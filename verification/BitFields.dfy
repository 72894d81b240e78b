/** Reading what was written: fields and codes ahead of a reader. */
module BitFields {
  import opened Bytes
  import opened Bits
  import opened BitReader

  /** `s` stands at the reader's position. */
  ghost predicate Ahead(r: Reader, s: seq<Bit>)
    requires r.Valid()
    reads r
  {
    Holds(r.Input(), r.At(), s)
  }

  /** A fixed-length field: whatever number was written there is read. */
  method ReadField(r: Reader, n: nat, ghost v: nat, ghost rest: seq<Bit>) returns (x: nat)
    requires r.Valid() && n <= 64 && v < Pow2(n)
    modifies r
    ensures r.Valid()
    ensures old(Ahead(r, Fixed(n, v) + rest)) ==> x == v && Ahead(r, rest)
  {
    ghost var bits, at := r.Input(), r.At();
    x := r.Read(n);
    HoldsParts(bits, at, Fixed(n, v), rest);
    if Holds(bits, at, Fixed(n, v) + rest) {
      ReadsFixed(bits, at, n, v);
    }
  }

  method ReadBit(r: Reader, ghost b: Bit, ghost rest: seq<Bit>) returns (x: Bit)
    requires r.Valid()
    modifies r
    ensures r.Valid()
    ensures old(Ahead(r, Fixed(1, b) + rest)) ==> x == b && Ahead(r, rest)
  {
    ghost var bits, at := r.Input(), r.At();
    OneBit(bits, at);
    x := r.Read(1);
    HoldsParts(bits, at, Fixed(1, b), rest);
    if Holds(bits, at, Fixed(1, b) + rest) {
      ReadsFixed(bits, at, 1, b);
    }
  }

  method ReadUe(r: Reader, ghost v: nat, ghost rest: seq<Bit>) returns (x: nat)
    requires r.Valid() && v + 1 < WORD
    modifies r
    ensures r.Valid()
    ensures old(Ahead(r, Ue(v) + rest)) ==> x == v && Ahead(r, rest)
  {
    ghost var bits, at := r.Input(), r.At();
    x := r.ReadGolombCode();
    HoldsParts(bits, at, Ue(v), rest);
    if Holds(bits, at, Ue(v) + rest) {
      ReadsUe(bits, at, v);
    }
  }

  lemma Bytes8(b: Byte)
    ensures b < Pow2(8)
  {
    assert Pow2(8) == 0x100;
  }

  lemma Wide()
    ensures Pow2(16) == 0x1_0000 && Pow2(48) == 0x1_0000_0000_0000
  {
    assert Pow2(8) == 0x100;
    assert Pow2(16) == 0x1_0000;
    assert Pow2(24) == 0x100_0000;
    assert Pow2(32) == 0x1_0000_0000;
    assert Pow2(40) == 0x100_0000_0000;
  }
}
