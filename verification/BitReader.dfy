/** ngx_rtmp_bit_read and ngx_rtmp_bit_read_golomb: a cursor in bytes and bits with a sticky error. */
module BitReader {
  import opened Bytes
  import opened Bits

  /** A number read, the bit position after it, and whether the input was too short. */
  datatype Got = Got(value: nat, at: nat, short: bool)

  /** n bits from a position on; a read past the end gives 0 and leaves nothing. */
  function ReadBits(bits: seq<Bit>, at: nat, n: nat): (g: Got)
    requires at <= |bits|
    ensures g.at <= |bits|
  {
    if at + n <= |bits| then Got(Wrap(Val(bits, at, n)), at + n, false) else Got(0, |bits|, true)
  }

  /** Two reads in a row read what one read of both lengths reads. */
  lemma ReadsCompose(bits: seq<Bit>, at: nat, n: nat, m: nat)
    requires at <= |bits| && n + m <= 64
    ensures var a := ReadBits(bits, at, n);
            var b := ReadBits(bits, a.at, m);
            var whole := ReadBits(bits, at, n + m);
            && (whole.short <==> a.short || b.short)
            && whole.at == b.at
            && (!whole.short ==> whole.value == Shl(a.value, m) + b.value)
  {
    if at + n + m <= |bits| {
      ValAppend(bits, at, n, m);
      FitsWord(bits, at, n);
      FitsWord(bits, at + n, m);
      FitsWord(bits, at, n + m);
    }
  }

  /** The zeros before the first one bit, or before the end. */
  function LeadingZeros(bits: seq<Bit>, at: nat): (k: nat)
    requires at <= |bits|
    ensures at + k <= |bits|
    decreases |bits| - at
  {
    if at == |bits| || bits[at] == 1 then 0 else 1 + LeadingZeros(bits, at + 1)
  }

  /** ((uint64_t) 1 << k) + low - 1, with the shift count taken modulo the word width. */
  function GolombValue(k: nat, low: nat): (v: nat) {
    Wrap(Pow2(k % 64) + low - 1)
  }

  function ReadGolomb(bits: seq<Bit>, at: nat): (g: Got)
    requires at <= |bits|
    ensures g.at <= |bits|
  {
    var k := LeadingZeros(bits, at);
    if at + k == |bits| then Got(GolombValue(k, 0), |bits|, true)
    else
      var g := ReadBits(bits, at + k + 1, k);
      Got(GolombValue(k, g.value), g.at, g.short)
  }

  /** Reading inverts u(n) for every n up to 64. */
  lemma ReadsFixed(bits: seq<Bit>, at: nat, n: nat, v: nat)
    requires n <= 64 && v < Pow2(n) && Holds(bits, at, Fixed(n, v))
    ensures ReadBits(bits, at, n) == Got(v, at + n, false)
  {
    FixedVal(bits, at, n, v);
    FitsWord(bits, at, n);
  }

  lemma {:induction false} ZerosLead(bits: seq<Bit>, at: nat, k: nat)
    requires at + k < |bits| && bits[at + k] == 1 && forall i | at <= i < at + k :: bits[i] == 0
    ensures LeadingZeros(bits, at) == k
    decreases k
  {
    if k > 0 {
      ZerosLead(bits, at + 1, k - 1);
    }
  }

  lemma UeParts(bits: seq<Bit>, at: nat, zeros: seq<Bit>, low: seq<Bit>)
    requires Holds(bits, at, zeros + ([1] + low)) && forall i | 0 <= i < |zeros| :: zeros[i] == 0
    ensures Holds(bits, at + |zeros| + 1, low)
    ensures LeadingZeros(bits, at) == |zeros|
  {
    var k := |zeros|;
    HoldsParts(bits, at, zeros, [1] + low);
    HoldsParts(bits, at + k, [1], low);
    assert bits[at + k + 0] == [1][0];
    forall i | at <= i < at + k ensures bits[i] == 0 {
      assert bits[at + (i - at)] == zeros[i - at];
    }
    ZerosLead(bits, at, k);
  }

  lemma ReadsCode(bits: seq<Bit>, at: nat, k: nat, x: nat)
    requires k < 64 && x < Pow2(k) && Pow2(k) + x <= WORD
    requires Holds(bits, at, Zeros(k) + ([1] + Fixed(k, x)))
    ensures ReadGolomb(bits, at) == Got(Pow2(k) + x - 1, at + 2 * k + 1, false)
  {
    UeParts(bits, at, Zeros(k), Fixed(k, x));
    ReadsFixed(bits, at + k + 1, k, x);
  }

  /** Reading inverts ue(v) for every v up to 2^64 - 2, and consumes exactly its code. */
  lemma ReadsUe(bits: seq<Bit>, at: nat, v: nat)
    requires v + 1 < WORD && Holds(bits, at, Ue(v))
    ensures ReadGolomb(bits, at) == Got(v, at + |Ue(v)|, false)
  {
    LogBelow64(v + 1);
    ReadsCode(bits, at, Log2(v + 1), v + 1 - Pow2(Log2(v + 1)));
  }

  lemma OneBit(bits: seq<Bit>, at: nat)
    requires at <= |bits|
    ensures ReadBits(bits, at, 1) == if at < |bits| then Got(bits[at], at + 1, false) else Got(0, |bits|, true)
  {
    if at < |bits| {
      assert Val(bits, at, 1) == 2 * Val(bits, at, 0) + bits[at];
    }
  }

  class Reader {
    const data: seq<Byte>
    var pos: nat
    var offs: nat
    var err: bool

    predicate Valid()
      reads this
    {
      pos <= |data| && offs < 8 && (pos == |data| ==> offs == 0) && (err ==> pos == |data|)
    }

    function Input(): (bits: seq<Bit>)
      ensures |bits| == 8 * |data|
    {
      BitsOf(data)
    }

    function At(): (at: nat)
      requires Valid()
      reads this
      ensures at <= |Input()|
    {
      8 * pos + offs
    }

    constructor (data: seq<Byte>)
      ensures Valid() && this.data == data && At() == 0 && !err
    {
      this.data, pos, offs, err := data, 0, 0, false;
    }

    /** ngx_rtmp_bit_read */
    method Read(n: nat) returns (v: nat)
      requires Valid()
      modifies this
      ensures Valid()
      ensures var g := ReadBits(Input(), old(At()), n);
              v == g.value && At() == g.at && (err <==> g.short || old(err))
    {
      v := 0;
      var left := n;
      ghost var bits, start, failed, done := Input(), At(), err, 0;
      while left > 0
        invariant Valid() && err == failed && 0 <= done <= n == done + left && At() == start + done
        invariant v == Wrap(Val(bits, start, done))
      {
        if pos >= |data| {
          err := true;
          assert At() == |bits| && start + n > |bits|;
          return 0;
        }
        var d := if offs + left > 8 then 8 - offs else left;
        v := ReadPart(d, v, start, done);
        left, done := left - d, done + d;
      }
    }

    /** The bits of one byte. */
    method ReadPart(d: nat, v: nat, ghost start: nat, ghost done: nat) returns (w: nat)
      requires Valid() && pos < |data| && offs + d <= 8
      requires At() == start + done && v == Wrap(Val(Input(), start, done))
      modifies this
      ensures Valid() && At() == old(At()) + d && err == old(err)
      ensures w == Wrap(Val(Input(), start, done + d))
    {
      var x := Extract(data[pos], offs, d);
      ExtractIsVal(data, pos, offs, d);
      Accumulate(Input(), start, done, d, v, x);
      w := Wrap(Wrap(Shl(v, d)) + x);
      MoveOn(d);
    }

    method MoveOn(d: nat)
      requires Valid() && pos < |data| && offs + d <= 8
      modifies this
      ensures Valid() && At() == old(At()) + d && err == old(err)
    {
      offs := offs + d;
      if offs == 8 {
        pos := pos + 1;
        offs := 0;
      }
    }

    /** ngx_rtmp_bit_read_golomb */
    method ReadGolombCode() returns (v: nat)
      requires Valid()
      modifies this
      ensures Valid()
      ensures var g := ReadGolomb(Input(), old(At()));
              v == g.value && At() == g.at && (err <==> g.short || old(err))
    {
      var n := CountZeros();
      var low := Read(n);
      v := GolombValue(n, low);
    }

    /** The loop over the zeros, and the one bit. */
    method CountZeros() returns (n: nat)
      requires Valid()
      modifies this
      ensures Valid() && n == LeadingZeros(Input(), old(At()))
      ensures if old(At()) + n == |Input()| then err && At() == |Input()|
              else err == old(err) && At() == old(At()) + n + 1
    {
      ghost var bits, start, failed := Input(), At(), err;
      n := 0;
      OneBit(bits, start);
      var b := Read(1);
      while b == 0 && !err
        invariant Valid() && start + n <= |bits| && b < 2
        invariant if start + n == |bits| then b == 0 && err && At() == |bits|
                  else err == failed && b == bits[start + n] && At() == start + n + 1
        invariant LeadingZeros(bits, start) == n + LeadingZeros(bits, start + n)
        decreases |bits| - start - n
      {
        n := n + 1;
        OneBit(bits, start + n);
        b := Read(1);
      }
    }
  }
}
