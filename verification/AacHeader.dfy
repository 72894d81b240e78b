/** ngx_rtmp_codec_parse_aac_header on an AudioSpecificConfig (ISO/IEC 14496-3, section 1.6.2.1). */
module AacHeader {
  import opened Bytes
  import opened Bits
  import opened BitReader
  import opened BitFields
  import opened Wrappers

  /** An FLV audio header in 16 bits and the configuration: object type, sampling rate, channels; for
      spectral band replication (5) and parametric stereo (29) the rate and type below them. */
  datatype Config = Config(prefix: nat, objectType: nat, rate: Rate, channels: nat, extension: Option<Extension>)

  datatype Extension = Extension(rate: Rate, objectType: nat)

  /** One of the sixteen indices; 15 is followed by the rate itself. */
  datatype Rate = Index(i: nat) | Explicit(hertz: nat)

  const RATES: seq<nat> :=
    [96000, 88200, 64000, 48000, 44100, 32000, 24000, 22050, 16000, 12000, 11025, 8000, 7350, 0, 0, 0]

  /** Three families of rates, each from 96, 88.2 and 64 kHz down by halves, a last one that is a sixth of 44.1 kHz,
      and three indices that stand for no rate. */
  lemma RateFamilies()
    ensures |RATES| == 16 && RATES[..3] == [96000, 88200, 64000]
    ensures forall i | 3 <= i < 12 :: RATES[i] * 2 == RATES[i - 3]
    ensures RATES[12] * 6 == RATES[4] && RATES[13..] == [0, 0, 0]
  {
  }

  predicate GoodType(t: nat) {
    t != 31 && t < 96
  }

  predicate GoodRate(r: Rate) {
    match r case Index(i) => i < 15 case Explicit(hertz) => hertz < 0x100_0000
  }

  predicate WellFormed(c: Config) {
    && c.prefix < 0x1_0000 && GoodType(c.objectType) && GoodRate(c.rate) && c.channels < 16
    && (c.extension.Some? <==> c.objectType == 5 || c.objectType == 29)
    && (c.extension.Some? ==> GoodRate(c.extension.value.rate) && GoodType(c.extension.value.objectType))
  }

  function TypeBits(t: nat, rest: seq<Bit>): seq<Bit>
    requires GoodType(t)
  {
    if t < 31 then Fixed(5, t) + rest else Fixed(5, 31) + (Fixed(6, t - 32) + rest)
  }

  function RateBits(r: Rate, rest: seq<Bit>): seq<Bit> {
    match r
    case Index(i) => Fixed(4, i) + rest
    case Explicit(hertz) => Fixed(4, 15) + (Fixed(24, hertz) + rest)
  }

  function ExtensionBits(e: Option<Extension>, rest: seq<Bit>): seq<Bit>
    requires e.Some? ==> GoodType(e.value.objectType)
  {
    match e
    case None => rest
    case Some(x) => RateBits(x.rate, TypeBits(x.objectType, rest))
  }

  function ConfigBits(c: Config, rest: seq<Bit>): seq<Bit>
    requires WellFormed(c)
  {
    Fixed(16, c.prefix)
    + TypeBits(c.objectType, RateBits(c.rate, Fixed(4, c.channels) + ExtensionBits(c.extension, rest)))
  }

  function Hertz(r: Rate): nat
    requires GoodRate(r)
  {
    match r case Index(i) => RATES[i] case Explicit(hertz) => hertz
  }

  lemma Widths()
    ensures Pow2(4) == 16 && Pow2(5) == 32 && Pow2(6) == 64 && Pow2(24) == 0x100_0000 && Pow2(16) == 0x1_0000
  {
    assert Pow2(8) == 0x100;
    assert Pow2(12) == 0x1000;
    assert Pow2(16) == 0x1_0000;
    assert Pow2(20) == 0x10_0000;
  }

  method ReadType(r: Reader, ghost t: nat, ghost rest: seq<Bit>) returns (x: nat)
    requires r.Valid() && GoodType(t)
    modifies r
    ensures r.Valid()
    ensures old(Ahead(r, TypeBits(t, rest))) ==> x == t && Ahead(r, rest)
  {
    Widths();
    x := ReadField(r, 5, if t < 31 then t else 31, if t < 31 then rest else Fixed(6, t - 32) + rest);
    if x == 31 {
      x := ReadField(r, 6, if t < 31 then 0 else t - 32, rest);
      x := x + 32;
    }
  }

  method ReadRate(r: Reader, ghost rate: Rate, ghost rest: seq<Bit>) returns (hertz: nat)
    requires r.Valid() && GoodRate(rate)
    modifies r
    ensures r.Valid()
    ensures old(Ahead(r, RateBits(rate, rest))) ==> hertz == Hertz(rate) && Ahead(r, rest)
  {
    Widths();
    ghost var escaped := if rate.Explicit? then rate.hertz else 0;
    var i := ReadIndex(r, if rate.Index? then rate.i else 15, if rate.Index? then rest else Fixed(24, escaped) + rest);
    if i == 15 {
      hertz := ReadField(r, 24, escaped, rest);
    } else {
      hertz := RATES[i];
    }
  }

  method ReadIndex(r: Reader, ghost i: nat, ghost rest: seq<Bit>) returns (x: nat)
    requires r.Valid() && i < 16
    modifies r
    ensures r.Valid() && x < 16
    ensures old(Ahead(r, Fixed(4, i) + rest)) ==> x == i && Ahead(r, rest)
  {
    Widths();
    ghost var bits, at := r.Input(), r.At();
    x := r.Read(4);
    HoldsParts(bits, at, Fixed(4, i), rest);
    if Holds(bits, at, Fixed(4, i) + rest) {
      ReadsFixed(bits, at, 4, i);
    }
  }

  class CodecCtx {
    var aacProfile: nat
    var aacChanConf: nat
    var aacSbr: bool
    var aacPs: bool
    var sampleRate: nat

    constructor ()
      ensures !aacSbr && !aacPs
    {
      aacSbr, aacPs := false, false;
    }

    /** The flags are only ever set: they stay from an earlier header. */
    method ParseAacHeader(data: seq<Byte>, ghost c: Config, ghost rest: seq<Bit>)
      requires WellFormed(c)
      modifies this
      ensures Holds(BitsOf(data), 0, ConfigBits(c, rest)) ==>
                && aacChanConf == c.channels
                && aacSbr == (old(aacSbr) || c.extension.Some?)
                && aacPs == (old(aacPs) || c.objectType == 29)
                && aacProfile == (if c.extension.Some? then c.extension.value.objectType else c.objectType)
                && sampleRate == Hertz(if c.extension.Some? then c.extension.value.rate else c.rate)
    {
      Widths();
      var r := new Reader(data);
      ghost var extension := ExtensionBits(c.extension, rest);
      ghost var rate := RateBits(c.rate, Fixed(4, c.channels) + extension);
      var prefix := ReadField(r, 16, c.prefix, TypeBits(c.objectType, rate));
      aacProfile := ReadType(r, c.objectType, rate);
      sampleRate := ReadRate(r, c.rate, Fixed(4, c.channels) + extension);
      aacChanConf := ReadField(r, 4, c.channels, extension);
      if aacProfile == 5 || aacProfile == 29 {
        if aacProfile == 29 {
          aacPs := true;
        }
        aacSbr := true;
        ParseExtension(r, if c.extension.Some? then c.extension.value else Extension(Index(0), 1), rest);
      }
    }

    /** The rate and the object type of the extension replace those read before. */
    method ParseExtension(r: Reader, ghost e: Extension, ghost rest: seq<Bit>)
      requires r.Valid() && GoodRate(e.rate) && GoodType(e.objectType)
      modifies r, this`sampleRate, this`aacProfile
      ensures r.Valid()
      ensures old(Ahead(r, RateBits(e.rate, TypeBits(e.objectType, rest)))) ==>
                sampleRate == Hertz(e.rate) && aacProfile == e.objectType
    {
      sampleRate := ReadRate(r, e.rate, TypeBits(e.objectType, rest));
      aacProfile := ReadType(r, e.objectType, rest);
    }
  }
}
