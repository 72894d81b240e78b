/** ngx_rtmp_codec_parse_avc_header on a configuration record whose first parameter set is written by
    section 7.3.2.1.1 of ITU-T H.264. */
module AvcHeader {
  import opened Bytes
  import opened Bits
  import opened BitReader
  import opened BitFields
  import opened Wrappers

  /** An FLV video tag header and version in 48 bits, the record's fields, the header of the first
      parameter set and the set itself. */
  datatype Config = Config(prefix: nat, profile: Byte, compat: Byte, level: Byte, lengths: Byte, count: Byte,
                           size: nat, nalHeader: Byte, sps: Sps)

  datatype Sps = Sps(profile: Byte, flags: Byte, level: Byte, id: nat, chroma: Chroma, maxFrameNum: nat, order: Order,
                     refFrames: nat, gaps: Bit, width: nat, height: nat, frameMbsOnly: Bit, adaptive: Bit,
                     direct8x8: Bit, crop: Option<Crop>)

  /** Only written for the high profiles; `matrix` announces a scaling matrix, whose lists are all absent. */
  datatype Chroma = Chroma(format: nat, separate: Bit, luma: nat, chroma: nat, bypass: Bit, matrix: Bit)

  datatype Order =
    | Type0(maxLsb: nat)
    | Type1(alwaysZero: Bit, nonRef: int, topToBottom: int, refs: seq<int>)
    | Type2

  datatype Crop = Crop(left: nat, right: nat, top: nat, bottom: nat)

  /** The profiles for which the code reads chroma fields. */
  predicate High(profile: nat) {
    profile in {100, 110, 122, 244, 44, 83, 86, 118}
  }

  /** The profiles whose parameter sets have chroma fields: the scalable, multiview and depth profiles with
      their high intra and stereo companions as well. */
  predicate CarriesChroma(profile: nat) {
    profile in {44, 83, 86, 100, 110, 118, 122, 128, 134, 135, 138, 139, 244}
  }

  /** The range of a ue(v) and of the number behind an se(v). */
  predicate U(v: nat) {
    v < 0xffff_ffff
  }

  predicate S(v: int) {
    -0x7fff_ffff <= v <= 0x7fff_ffff
  }

  predicate WellFormed(c: Config) {
    var s := c.sps;
    && c.prefix < 0x1_0000_0000_0000 && c.size < 0x1_0000
    && U(s.id) && U(s.maxFrameNum) && U(s.refFrames) && U(s.width) && U(s.height)
    && s.chroma.format < 4 && U(s.chroma.luma) && U(s.chroma.chroma)
    && (s.order.Type0? ==> U(s.order.maxLsb))
    && (s.order.Type1? ==> S(s.order.nonRef) && S(s.order.topToBottom) && U(|s.order.refs|))
    && (s.order.Type1? ==> forall i | 0 <= i < |s.order.refs| :: S(s.order.refs[i]))
    && (s.crop.Some? ==> U(s.crop.value.left) && U(s.crop.value.right) && U(s.crop.value.top) && U(s.crop.value.bottom))
  }

  // Each of these is followed by the bits of `rest`.

  function ConfigBits(c: Config, rest: seq<Bit>): seq<Bit> {
    Fixed(48, c.prefix) + (Fixed(8, c.profile) + (Fixed(8, c.compat) + (Fixed(8, c.level) + (Fixed(8, c.lengths)
    + (Fixed(8, c.count) + (Fixed(16, c.size) + (Fixed(8, c.nalHeader) + SpsBits(c.sps, rest))))))))
  }

  function SpsBits(s: Sps, rest: seq<Bit>): seq<Bit> {
    Fixed(8, s.profile) + (Fixed(8, s.flags) + (Fixed(8, s.level) + (Ue(s.id)
    + ChromaBits(s.profile, s.chroma, Ue(s.maxFrameNum) + OrderBits(s.order, FrameBits(s, rest))))))
  }

  function ChromaBits(profile: nat, c: Chroma, rest: seq<Bit>): seq<Bit> {
    if High(profile) then ChromaFields(c, rest) else rest
  }

  function ChromaFields(c: Chroma, rest: seq<Bit>): seq<Bit> {
    Ue(c.format) + PlaneBits(c, Ue(c.luma) + (Ue(c.chroma) + (Fixed(1, c.bypass) + (Fixed(1, c.matrix)
    + MatrixBits(c, rest)))))
  }

  function PlaneBits(c: Chroma, rest: seq<Bit>): seq<Bit> {
    if c.format == 3 then Fixed(1, c.separate) + rest else rest
  }

  function Lists(c: Chroma): nat {
    if c.format != 3 then 8 else 12
  }

  function MatrixBits(c: Chroma, rest: seq<Bit>): seq<Bit> {
    if c.matrix == 1 then Zeros(Lists(c)) + rest else rest
  }

  function OrderBits(o: Order, rest: seq<Bit>): seq<Bit> {
    match o
    case Type0(maxLsb) => Ue(0) + (Ue(maxLsb) + rest)
    case Type1(alwaysZero, nonRef, topToBottom, refs) =>
      Ue(1) + (Fixed(1, alwaysZero) + (Se(nonRef) + (Se(topToBottom) + (Ue(|refs|) + SeBits(refs, rest)))))
    case Type2 => Ue(2) + rest
  }

  function SeBits(vs: seq<int>, rest: seq<Bit>): seq<Bit> {
    if vs == [] then rest else Se(vs[0]) + SeBits(vs[1..], rest)
  }

  function FrameBits(s: Sps, rest: seq<Bit>): seq<Bit> {
    Ue(s.refFrames) + (Fixed(1, s.gaps) + (Ue(s.width) + (Ue(s.height) + (Fixed(1, s.frameMbsOnly)
    + AdaptiveBits(s, Fixed(1, s.direct8x8) + CropBits(s.crop, rest))))))
  }

  function AdaptiveBits(s: Sps, rest: seq<Bit>): seq<Bit> {
    if s.frameMbsOnly == 0 then Fixed(1, s.adaptive) + rest else rest
  }

  function CropBits(crop: Option<Crop>, rest: seq<Bit>): seq<Bit> {
    match crop
    case None => Fixed(1, 0) + rest
    case Some(c) => Fixed(1, 1) + (Ue(c.left) + (Ue(c.right) + (Ue(c.top) + (Ue(c.bottom) + rest))))
  }

  /** The parameter set as the standard has it. */
  function StandardBits(s: Sps, rest: seq<Bit>): seq<Bit> {
    var after := Ue(s.maxFrameNum) + OrderBits(s.order, FrameBits(s, rest));
    Fixed(8, s.profile) + (Fixed(8, s.flags) + (Fixed(8, s.level) + (Ue(s.id)
    + (if CarriesChroma(s.profile) then ChromaFields(s.chroma, after) else after))))
  }

  /** What the code takes for a parameter set is what the standard writes, but for five profiles. */
  lemma ProfilesRead(s: Sps, rest: seq<Bit>)
    ensures SpsBits(s, rest) == StandardBits(s, rest) <==> s.profile !in {128, 134, 135, 138, 139}
  {
    var after := Ue(s.maxFrameNum) + OrderBits(s.order, FrameBits(s, rest));
    ChromaLength(s.chroma, after);
  }

  lemma ChromaLength(c: Chroma, rest: seq<Bit>)
    ensures |ChromaFields(c, rest)| > |rest|
  {
  }

  // --------------------------------------------------- picture dimensions

  /** Section 7.4.2.1.1: ChromaArrayType, and the units of the cropping offsets. */
  function ChromaArrayType(s: Sps): nat {
    if !CarriesChroma(s.profile) then 1
    else if s.chroma.format == 3 && s.chroma.separate == 1 then 0
    else s.chroma.format
  }

  function CropUnitX(s: Sps): nat {
    if ChromaArrayType(s) == 1 || ChromaArrayType(s) == 2 then 2 else 1
  }

  function CropUnitY(s: Sps): nat {
    (if ChromaArrayType(s) == 1 then 2 else 1) * (2 - s.frameMbsOnly)
  }

  function Cropped(s: Sps): Crop {
    if s.crop.Some? then s.crop.value else Crop(0, 0, 0, 0)
  }

  function StandardWidth(s: Sps): int {
    16 * (s.width + 1) - CropUnitX(s) * (Cropped(s).left + Cropped(s).right)
  }

  function StandardHeight(s: Sps): int {
    16 * (2 - s.frameMbsOnly) * (s.height + 1) - CropUnitY(s) * (Cropped(s).top + Cropped(s).bottom)
  }

  /** The code crops in units of two, and computes in 64-bit words. */
  function ParsedWidth(width: nat, crop: Crop): nat {
    ((width + 1) * 16 - (crop.left + crop.right) * 2) % WORD
  }

  function ParsedHeight(height: nat, frameMbsOnly: Bit, crop: Crop): nat {
    ((2 - frameMbsOnly) * (height + 1) * 16 - (crop.top + crop.bottom) * 2) % WORD
  }

  /** The standard requires that something is left of the picture. */
  predicate LeavesPicture(s: Sps) {
    StandardWidth(s) > 0 && StandardHeight(s) > 0
  }

  /** The parsed width and height are the standard's exactly if nothing is cropped or the cropping unit
      is two; for the height that means frame coding with 4:2:0, or field coding without. */
  lemma DimensionsRight(s: Sps)
    requires U(s.width) && U(s.height) && LeavesPicture(s)
    requires s.crop.Some?
             ==> U(s.crop.value.left) && U(s.crop.value.right) && U(s.crop.value.top) && U(s.crop.value.bottom)
    ensures ParsedWidth(s.width, Cropped(s)) == StandardWidth(s)
            <==> CropUnitX(s) == 2 || Cropped(s).left + Cropped(s).right == 0
    ensures ParsedHeight(s.height, s.frameMbsOnly, Cropped(s)) == StandardHeight(s)
            <==> CropUnitY(s) == 2 || Cropped(s).top + Cropped(s).bottom == 0
  {
    var c := Cropped(s);
    WordDifference((s.width + 1) * 16, c.left + c.right, CropUnitX(s));
    HeightRight(s.height, s.frameMbsOnly, c, CropUnitY(s));
  }

  lemma HeightRight(height: nat, frameMbsOnly: Bit, c: Crop, unit: nat)
    requires U(height) && U(c.top) && U(c.bottom) && 1 <= unit <= 4
    requires 16 * (2 - frameMbsOnly) * (height + 1) - unit * (c.top + c.bottom) > 0
    ensures ParsedHeight(height, frameMbsOnly, c) == 16 * (2 - frameMbsOnly) * (height + 1) - unit * (c.top + c.bottom)
            <==> unit == 2 || c.top + c.bottom == 0
  {
    if frameMbsOnly == 1 {
      WordDifference((height + 1) * 16, c.top + c.bottom, unit);
    } else {
      WordDifference((height + 1) * 32, c.top + c.bottom, unit);
    }
  }

  lemma WordDifference(size: int, n: nat, unit: nat)
    requires 0 < size < 0x100_0000_0000 && n < 0x2_0000_0000 && 1 <= unit <= 4 && size - unit * n > 0
    ensures (size - n * 2) % WORD == size - unit * n <==> unit == 2 || n == 0
  {
    var d := size - n * 2;
    assert unit == 1 || unit == 2 || unit == 3 || unit == 4;
    assert d >= 0 ==> d % WORD == d;
    assert d < 0 ==> d % WORD == d + WORD;
  }

  // ------------------------------------------------------------- parsing

  method SkipSe(r: Reader, ghost v: int, ghost rest: seq<Bit>)
    requires r.Valid() && S(v)
    modifies r
    ensures r.Valid()
    ensures old(Ahead(r, Se(v) + rest)) ==> Ahead(r, rest)
  {
    var _ := ReadUe(r, if v > 0 then 2 * v - 1 else -2 * v, rest);
  }

  /** The scaling matrix's flags; a list that is present is not skipped. */
  method SkipLists(r: Reader, n: nat, ghost rest: seq<Bit>)
    requires r.Valid()
    modifies r
    ensures r.Valid()
    ensures old(Ahead(r, Zeros(n) + rest)) ==> Ahead(r, rest)
  {
    var i := 0;
    assert Zeros(0) + rest == rest;
    while i < n
      invariant i <= n && r.Valid()
      invariant old(Ahead(r, Zeros(n) + rest)) ==> Ahead(r, Zeros(n - i) + rest)
    {
      assert Fixed(1, 0) == [] + [0];
      assert Zeros(n - i) + rest == Fixed(1, 0) + (Zeros(n - i - 1) + rest);
      var _ := ReadField(r, 1, 0, Zeros(n - i - 1) + rest);
      i := i + 1;
    }
    assert Zeros(n - i) + rest == rest;
  }

  method SkipOffsets(r: Reader, n: nat, ghost vs: seq<int>, ghost rest: seq<Bit>)
    requires r.Valid() && forall i | 0 <= i < |vs| :: S(vs[i])
    modifies r
    ensures r.Valid()
    ensures n == |vs| && old(Ahead(r, SeBits(vs, rest))) ==> Ahead(r, rest)
  {
    var i := 0;
    ghost var left := vs;
    while i < n
      invariant i <= n && r.Valid() && (forall j | 0 <= j < |left| :: S(left[j]))
      invariant n == |vs| ==> |left| == n - i
      invariant n == |vs| && old(Ahead(r, SeBits(vs, rest))) ==> Ahead(r, SeBits(left, rest))
    {
      ghost var v := if left == [] then 0 else left[0];
      left := if left == [] then [] else left[1..];
      SkipSe(r, v, SeBits(left, rest));
      i := i + 1;
    }
  }

  method SkipChroma(r: Reader, profile: nat, ghost c: Chroma, ghost rest: seq<Bit>)
    requires r.Valid() && c.format < 4 && U(c.luma) && U(c.chroma)
    modifies r
    ensures r.Valid()
    ensures old(Ahead(r, ChromaBits(profile, c, rest))) ==> Ahead(r, rest)
  {
    if High(profile) {
      ghost var after := Fixed(1, c.matrix) + MatrixBits(c, rest);
      ghost var depths := Ue(c.luma) + (Ue(c.chroma) + (Fixed(1, c.bypass) + after));
      var format := ReadUe(r, c.format, PlaneBits(c, depths));
      if format == 3 {
        var _ := ReadField(r, 1, c.separate, depths);
      }
      var luma := ReadUe(r, c.luma, Ue(c.chroma) + (Fixed(1, c.bypass) + after));
      var chroma := ReadUe(r, c.chroma, Fixed(1, c.bypass) + after);
      var bypass := ReadField(r, 1, c.bypass, after);
      var matrix := ReadField(r, 1, c.matrix, MatrixBits(c, rest));
      if matrix != 0 {
        SkipLists(r, if format != 3 then 8 else 12, rest);
      }
    }
  }

  method SkipOrder(r: Reader, ghost o: Order, ghost rest: seq<Bit>)
    requires r.Valid()
    requires o.Type0? ==> U(o.maxLsb)
    requires o.Type1? ==> S(o.nonRef) && S(o.topToBottom) && U(|o.refs|) && forall i | 0 <= i < |o.refs| :: S(o.refs[i])
    modifies r
    ensures r.Valid()
    ensures old(Ahead(r, OrderBits(o, rest))) ==> Ahead(r, rest)
  {
    ghost var kind := if o.Type0? then 0 else if o.Type1? then 1 else 2;
    ghost var refs := if o.Type1? then o.refs else [];
    ghost var all := Ue(|refs|) + SeBits(refs, rest);
    ghost var one := if o.Type1? then Fixed(1, o.alwaysZero) + (Se(o.nonRef) + (Se(o.topToBottom) + all)) else [];
    ghost var after := match o case Type0(m) => Ue(m) + rest case Type1(_, _, _, _) => one case Type2 => rest;
    assert OrderBits(o, rest) == Ue(kind) + after;
    var t := ReadUe(r, kind, after);
    if t == 0 {
      var _ := ReadUe(r, if o.Type0? then o.maxLsb else 0, rest);
    } else if t == 1 {
      ghost var nonRef, topToBottom := if o.Type1? then o.nonRef else 0, if o.Type1? then o.topToBottom else 0;
      var _ := ReadField(r, 1, if o.Type1? then o.alwaysZero else 0, Se(nonRef) + (Se(topToBottom) + all));
      SkipSe(r, nonRef, Se(topToBottom) + all);
      SkipSe(r, topToBottom, all);
      var n := ReadUe(r, |refs|, SeBits(refs, rest));
      SkipOffsets(r, n, refs, rest);
    }
  }

  class CodecCtx {
    var avcProfile: nat
    var avcCompat: nat
    var avcLevel: nat
    var avcNalBytes: nat
    var avcRefFrames: nat
    var width: nat
    var height: nat

    constructor () {
    }

    /** From the number of reference frames to the cropping offsets. */
    method ParseFrame(r: Reader, ghost s: Sps, ghost rest: seq<Bit>)
      requires r.Valid() && U(s.refFrames) && U(s.width) && U(s.height)
      requires s.crop.Some?
               ==> U(s.crop.value.left) && U(s.crop.value.right) && U(s.crop.value.top) && U(s.crop.value.bottom)
      modifies r, this`avcRefFrames, this`width, this`height
      ensures r.Valid()
      ensures old(Ahead(r, FrameBits(s, rest))) ==>
                && avcRefFrames == s.refFrames
                && width == ParsedWidth(s.width, Cropped(s))
                && height == ParsedHeight(s.height, s.frameMbsOnly, Cropped(s))
    {
      ghost var crop := CropBits(s.crop, rest);
      ghost var direct := Fixed(1, s.direct8x8) + crop;
      ghost var flag := Fixed(1, s.frameMbsOnly) + AdaptiveBits(s, direct);
      avcRefFrames := ReadUe(r, s.refFrames, Fixed(1, s.gaps) + (Ue(s.width) + (Ue(s.height) + flag)));
      var gaps := ReadField(r, 1, s.gaps, Ue(s.width) + (Ue(s.height) + flag));
      var w := ReadUe(r, s.width, Ue(s.height) + flag);
      var h := ReadUe(r, s.height, flag);
      var only := ParseFlags(r, s, crop);
      var c := ParseCrop(r, s.crop, rest);
      width := ParsedWidth(w, c);
      height := ParsedHeight(h, only, c);
    }

    method ParseFlags(r: Reader, ghost s: Sps, ghost rest: seq<Bit>) returns (only: Bit)
      requires r.Valid()
      modifies r
      ensures r.Valid()
      ensures old(Ahead(r, Fixed(1, s.frameMbsOnly) + AdaptiveBits(s, Fixed(1, s.direct8x8) + rest))) ==>
                only == s.frameMbsOnly && Ahead(r, rest)
    {
      ghost var direct := Fixed(1, s.direct8x8) + rest;
      only := ReadBit(r, s.frameMbsOnly, AdaptiveBits(s, direct));
      if only == 0 {
        var _ := ReadField(r, 1, s.adaptive, direct);
      }
      var direct8x8 := ReadField(r, 1, s.direct8x8, rest);
    }

    method ParseCrop(r: Reader, ghost crop: Option<Crop>, ghost rest: seq<Bit>) returns (c: Crop)
      requires r.Valid()
      requires crop.Some? ==> U(crop.value.left) && U(crop.value.right) && U(crop.value.top) && U(crop.value.bottom)
      modifies r
      ensures r.Valid()
      ensures old(Ahead(r, CropBits(crop, rest))) ==>
                c == (if crop.Some? then crop.value else Crop(0, 0, 0, 0)) && Ahead(r, rest)
    {
      ghost var e := if crop.Some? then crop.value else Crop(0, 0, 0, 0);
      ghost var b3 := Ue(e.bottom) + rest;
      ghost var b2 := Ue(e.top) + b3;
      ghost var b1 := Ue(e.right) + b2;
      ghost var flag := if crop.Some? then 1 else 0;
      ghost var after := if crop.Some? then Ue(e.left) + b1 else rest;
      assert CropBits(crop, rest) == Fixed(1, flag) + after;
      var cropping := ReadField(r, 1, flag, after);
      c := Crop(0, 0, 0, 0);
      if cropping != 0 {
        var left := ReadUe(r, e.left, b1);
        var right := ReadUe(r, e.right, b2);
        var top := ReadUe(r, e.top, b3);
        var bottom := ReadUe(r, e.bottom, rest);
        c := Crop(left, right, top, bottom);
      }
    }

    /** The parameter set. */
    method ParseSps(r: Reader, ghost c: Config, ghost rest: seq<Bit>)
      requires r.Valid() && WellFormed(c)
      modifies r, this`avcRefFrames, this`width, this`height
      ensures r.Valid()
      ensures var s := c.sps;
              old(Ahead(r, SpsBits(s, rest))) ==>
                && avcRefFrames == s.refFrames
                && width == ParsedWidth(s.width, Cropped(s))
                && height == ParsedHeight(s.height, s.frameMbsOnly, Cropped(s))
    {
      ghost var s := c.sps;
      ghost var order := OrderBits(s.order, FrameBits(s, rest));
      ghost var chroma := ChromaBits(s.profile, s.chroma, Ue(s.maxFrameNum) + order);
      Bytes8(s.profile);
      Bytes8(s.flags);
      Bytes8(s.level);
      var profile := ReadField(r, 8, s.profile, Fixed(8, s.flags) + (Fixed(8, s.level) + (Ue(s.id) + chroma)));
      var flags := ReadField(r, 8, s.flags, Fixed(8, s.level) + (Ue(s.id) + chroma));
      var level := ReadField(r, 8, s.level, Ue(s.id) + chroma);
      var id := ReadUe(r, s.id, chroma);
      SkipChroma(r, profile, s.chroma, Ue(s.maxFrameNum) + order);
      var maxFrameNum := ReadUe(r, s.maxFrameNum, order);
      SkipOrder(r, s.order, FrameBits(s, rest));
      ParseFrame(r, s, rest);
    }

    /** ngx_rtmp_codec_parse_avc_header, on any bytes; what is promised holds for every configuration
        that stands at their beginning. */
    method ParseAvcHeader(data: seq<Byte>, ghost c: Config, ghost rest: seq<Bit>)
      requires WellFormed(c)
      modifies this
      ensures var s := c.sps;
              Holds(BitsOf(data), 0, ConfigBits(c, rest)) ==>
                && avcProfile == c.profile && avcCompat == c.compat && avcLevel == c.level
                && avcNalBytes == c.lengths % 4 + 1
                && (if c.count % 32 == 0 || c.nalHeader != 0x67 then
                      avcRefFrames == old(avcRefFrames) && width == old(width) && height == old(height)
                    else
                      && avcRefFrames == s.refFrames
                      && width == ParsedWidth(s.width, Cropped(s))
                      && height == ParsedHeight(s.height, s.frameMbsOnly, Cropped(s)))
    {
      var r := new Reader(data);
      ghost var sps := SpsBits(c.sps, rest);
      ghost var nal := Fixed(16, c.size) + (Fixed(8, c.nalHeader) + sps);
      var count := ParseRecord(r, c, nal);
      if count % 32 != 0 {
        ParseNal(r, c, rest);
      }
    }

    /** The first unit, if it is a parameter set. */
    method ParseNal(r: Reader, ghost c: Config, ghost rest: seq<Bit>)
      requires r.Valid() && WellFormed(c)
      modifies r, this`avcRefFrames, this`width, this`height
      ensures r.Valid()
      ensures var s := c.sps;
              old(Ahead(r, Fixed(16, c.size) + (Fixed(8, c.nalHeader) + SpsBits(s, rest)))) ==>
                if c.nalHeader != 0x67 then
                  avcRefFrames == old(avcRefFrames) && width == old(width) && height == old(height)
                else
                  && avcRefFrames == s.refFrames
                  && width == ParsedWidth(s.width, Cropped(s))
                  && height == ParsedHeight(s.height, s.frameMbsOnly, Cropped(s))
    {
      ghost var sps := SpsBits(c.sps, rest);
      Bytes8(c.nalHeader);
      Wide();
      var size := ReadField(r, 16, c.size, Fixed(8, c.nalHeader) + sps);
      var nalHeader := ReadField(r, 8, c.nalHeader, sps);
      if nalHeader != 0x67 {
        return;
      }
      ParseSps(r, c, rest);
    }

    method ParseRecord(r: Reader, ghost c: Config, ghost rest: seq<Bit>) returns (count: nat)
      requires r.Valid() && WellFormed(c)
      modifies r, this`avcProfile, this`avcCompat, this`avcLevel, this`avcNalBytes
      ensures r.Valid()
      ensures old(Ahead(r, Fixed(48, c.prefix) + (Fixed(8, c.profile) + (Fixed(8, c.compat) + (Fixed(8, c.level)
                       + (Fixed(8, c.lengths) + (Fixed(8, c.count) + rest))))))) ==>
                && avcProfile == c.profile && avcCompat == c.compat && avcLevel == c.level
                && avcNalBytes == c.lengths % 4 + 1
                && count == c.count && Ahead(r, rest)
    {
      Wide();
      Bytes8(c.profile);
      Bytes8(c.compat);
      Bytes8(c.level);
      Bytes8(c.lengths);
      Bytes8(c.count);
      ghost var b4 := Fixed(8, c.count) + rest;
      ghost var b3 := Fixed(8, c.lengths) + b4;
      ghost var b2 := Fixed(8, c.level) + b3;
      ghost var b1 := Fixed(8, c.compat) + b2;
      var prefix := ReadField(r, 48, c.prefix, Fixed(8, c.profile) + b1);
      avcProfile := ReadField(r, 8, c.profile, b1);
      avcCompat := ReadField(r, 8, c.compat, b2);
      avcLevel := ReadField(r, 8, c.level, b3);
      var lengths := ReadField(r, 8, c.lengths, b4);
      avcNalBytes := lengths % 4 + 1;
      count := ReadField(r, 8, c.count, rest);
    }
  }
}
