/** AMF0 values (Action Message Format AMF 0, sections 2.2 to 2.5, 2.7 and 2.10 to 2.12), their
    encoding, and the destinations a reader fills. */
module Amf {
  import opened Bytes
  import opened Wrappers

  const NUMBER: Byte := 0x00
  const BOOLEAN: Byte := 0x01
  const STRING: Byte := 0x02
  const OBJECT: Byte := 0x03
  const NULL: Byte := 0x05
  const ARRAY_NULL: Byte := 0x06
  const MIXED_ARRAY: Byte := 0x08
  const END: Byte := 0x09
  const ARRAY: Byte := 0x0a

  /** `Number` holds the eight bytes of a double as they lie in memory, lowest first. */
  datatype Value =
    | Number(bytes: seq<Byte>)
    | Boolean(b: Byte)
    | Str(text: seq<Byte>)
    | Null
    | ArrayNull
    | Object(fields: seq<Field>)
    | MixedArray(fields: seq<Field>)
    | StrictArray(items: seq<Value>)

  datatype Field = Field(key: seq<Byte>, value: Value)

  function Marker(v: Value): Byte {
    match v
    case Number(_) => NUMBER
    case Boolean(_) => BOOLEAN
    case Str(_) => STRING
    case Null => NULL
    case ArrayNull => ARRAY_NULL
    case Object(_) => OBJECT
    case MixedArray(_) => MIXED_ARRAY
    case StrictArray(_) => ARRAY
  }

  /** What the writer can express: lengths fit their fields and no key is the empty terminator. */
  predicate WellFormed(v: Value) {
    match v
    case Number(bytes) => |bytes| == 8
    case Str(text) => |text| < 0x1_0000
    case Object(fields) => forall i | 0 <= i < |fields| :: WellFormedField(fields[i])
    case MixedArray(fields) => forall i | 0 <= i < |fields| :: WellFormedField(fields[i])
    case StrictArray(items) => |items| < 0x1_0000_0000 && forall i | 0 <= i < |items| :: WellFormed(items[i])
    case _ => true
  }

  predicate WellFormedField(f: Field) {
    0 < |f.key| < 0x1_0000 && WellFormed(f.value)
  }

  function Encode(v: Value): seq<Byte>
    requires WellFormed(v)
    decreases v, 1
  {
    [Marker(v)] + EncodeBody(v)
  }

  function EncodeBody(v: Value): seq<Byte>
    requires WellFormed(v)
    decreases v, 0
  {
    match v
    case Number(bytes) => Reverse(bytes)
    case Boolean(b) => [b]
    case Str(text) => U16(|text|) + text
    case Null => []
    case ArrayNull => []
    case Object(fields) => EncodeFields(fields) + [0, 0, END]
    case MixedArray(fields) => [0, 0, 0, 0] + (EncodeFields(fields) + [0, 0, END])
    case StrictArray(items) => U32(|items|) + EncodeItems(items)
  }

  function EncodeFields(fields: seq<Field>): seq<Byte>
    requires forall i | 0 <= i < |fields| :: WellFormedField(fields[i])
  {
    if fields == [] then []
    else
      var f := fields[0];
      assert WellFormedField(f);
      U16(|f.key|) + f.key + Encode(f.value) + EncodeFields(fields[1..])
  }

  function EncodeItems(items: seq<Value>): seq<Byte>
    requires forall i | 0 <= i < |items| :: WellFormed(items[i])
  {
    if items == [] then [] else Encode(items[0]) + EncodeItems(items[1..])
  }

  /** The markers and lengths of sections 2.2 to 2.12, byte by byte. */
  lemma Specimen(double: seq<Byte>)
    requires |double| == 8
    ensures Encode(Number(double)) == [0x00] + Reverse(double)
    ensures Encode(Boolean(1)) == [0x01, 1] && Encode(Null) == [0x05] && Encode(ArrayNull) == [0x06]
    ensures Encode(Str([65, 66])) == [0x02, 0, 2, 65, 66]
  {
    assert U16(2) == [0, 2];
  }

  lemma FieldSpecimen(f: Field, fields: seq<Field>)
    requires f == Field([97], Null) && fields == [f]
    ensures WellFormed(Object(fields)) && WellFormed(MixedArray(fields))
    ensures Encode(Object(fields)) == [0x03, 0, 1, 97, 0x05, 0, 0, 0x09]
    ensures Encode(MixedArray(fields)) == [0x08, 0, 0, 0, 0, 0, 1, 97, 0x05, 0, 0, 0x09]
  {
    assert fields[1..] == [] && Encode(Null) == [0x05];
    assert EncodeFields(fields) == U16(1) + [97] + [0x05] + [] == [0, 1, 97, 0x05];
  }

  lemma ArraySpecimen(items: seq<Value>)
    requires items == [Null]
    ensures WellFormed(StrictArray(items)) && Encode(StrictArray(items)) == [0x0a, 0, 0, 0, 1, 0x05]
  {
    assert items[1..] == [] && EncodeItems(items) == [0x05] + [] == [0x05];
    assert U32(1) == [0, 0, 0, 1];
  }

  // ------------------------------------------------------- destinations

  /** ngx_rtmp_amf_elt_t.type without its flags. The extended kinds have no marker of their own. */
  datatype Kind = Plain(marker: Byte) | Int8 | Int16 | Int32 | Variant

  /** What a reader left in a destination: bytes, or the position of a value (CONTEXT). */
  datatype Content = Bytes(bytes: seq<Byte>) | Position(pos: nat)

  /** ngx_rtmp_amf_elt_t.data: NULL, a scalar destination, or nested elements. */
  datatype Dest = NoDest | Cell(content: Option<Content>) | Elts(slots: seq<Slot>)

  /** ngx_rtmp_amf_elt_t. `len` is the size of a string buffer. */
  datatype Slot = Slot(kind: Kind, optional: bool, typeless: bool, context: bool,
                       name: seq<Byte>, dest: Dest, len: nat)

  function Nested(d: Dest): seq<Slot> {
    if d.Elts? then d.slots else []
  }

  function WithNested(d: Dest, slots: seq<Slot>): Dest {
    if d.Elts? then Elts(slots) else d
  }

  function Stored(d: Dest, bytes: seq<Byte>): Dest {
    if d.Cell? then Cell(Some(Bytes(bytes))) else d
  }

  /** elts->type & 0xff: without TYPELESS an extended kind passes for a plain one. */
  function LowByte(k: Kind): Byte {
    match k
    case Plain(marker) => marker
    case Int8 => NUMBER
    case Int16 => BOOLEAN
    case Int32 => STRING
    case Variant => OBJECT
  }

  /** ngx_rtmp_amf_is_compatible_type */
  predicate Compatible(k: Kind, marker: Byte) {
    || LowByte(k) == marker
    || (LowByte(k) == OBJECT && marker == MIXED_ARRAY)
    || (LowByte(k) == MIXED_ARRAY && marker == OBJECT)
  }

  /** Equal lengths, and strncmp finds no difference: it stops at a NUL. */
  predicate KeyMatches(key: seq<Byte>, name: seq<Byte>) {
    |key| == |name| && StrnEqual(key, name)
  }

  predicate StrnEqual(a: seq<Byte>, b: seq<Byte>)
    requires |a| == |b|
  {
    a == [] || (a[0] == b[0] && (a[0] == 0 || StrnEqual(a[1..], b[1..])))
  }

  /** The first element with a matching name, or |slots|. */
  function FindKey(slots: seq<Slot>, key: seq<Byte>): (n: nat)
    ensures n <= |slots|
  {
    if slots == [] || KeyMatches(key, slots[0].name) then 0 else 1 + FindKey(slots[1..], key)
  }

  /** elts->type == type, which no flag survives. */
  predicate IsAlternative(s: Slot, marker: Byte) {
    s.kind == Plain(marker) && !s.typeless && !s.context && !s.optional
  }

  /** The last alternative whose type is exactly the marker, or |slots|. */
  function FindAlternative(slots: seq<Slot>, marker: Byte): (n: nat)
    ensures n <= |slots|
    ensures n < |slots| ==> IsAlternative(slots[n], marker)
    ensures forall i | (if n < |slots| then n + 1 else 0) <= i < |slots| :: !IsAlternative(slots[i], marker)
  {
    if slots == [] then 0
    else
      var last := |slots| - 1;
      if IsAlternative(slots[last], marker) then last
      else
        var n := FindAlternative(slots[..last], marker);
        if n == last then |slots| else n
  }
}
