/** The schema-driven reader (ngx_rtmp_amf_read and its helpers): first on the bytes as one sequence,
    then in place over a chain of buffers. */
module AmfReader {
  import opened Amf
  import opened Bytes
  import opened Wrappers

  /** NGX_ERROR; the next element; or an early NGX_OK that leaves the rest of the elements unread. The
      value is the element or elements as filled. */
  datatype Result<+T> = Fail | Next(pos: nat, value: T) | Stop(pos: nat, value: T)

  /** ngx_rtmp_amf_get on the whole input. */
  predicate Has(bs: seq<Byte>, pos: nat, n: nat) {
    pos + n <= |bs|
  }

  /** The switch on the type, for an element with destination `dest` and buffer size `len`. */
  function ReadBody(bs: seq<Byte>, pos: nat, kind: Kind, dest: Dest, len: nat): (r: Result<Dest>)
    requires pos <= |bs|
    ensures r != Fail ==> pos <= r.pos <= |bs|
    decreases |bs| - pos, 2, 0
  {
    match kind
    case Int8 => ReadScalar(bs, pos, dest, 1)
    case Int16 => ReadScalar(bs, pos, dest, 2)
    case Int32 => ReadScalar(bs, pos, dest, 4)
    case Variant => ReadVariant(bs, pos, dest)
    case Plain(marker) =>
      if marker == NUMBER then ReadScalar(bs, pos, dest, 8)
      else if marker == BOOLEAN then ReadScalar(bs, pos, dest, 1)
      else if marker == STRING then ReadString(bs, pos, dest, len)
      else if marker == NULL || marker == ARRAY_NULL then Next(pos, dest)
      else if marker == MIXED_ARRAY then
        if Has(bs, pos, 4) then ReadInto(ReadObject(bs, pos + 4, Nested(dest)), dest) else Fail
      else if marker == OBJECT then ReadInto(ReadObject(bs, pos, Nested(dest)), dest)
      else if marker == ARRAY then
        if Has(bs, pos, 4) then
          ReadInto(ReadItems(bs, pos + 4, Nested(dest), 0, FromU32(bs[pos..pos + 4])), dest)
        else Fail
      else if marker == END then Stop(pos, dest)
      else Fail
  }

  function ReadInto(r: Result<seq<Slot>>, dest: Dest): Result<Dest> {
    match r
    case Fail => Fail
    case Next(pos, slots) => Next(pos, WithNested(dest, slots))
    case Stop(pos, slots) => Next(pos, WithNested(dest, slots))
  }

  /** `n` bytes, reversed into the destination (one byte is its own reverse). */
  function ReadScalar(bs: seq<Byte>, pos: nat, dest: Dest, n: nat): Result<Dest>
    requires pos <= |bs|
  {
    if Has(bs, pos, n) then Next(pos + n, Stored(dest, Reverse(bs[pos..pos + n]))) else Fail
  }

  /** A string is cut to the buffer and ended by a NUL. A buffer of no bytes asks for the impossible. */
  function ReadString(bs: seq<Byte>, pos: nat, dest: Dest, len: nat): Result<Dest>
    requires pos <= |bs|
  {
    if !Has(bs, pos, 2) then Fail
    else
      var n := FromU16(bs[pos..pos + 2]);
      if !Has(bs, pos + 2, n) then Fail
      else
        var text := bs[pos + 2..pos + 2 + n];
        if !dest.Cell? then Next(pos + 2 + n, dest)
        else if len == 0 then Fail
        else Next(pos + 2 + n, Stored(dest, Cut(text, len)))
  }

  function Cut(text: seq<Byte>, len: nat): seq<Byte>
    requires len > 0
  {
    (if len <= |text| then text[..len - 1] else text) + [0]
  }

  /** As much of the text as fits in front of the NUL. */
  lemma CutFits(text: seq<Byte>, len: nat)
    requires len > 0
    ensures var buf := Cut(text, len);
            && |buf| == (if |text| < len then |text| + 1 else len)
            && buf[|buf| - 1] == 0 && buf[..|buf| - 1] <= text
  {
  }

  /** Keys and values up to an empty key and END. Input that ends before a key is accepted. */
  function ReadObject(bs: seq<Byte>, pos: nat, slots: seq<Slot>): (r: Result<seq<Slot>>)
    requires pos <= |bs|
    ensures r != Fail ==> pos <= r.pos <= |bs| && |r.value| == |slots|
    decreases |bs| - pos, 1, 0
  {
    if !Has(bs, pos, 2) then Next(pos, slots)
    else
      var n := FromU16(bs[pos..pos + 2]);
      if n == 0 then
        if Has(bs, pos + 2, 1) && bs[pos + 2] == END then Next(pos + 3, slots) else Fail
      else if !Has(bs, pos + 2, n) then Fail
      else
        var k := FindKey(slots, bs[pos + 2..pos + 2 + n]);
        var r := ReadAt(bs, pos + 2 + n, slots, k);
        if r == Fail then Fail else ReadObject(bs, r.pos, r.value)
  }

  /** One turn of the loop over the fields. */
  lemma ObjectTurn(bs: seq<Byte>, pos: nat, slots: seq<Slot>, n: nat, k: nat, r: Result<seq<Slot>>)
    requires pos <= |bs| && Has(bs, pos, 2) && n == FromU16(bs[pos..pos + 2]) && n != 0 && Has(bs, pos + 2, n)
    requires k == FindKey(slots, bs[pos + 2..pos + 2 + n]) && r == ReadAt(bs, pos + 2 + n, slots, k)
    ensures ReadObject(bs, pos, slots) == if r == Fail then Fail else ReadObject(bs, r.pos, r.value)
  {
  }

  function ReadItems(bs: seq<Byte>, pos: nat, slots: seq<Slot>, i: nat, count: nat): (r: Result<seq<Slot>>)
    requires pos <= |bs| && i <= count
    ensures r != Fail ==> pos <= r.pos <= |bs| && |r.value| == |slots|
    decreases |bs| - pos, 5, count - i
  {
    if i == count then Next(pos, slots)
    else
      var r := ReadAt(bs, pos, slots, i);
      if r == Fail then Fail else ReadItems(bs, r.pos, r.value, i + 1, count)
  }

  /** One value for element `k`, or for no element when there is none of that index. */
  function ReadAt(bs: seq<Byte>, pos: nat, slots: seq<Slot>, k: nat): (r: Result<seq<Slot>>)
    requires pos <= |bs|
    ensures r != Fail ==> pos <= r.pos <= |bs| && |r.value| == |slots|
    decreases |bs| - pos, 4, 0
  {
    if k < |slots| then
      match ReadOne(bs, pos, Some(slots[k]))
      case Fail => Fail
      case Next(p, dest) => Next(p, slots[k := slots[k].(dest := dest)])
      case Stop(p, dest) => Stop(p, slots[k := slots[k].(dest := dest)])
    else
      match ReadOne(bs, pos, None)
      case Fail => Fail
      case Next(p, _) => Next(p, slots)
      case Stop(p, _) => Stop(p, slots)
  }

  /** One turn of the loop of ngx_rtmp_amf_read: the type, then the switch. Another flag beside TYPELESS stays
      in the type, which no case of the switch knows. */
  function ReadOne(bs: seq<Byte>, pos: nat, slot: Option<Slot>): (r: Result<Dest>)
    requires pos <= |bs|
    ensures r != Fail ==> pos <= r.pos <= |bs|
    decreases |bs| - pos, 3, 0
  {
    if slot.Some? && slot.value.typeless then
      if slot.value.optional || slot.value.context then Fail
      else ReadBody(bs, pos, slot.value.kind, slot.value.dest, slot.value.len)
    else if !Has(bs, pos, 1) then
      if slot.Some? && slot.value.optional then Stop(pos, slot.value.dest) else Fail
    else
      var marker := bs[pos];
      if slot.None? then ReadBody(bs, pos + 1, Plain(marker), NoDest, 0)
      else if !Compatible(slot.value.kind, marker) then
        Kept(ReadBody(bs, pos + 1, Plain(marker), NoDest, 0), slot.value.dest)
      else if slot.value.context then
        Kept(ReadBody(bs, pos + 1, Plain(marker), NoDest, 0), Saved(slot.value.dest, pos + 1))
      else ReadBody(bs, pos + 1, Plain(marker), slot.value.dest, slot.value.len)
  }

  function Kept(r: Result<Dest>, dest: Dest): Result<Dest> {
    match r
    case Fail => Fail
    case Next(pos, _) => Next(pos, dest)
    case Stop(pos, _) => Stop(pos, dest)
  }

  function Saved(dest: Dest, pos: nat): Dest {
    if dest == NoDest then NoDest else Cell(Some(Position(pos)))
  }

  /** The alternatives of a variant are chosen by the marker that is read. */
  function ReadVariant(bs: seq<Byte>, pos: nat, dest: Dest): (r: Result<Dest>)
    requires pos <= |bs|
    ensures r != Fail ==> pos <= r.pos <= |bs|
    decreases |bs| - pos, 1, 0
  {
    if !Has(bs, pos, 1) then Fail
    else
      var marker, slots := bs[pos], Nested(dest);
      var k := FindAlternative(slots, marker);
      if k < |slots| then
        match ReadBody(bs, pos + 1, Plain(marker), slots[k].dest, slots[k].len)
        case Fail => Fail
        case Next(p, d) => Next(p, WithNested(dest, slots[k := slots[k].(dest := d)]))
        case Stop(p, d) => Next(p, WithNested(dest, slots[k := slots[k].(dest := d)]))
      else
        match ReadBody(bs, pos + 1, Plain(marker), NoDest, 0)
        case Fail => Fail
        case Next(p, _) => Next(p, dest)
        case Stop(p, _) => Next(p, dest)
  }

  /** ngx_rtmp_amf_read on a list of elements. */
  function ReadAll(bs: seq<Byte>, pos: nat, slots: seq<Slot>, k: nat): (r: Result<seq<Slot>>)
    requires pos <= |bs| && k <= |slots|
    decreases |slots| - k
  {
    if k == |slots| then Next(pos, slots)
    else
      match ReadAt(bs, pos, slots, k)
      case Fail => Fail
      case Stop(p, filled) => Stop(p, filled)
      case Next(p, filled) => ReadAll(bs, p, filled, k + 1)
  }
}
