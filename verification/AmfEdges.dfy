/** The reader beyond whole values: objects cut short between fields, elements that are read without a marker,
    and values that are left for later. */
module AmfEdges {
  import opened Amf
  import opened Bytes
  import opened AmfReader
  import opened AmfBinding
  import opened Wrappers

  lemma {:induction false} FirstFieldText(fields: seq<Field>, f: Field)
    requires fields != [] && (forall i | 0 <= i < |fields| :: WellFormedField(fields[i])) && f == fields[0]
    requires WellFormedField(f)
    ensures EncodeFields(fields) == U16(|f.key|) + (f.key + (Encode(f.value) + EncodeFields(fields[1..])))
  {
  }

  /** Input that ends between the fields of an object, or one byte into a length, is taken for the end of the
      object: the fields before are bound. */
  lemma {:induction false} CutBetweenFields(bs: seq<Byte>, pos: nat, fields: seq<Field>, slots: seq<Slot>)
    requires (forall i | 0 <= i < |fields| :: WellFormedField(fields[i])) && RegularSlots(slots)
    requires At(bs, pos, EncodeFields(fields)) && |bs| <= pos + |EncodeFields(fields)| + 1
    ensures ReadObject(bs, pos, slots) == Next(pos + |EncodeFields(fields)|, BindFields(fields, slots, pos))
    decreases |fields|
  {
    if fields != [] {
      var f, rest := fields[0], EncodeFields(fields[1..]);
      assert WellFormedField(f);
      var p := pos + 2 + |f.key|;
      var p1 := p + |Encode(f.value)|;
      FirstFieldText(fields, f);
      AtSplit(bs, pos, U16(|f.key|), f.key + (Encode(f.value) + rest));
      TwoAt(bs, pos + 2, f.key, Encode(f.value), rest, p, p1);
      var slots1 := FieldBound(fields, f, slots, pos, p, p1);
      FieldRead(bs, pos, f, slots, p, p1, slots1);
      CutBetweenFields(bs, p1, fields[1..], slots1);
    }
  }

  // ----------------------------------------------------- without a marker

  /** The number in bytes as they lie in memory, lowest first. */
  function Host(bytes: seq<Byte>): nat {
    if bytes == [] then 0 else bytes[0] + 0x100 * Host(bytes[1..])
  }

  lemma HostOfTwo(n: nat)
    requires n < 0x1_0000
    ensures |Reverse(U16(n))| == 2 && Host(Reverse(U16(n))) == n
  {
    var s := Reverse(U16(n));
    assert s == [n % 0x100, n / 0x100] && s[1..] == [n / 0x100];
    assert Host(s[1..]) == n / 0x100 + 0x100 * Host([]);
  }

  lemma {:induction false} HostAppend(a: Byte, b: Byte, s: seq<Byte>)
    ensures Host([a, b] + s) == a + 0x100 * b + 0x1_0000 * Host(s)
  {
    assert ([a, b] + s)[1..] == [b] + s && ([b] + s)[1..] == s;
  }

  lemma HostOfFour(n: nat)
    requires n < 0x1_0000_0000
    ensures |Reverse(U32(n))| == 4 && Host(Reverse(U32(n))) == n
  {
    var high, low := U16(n / 0x1_0000), U16(n % 0x1_0000);
    assert Reverse(U32(n)) == [low[1], low[0]] + Reverse(high);
    HostAppend(low[1], low[0], Reverse(high));
    HostOfTwo(n / 0x1_0000);
    U16Inverse(n % 0x1_0000);
  }

  predicate Typeless(s: Slot, kind: Kind) {
    s.typeless && !s.optional && !s.context && s.kind == kind
  }

  /** An integer of one, two or four bytes is read without a marker and stored in the host's order. */
  lemma IntegerRead(bs: seq<Byte>, pos: nat, s: Slot, n: nat, content: Option<Content>)
    requires s.dest == Cell(content) && pos <= |bs|
    ensures Typeless(s, Int8) && n < 0x100 && At(bs, pos, [n]) ==>
              StoresInt(ReadOne(bs, pos, Some(s)), pos, 1, n)
    ensures Typeless(s, Int16) && n < 0x1_0000 && At(bs, pos, U16(n)) ==>
              StoresInt(ReadOne(bs, pos, Some(s)), pos, 2, n)
    ensures Typeless(s, Int32) && n < 0x1_0000_0000 && At(bs, pos, U32(n)) ==>
              StoresInt(ReadOne(bs, pos, Some(s)), pos, 4, n)
  {
    if Typeless(s, Int8) && n < 0x100 && At(bs, pos, [n]) {
      var b: Byte := n;
      assert Reverse([b]) == [b] && [b][1..] == [] && Host([b]) == b;
      ScalarRead(bs, pos, s.dest, [b]);
    }
    if Typeless(s, Int16) && n < 0x1_0000 && At(bs, pos, U16(n)) {
      HostOfTwo(n);
      ScalarRead(bs, pos, s.dest, U16(n));
    }
    if Typeless(s, Int32) && n < 0x1_0000_0000 && At(bs, pos, U32(n)) {
      HostOfFour(n);
      ScalarRead(bs, pos, s.dest, U32(n));
    }
  }

  lemma ScalarRead(bs: seq<Byte>, pos: nat, dest: Dest, bytes: seq<Byte>)
    requires At(bs, pos, bytes)
    ensures ReadScalar(bs, pos, dest, |bytes|) == Next(pos + |bytes|, Stored(dest, Reverse(bytes)))
  {
  }

  /** The reading ends behind `size` bytes that are stored as the number n. */
  predicate StoresInt(r: Result<Dest>, pos: nat, size: nat, n: nat) {
    && r.Next? && r.pos == pos + size && r.value.Cell? && r.value.content.Some? && r.value.content.value.Bytes?
    && |r.value.content.value.bytes| == size && Host(r.value.content.value.bytes) == n
  }

  // ----------------------------------------------------------- for later

  /** An element that asks for the place of its value gets one from which the value can be read without its
      marker; the reading goes on behind the value. */
  lemma PlaceLeadsToBody(bs: seq<Byte>, pos: nat, v: Value, s: Slot, dest: Dest, len: nat) returns (p: nat)
    requires WellFormed(v) && At(bs, pos, Encode(v)) && Regular(s)
    requires !s.typeless && s.context && s.dest != NoDest && Compatible(s.kind, Marker(v))
    requires RegularSlots(Nested(dest)) && (v.Str? && dest.Cell? ==> len > 0)
    ensures ReadOne(bs, pos, Some(s)) == Next(pos + |Encode(v)|, Cell(Some(Position(p))))
    ensures p <= |bs|
    ensures ReadBody(bs, p, Plain(Marker(v)), dest, len) == Next(pos + |Encode(v)|, BindBody(v, dest, len, p))
  {
    ReadOneBinds(bs, pos, v, Some(s));
    MarkerAt(bs, pos, v);
    p := pos + 1;
    ReadBodyBinds(bs, p, v, dest, len);
  }
}
