/** What reading a well-formed value does to a schema, said on values: the reader consumes exactly the
    bytes of the value and fills the schema as `Bind` says. */
module AmfBinding {
  import opened Amf
  import opened Bytes
  import opened AmfReader
  import opened Wrappers

  /** A schema for typed values: no element but a variant skips the marker, and a string buffer holds
      at least its NUL. */
  predicate Regular(s: Slot) {
    && (if s.typeless then s.kind == Variant && !s.optional && !s.context else s.kind.Plain?)
    && (s.kind == Plain(STRING) && !s.context && s.dest.Cell? ==> s.len > 0)
    && (s.dest.Elts? ==> forall i | 0 <= i < |s.dest.slots| :: Regular(s.dest.slots[i]))
  }

  predicate RegularSlots(slots: seq<Slot>) {
    forall i | 0 <= i < |slots| :: Regular(slots[i])
  }

  // --------------------------------------------------------------- binding

  /** The destination of one element after the value at `pos`. */
  function BindOne(slot: Option<Slot>, v: Value, pos: nat): Dest
    requires WellFormed(v)
    decreases v, 3
  {
    if slot.None? then NoDest
    else
      var s := slot.value;
      if s.typeless then BindVariant(s.dest, v, pos)
      else if !Compatible(s.kind, Marker(v)) then s.dest
      else if s.context then Saved(s.dest, pos + 1)
      else BindBody(v, s.dest, s.len, pos + 1)
  }

  /** A value that was accepted for a destination: scalars are stored, nested elements bound one by one. */
  function BindBody(v: Value, dest: Dest, len: nat, pos: nat): Dest
    requires WellFormed(v)
    decreases v, 1
  {
    match v
    case Number(bytes) => Stored(dest, bytes)
    case Boolean(b) => Stored(dest, [b])
    case Str(text) => if dest.Cell? && len > 0 then Stored(dest, Cut(text, len)) else dest
    case Null => dest
    case ArrayNull => dest
    case Object(fields) => WithNested(dest, BindFields(fields, Nested(dest), pos))
    case MixedArray(fields) => WithNested(dest, BindFields(fields, Nested(dest), pos + 4))
    case StrictArray(items) => WithNested(dest, BindItems(items, Nested(dest), 0, pos + 4))
  }

  function BindVariant(dest: Dest, v: Value, pos: nat): Dest
    requires WellFormed(v)
    decreases v, 2
  {
    var slots := Nested(dest);
    var k := FindAlternative(slots, Marker(v));
    if k < |slots| then
      WithNested(dest, slots[k := slots[k].(dest := BindBody(v, slots[k].dest, slots[k].len, pos + 1))])
    else dest
  }

  function BindAt(slots: seq<Slot>, k: nat, v: Value, pos: nat): (r: seq<Slot>)
    requires WellFormed(v)
    ensures |r| == |slots|
    decreases v, 4
  {
    if k < |slots| then slots[k := slots[k].(dest := BindOne(Some(slots[k]), v, pos))] else slots
  }

  /** Fields in the order of the value: each goes to the first element of its name, if there is one. */
  function BindFields(fields: seq<Field>, slots: seq<Slot>, pos: nat): (r: seq<Slot>)
    requires forall i | 0 <= i < |fields| :: WellFormedField(fields[i])
    ensures |r| == |slots|
    decreases fields
  {
    if fields == [] then slots
    else
      var f := fields[0];
      assert WellFormedField(f);
      var p := pos + 2 + |f.key|;
      BindFields(fields[1..], BindAt(slots, FindKey(slots, f.key), f.value, p), p + |Encode(f.value)|)
  }

  function BindItems(items: seq<Value>, slots: seq<Slot>, k: nat, pos: nat): (r: seq<Slot>)
    requires forall i | 0 <= i < |items| :: WellFormed(items[i])
    ensures |r| == |slots|
    decreases items
  {
    if items == [] then slots
    else BindItems(items[1..], BindAt(slots, k, items[0], pos), k + 1, pos + |Encode(items[0])|)
  }

  // ------------------------------------------------- regular stays regular

  lemma {:induction false} BindOneRegular(s: Slot, v: Value, pos: nat)
    requires WellFormed(v) && Regular(s)
    ensures Regular(s.(dest := BindOne(Some(s), v, pos)))
    decreases v, 2
  {
    if s.typeless {
      var slots := Nested(s.dest);
      var k := FindAlternative(slots, Marker(v));
      if k < |slots| {
        BindBodyRegular(slots[k], v, pos + 1);
      }
    } else if Compatible(s.kind, Marker(v)) && !s.context {
      BindBodyRegular(s, v, pos + 1);
    }
  }

  lemma {:induction false} BindBodyRegular(s: Slot, v: Value, pos: nat)
    requires WellFormed(v) && Regular(s)
    ensures Regular(s.(dest := BindBody(v, s.dest, s.len, pos)))
    decreases v, 1
  {
    match v
    case Object(fields) => BindFieldsRegular(fields, Nested(s.dest), pos);
    case MixedArray(fields) => BindFieldsRegular(fields, Nested(s.dest), pos + 4);
    case StrictArray(items) => BindItemsRegular(items, Nested(s.dest), 0, pos + 4);
    case _ =>
  }

  lemma {:induction false} BindAtRegular(slots: seq<Slot>, k: nat, v: Value, pos: nat)
    requires WellFormed(v) && RegularSlots(slots)
    ensures RegularSlots(BindAt(slots, k, v, pos))
    decreases v, 3
  {
    if k < |slots| {
      BindOneRegular(slots[k], v, pos);
    }
  }

  lemma {:induction false} BindFieldsRegular(fields: seq<Field>, slots: seq<Slot>, pos: nat)
    requires forall i | 0 <= i < |fields| :: WellFormedField(fields[i])
    requires RegularSlots(slots)
    ensures RegularSlots(BindFields(fields, slots, pos))
    decreases fields
  {
    if fields != [] {
      var f := fields[0];
      assert WellFormedField(f);
      var p, k := pos + 2 + |f.key|, FindKey(slots, f.key);
      BindAtRegular(slots, k, f.value, p);
      BindFieldsRegular(fields[1..], BindAt(slots, k, f.value, p), p + |Encode(f.value)|);
    }
  }

  lemma {:induction false} BindItemsRegular(items: seq<Value>, slots: seq<Slot>, k: nat, pos: nat)
    requires forall i | 0 <= i < |items| :: WellFormed(items[i])
    requires RegularSlots(slots)
    ensures RegularSlots(BindItems(items, slots, k, pos))
    decreases items
  {
    if items != [] {
      BindAtRegular(slots, k, items[0], pos);
      BindItemsRegular(items[1..], BindAt(slots, k, items[0], pos), k + 1, pos + |Encode(items[0])|);
    }
  }

  // ------------------------------------------------------------ reading

  /** `s` stands in `bs` at `pos`. */
  predicate At(bs: seq<Byte>, pos: nat, s: seq<Byte>) {
    pos + |s| <= |bs| && bs[pos..pos + |s|] == s
  }

  lemma {:induction false} AtSplit(bs: seq<Byte>, pos: nat, a: seq<Byte>, b: seq<Byte>)
    requires At(bs, pos, a + b)
    ensures At(bs, pos, a) && At(bs, pos + |a|, b)
  {
    var s := bs[pos..pos + |a + b|];
    assert bs[pos..pos + |a|] == s[..|a|] == a;
    assert bs[pos + |a|..pos + |a| + |b|] == s[|a|..] == b;
  }

  lemma ReverseTwice(s: seq<Byte>)
    ensures Reverse(Reverse(s)) == s
  {
  }

  /** Reading the value at `pos` takes exactly its bytes and binds it. */
  lemma {:induction false} ReadOneBinds(bs: seq<Byte>, pos: nat, v: Value, slot: Option<Slot>)
    requires WellFormed(v) && At(bs, pos, Encode(v)) && (slot.Some? ==> Regular(slot.value))
    ensures ReadOne(bs, pos, slot) == Next(pos + |Encode(v)|, BindOne(slot, v, pos))
    decreases v, 2
  {
    MarkerAt(bs, pos, v);
    if slot.Some? && slot.value.typeless {
      ReadVariantBinds(bs, pos, v, slot.value.dest);
      assert ReadBody(bs, pos, Variant, slot.value.dest, slot.value.len) == ReadVariant(bs, pos, slot.value.dest);
    } else if slot.Some? && Compatible(slot.value.kind, Marker(v)) && !slot.value.context {
      ReadBodyBinds(bs, pos + 1, v, slot.value.dest, slot.value.len);
    } else {
      ReadBodyBinds(bs, pos + 1, v, NoDest, 0);
    }
  }

  lemma {:induction false} MarkerAt(bs: seq<Byte>, pos: nat, v: Value)
    requires WellFormed(v) && At(bs, pos, Encode(v))
    ensures pos < |bs| && bs[pos] == Marker(v) && At(bs, pos + 1, EncodeBody(v))
  {
    AtSplit(bs, pos, [Marker(v)], EncodeBody(v));
    assert bs[pos] == bs[pos..pos + 1][0];
  }

  /** The element a variant hands its value to, and the variant with that element filled. */
  function Chosen(dest: Dest, marker: Byte): Slot {
    var k := FindAlternative(Nested(dest), marker);
    if k < |Nested(dest)| then Nested(dest)[k] else Slot(Plain(marker), false, false, false, [], NoDest, 0)
  }

  function WithChosen(dest: Dest, marker: Byte, d: Dest): Dest {
    var k, slots := FindAlternative(Nested(dest), marker), Nested(dest);
    if k < |slots| then WithNested(dest, slots[k := slots[k].(dest := d)]) else dest
  }

  lemma {:induction false} VariantDelegates(bs: seq<Byte>, pos: nat, dest: Dest, p: nat, d: Dest)
    requires pos < |bs|
    requires var c := Chosen(dest, bs[pos]); ReadBody(bs, pos + 1, Plain(bs[pos]), c.dest, c.len) == Next(p, d)
    ensures ReadVariant(bs, pos, dest) == Next(p, WithChosen(dest, bs[pos], d))
  {
  }

  lemma {:induction false} ReadVariantBinds(bs: seq<Byte>, pos: nat, v: Value, dest: Dest)
    requires WellFormed(v) && At(bs, pos, Encode(v)) && RegularSlots(Nested(dest))
    ensures ReadVariant(bs, pos, dest) == Next(pos + |Encode(v)|, BindVariant(dest, v, pos))
    decreases v, 1, 1
  {
    MarkerAt(bs, pos, v);
    var c, p := Chosen(dest, Marker(v)), pos + |Encode(v)|;
    assert Regular(c);
    ReadBodyBinds(bs, pos + 1, v, c.dest, c.len);
    VariantDelegates(bs, pos, dest, p, BindBody(v, c.dest, c.len, pos + 1));
  }

  lemma {:induction false} ReadNumberBinds(bs: seq<Byte>, pos: nat, bytes: seq<Byte>, dest: Dest)
    requires |bytes| == 8 && At(bs, pos, Reverse(bytes))
    ensures ReadScalar(bs, pos, dest, 8) == Next(pos + 8, Stored(dest, bytes))
  {
    ReverseTwice(bytes);
  }

  lemma {:induction false} ReadBooleanBinds(bs: seq<Byte>, pos: nat, b: Byte, dest: Dest)
    requires At(bs, pos, [b])
    ensures ReadScalar(bs, pos, dest, 1) == Next(pos + 1, Stored(dest, [b]))
  {
    assert bs[pos..pos + 1] == [b] && Reverse([b]) == [b];
  }

  lemma {:induction false} ReadStringBinds(bs: seq<Byte>, pos: nat, text: seq<Byte>, dest: Dest, len: nat)
    requires |text| < 0x1_0000 && At(bs, pos, U16(|text|) + text) && (dest.Cell? ==> len > 0)
    ensures ReadString(bs, pos, dest, len)
         == Next(pos + 2 + |text|, if dest.Cell? then Stored(dest, Cut(text, len)) else dest)
  {
    AtSplit(bs, pos, U16(|text|), text);
    U16Inverse(|text|);
  }

  lemma {:induction false} ReadArrayBinds(bs: seq<Byte>, pos: nat, items: seq<Value>, slots: seq<Slot>)
    requires |items| < 0x1_0000_0000 && forall i | 0 <= i < |items| :: WellFormed(items[i])
    requires At(bs, pos, U32(|items|) + EncodeItems(items)) && RegularSlots(slots)
    ensures Has(bs, pos, 4)
    ensures ReadItems(bs, pos + 4, slots, 0, FromU32(bs[pos..pos + 4]))
         == Next(pos + 4 + |EncodeItems(items)|, BindItems(items, slots, 0, pos + 4))
    decreases items, 2
  {
    AtSplit(bs, pos, U32(|items|), EncodeItems(items));
    U32Inverse(|items|);
    ReadItemsBinds(bs, pos + 4, items, slots, 0, |items|);
  }

  lemma {:induction false} ReadMixedBinds(bs: seq<Byte>, pos: nat, fields: seq<Field>, slots: seq<Slot>)
    requires forall i | 0 <= i < |fields| :: WellFormedField(fields[i])
    requires At(bs, pos, [0, 0, 0, 0] + (EncodeFields(fields) + [0, 0, END])) && RegularSlots(slots)
    ensures Has(bs, pos, 4)
    ensures ReadObject(bs, pos + 4, slots)
         == Next(pos + 4 + |EncodeFields(fields)| + 3, BindFields(fields, slots, pos + 4))
    decreases fields, 2
  {
    AtSplit(bs, pos, [0, 0, 0, 0], EncodeFields(fields) + [0, 0, END]);
    ReadFieldsBinds(bs, pos + 4, fields, slots);
  }

  lemma {:induction false} ReadBodyBinds(bs: seq<Byte>, pos: nat, v: Value, dest: Dest, len: nat)
    requires WellFormed(v) && At(bs, pos, EncodeBody(v))
    requires RegularSlots(Nested(dest)) && (v.Str? && dest.Cell? ==> len > 0)
    ensures ReadBody(bs, pos, Plain(Marker(v)), dest, len)
         == Next(pos + |EncodeBody(v)|, BindBody(v, dest, len, pos))
    decreases v, 1, 0
  {
    match v
    case Number(bytes) => ReadNumberBinds(bs, pos, bytes, dest);
    case Boolean(b) => ReadBooleanBinds(bs, pos, b, dest);
    case Str(text) => ReadStringBinds(bs, pos, text, dest, len);
    case Null =>
    case ArrayNull =>
    case Object(fields) => ReadFieldsBinds(bs, pos, fields, Nested(dest));
    case MixedArray(fields) => ReadMixedBinds(bs, pos, fields, Nested(dest));
    case StrictArray(items) => ReadArrayBinds(bs, pos, items, Nested(dest));
  }

  lemma {:induction false} ReadAtBinds(bs: seq<Byte>, pos: nat, v: Value, slots: seq<Slot>, k: nat)
    requires WellFormed(v) && At(bs, pos, Encode(v)) && RegularSlots(slots)
    ensures ReadAt(bs, pos, slots, k) == Next(pos + |Encode(v)|, BindAt(slots, k, v, pos))
    decreases v, 3
  {
    ReadOneBinds(bs, pos, v, if k < |slots| then Some(slots[k]) else None);
  }

  lemma {:induction false} ReadFieldsBinds(bs: seq<Byte>, pos: nat, fields: seq<Field>, slots: seq<Slot>)
    requires forall i | 0 <= i < |fields| :: WellFormedField(fields[i])
    requires At(bs, pos, EncodeFields(fields) + [0, 0, END]) && RegularSlots(slots)
    ensures ReadObject(bs, pos, slots) == Next(pos + |EncodeFields(fields)| + 3, BindFields(fields, slots, pos))
    decreases fields, 1
  {
    if fields == [] {
      ReadNoFields(bs, pos, slots);
    } else {
      var p1, slots1 := ReadFieldBinds(bs, pos, fields, slots);
      ReadFieldsBinds(bs, p1, fields[1..], slots1);
    }
  }

  /** The first field: where reading goes on, and what is filled by then. */
  lemma {:induction false} ReadFieldBinds(bs: seq<Byte>, pos: nat, fields: seq<Field>, slots: seq<Slot>)
    returns (p1: nat, slots1: seq<Slot>)
    requires fields != [] && forall i | 0 <= i < |fields| :: WellFormedField(fields[i])
    requires At(bs, pos, EncodeFields(fields) + [0, 0, END]) && RegularSlots(slots)
    ensures At(bs, p1, EncodeFields(fields[1..]) + [0, 0, END]) && RegularSlots(slots1)
    ensures ReadObject(bs, pos, slots) == ReadObject(bs, p1, slots1)
    ensures BindFields(fields, slots, pos) == BindFields(fields[1..], slots1, p1)
    ensures pos + |EncodeFields(fields)| == p1 + |EncodeFields(fields[1..])|
    decreases fields, 0
  {
    var f, p;
    f, p, p1 := FieldAt(bs, pos, fields);
    slots1 := FieldBound(fields, f, slots, pos, p, p1);
    FieldRead(bs, pos, f, slots, p, p1, slots1);
  }

  lemma {:induction false} FieldBound(fields: seq<Field>, f: Field, slots: seq<Slot>, pos: nat, p: nat, p1: nat)
    returns (slots1: seq<Slot>)
    requires fields != [] && (forall i | 0 <= i < |fields| :: WellFormedField(fields[i])) && RegularSlots(slots)
    requires f == fields[0] && WellFormedField(f) && p == pos + 2 + |f.key| && p1 == p + |Encode(f.value)|
    ensures slots1 == BindAt(slots, FindKey(slots, f.key), f.value, p) && RegularSlots(slots1)
    ensures BindFields(fields, slots, pos) == BindFields(fields[1..], slots1, p1)
  {
    slots1 := BindAt(slots, FindKey(slots, f.key), f.value, p);
    BindFirst(fields, f, slots, pos, slots1, p1);
    BindAtRegular(slots, FindKey(slots, f.key), f.value, p);
  }

  lemma {:induction false} FieldRead(bs: seq<Byte>, pos: nat, f: Field, slots: seq<Slot>, p: nat, p1: nat,
                                     slots1: seq<Slot>)
    requires WellFormedField(f) && p == pos + 2 + |f.key| && p1 == p + |Encode(f.value)| && RegularSlots(slots)
    requires At(bs, pos, U16(|f.key|)) && At(bs, pos + 2, f.key) && At(bs, p, Encode(f.value))
    requires slots1 == BindAt(slots, FindKey(slots, f.key), f.value, p)
    ensures p1 <= |bs| && ReadObject(bs, pos, slots) == ReadObject(bs, p1, slots1)
    decreases f.value, 4
  {
    ReadAtBinds(bs, p, f.value, slots, FindKey(slots, f.key));
    ReadObjectKey(bs, pos, slots, f.key, p1, slots1);
  }

  /** `BindFields` takes the fields from the front. */
  lemma {:induction false} BindFirst(fields: seq<Field>, f: Field, slots: seq<Slot>, pos: nat, slots1: seq<Slot>,
                                     p1: nat)
    requires fields != [] && (forall i | 0 <= i < |fields| :: WellFormedField(fields[i]))
    requires f == fields[0] && WellFormedField(f) && p1 == pos + 2 + |f.key| + |Encode(f.value)|
    requires slots1 == BindAt(slots, FindKey(slots, f.key), f.value, pos + 2 + |f.key|)
    ensures BindFields(fields, slots, pos) == BindFields(fields[1..], slots1, p1)
  {
  }

  lemma {:induction false} ReadNoFields(bs: seq<Byte>, pos: nat, slots: seq<Slot>)
    requires At(bs, pos, [] + [0, 0, END])
    ensures ReadObject(bs, pos, slots) == Next(pos + 3, slots)
  {
    var s: seq<Byte> := [0, 0, END];
    assert [] + s == s;
    assert bs[pos..pos + 3][2] == bs[pos + 2];
    assert bs[pos..pos + 2] == bs[pos..pos + 3][..2] == [0, 0];
  }

  /** One key: its value is read for the first element of that name. */
  lemma {:induction false} ReadObjectKey(bs: seq<Byte>, pos: nat, slots: seq<Slot>, key: seq<Byte>,
                                         p1: nat, slots1: seq<Slot>)
    requires 0 < |key| < 0x1_0000 && At(bs, pos, U16(|key|)) && At(bs, pos + 2, key)
    requires p1 <= |bs| && ReadAt(bs, pos + 2 + |key|, slots, FindKey(slots, key)) == Next(p1, slots1)
    ensures ReadObject(bs, pos, slots) == ReadObject(bs, p1, slots1)
  {
    U16Inverse(|key|);
  }

  /** The pieces of the first of the fields at `pos`. */
  lemma {:induction false} FieldAt(bs: seq<Byte>, pos: nat, fields: seq<Field>) returns (f: Field, p: nat, p1: nat)
    requires fields != [] && forall i | 0 <= i < |fields| :: WellFormedField(fields[i])
    requires At(bs, pos, EncodeFields(fields) + [0, 0, END])
    ensures f == fields[0] && WellFormedField(f) && p == pos + 2 + |f.key| && p1 == p + |Encode(f.value)|
    ensures At(bs, pos, U16(|f.key|)) && FromU16(U16(|f.key|)) == |f.key| && At(bs, pos + 2, f.key)
    ensures At(bs, p, Encode(f.value)) && At(bs, p1, EncodeFields(fields[1..]) + [0, 0, END])
    ensures pos + |EncodeFields(fields)| == p1 + |EncodeFields(fields[1..])|
  {
    f := fields[0];
    var rest := EncodeFields(fields[1..]) + [0, 0, END];
    p, p1 := pos + 2 + |f.key|, pos + 2 + |f.key| + |Encode(f.value)|;
    FieldText(fields);
    AtSplit(bs, pos, U16(|f.key|), f.key + (Encode(f.value) + rest));
    TwoAt(bs, pos + 2, f.key, Encode(f.value), rest, p, p1);
    U16Inverse(|f.key|);
  }

  lemma TwoAt(bs: seq<Byte>, pos: nat, a: seq<Byte>, b: seq<Byte>, c: seq<Byte>, p: nat, p1: nat)
    requires At(bs, pos, a + (b + c)) && p == pos + |a| && p1 == p + |b|
    ensures At(bs, pos, a) && At(bs, p, b) && At(bs, p1, c)
  {
    AtSplit(bs, pos, a, b + c);
    AtSplit(bs, p, b, c);
  }

  lemma {:induction false} FieldText(fields: seq<Field>)
    requires fields != [] && forall i | 0 <= i < |fields| :: WellFormedField(fields[i])
    ensures WellFormedField(fields[0])
    ensures EncodeFields(fields) + [0, 0, END]
         == U16(|fields[0].key|)
             + (fields[0].key + (Encode(fields[0].value) + (EncodeFields(fields[1..]) + [0, 0, END])))
  {
  }

  lemma {:induction false} ReadItemsBinds(bs: seq<Byte>, pos: nat, items: seq<Value>, slots: seq<Slot>, k: nat,
                                          count: nat)
    requires forall i | 0 <= i < |items| :: WellFormed(items[i])
    requires At(bs, pos, EncodeItems(items)) && RegularSlots(slots) && count == k + |items|
    ensures ReadItems(bs, pos, slots, k, count)
         == Next(pos + |EncodeItems(items)|, BindItems(items, slots, k, pos))
    decreases items, 1
  {
    if items != [] {
      AtSplit(bs, pos, Encode(items[0]), EncodeItems(items[1..]));
      ReadAtBinds(bs, pos, items[0], slots, k);
      BindAtRegular(slots, k, items[0], pos);
      ReadItemsBinds(bs, pos + |Encode(items[0])|, items[1..], BindAt(slots, k, items[0], pos), k + 1, count);
    }
  }
}
