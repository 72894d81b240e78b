/** A list of elements, as every command is read: each takes the value at its place, and input that ends early
    leaves the rest of the elements alone or is an error. */
module AmfLists {
  import opened Amf
  import opened Bytes
  import opened AmfReader
  import opened AmfBinding
  import opened AmfRoundTrip
  import opened Wrappers

  predicate AllItems(vs: seq<Value>) {
    forall i | 0 <= i < |vs| :: WellFormed(vs[i])
  }

  /** Where value j of a list at `pos` stands. */
  function ItemPos(vs: seq<Value>, j: nat, pos: nat): nat
    requires j <= |vs| && AllItems(vs)
  {
    pos + |EncodeItems(vs[..j])|
  }

  lemma ItemPosNext(vs: seq<Value>, j: nat, pos: nat)
    requires 0 < j <= |vs| && AllItems(vs)
    ensures ItemPos(vs, j, pos) == ItemPos(vs[1..], j - 1, pos + |Encode(vs[0])|)
  {
    assert vs[..j][0] == vs[0] && vs[..j][1..] == vs[1..][..j - 1];
  }

  /** The values are read one after the other, from element k on. */
  lemma {:induction false} ReadAllBinds(bs: seq<Byte>, pos: nat, vs: seq<Value>, slots: seq<Slot>, k: nat)
    requires AllItems(vs) && At(bs, pos, EncodeItems(vs)) && RegularSlots(slots) && k + |vs| <= |slots|
    ensures RegularSlots(BindItems(vs, slots, k, pos))
    ensures ReadAll(bs, pos, slots, k)
         == ReadAll(bs, pos + |EncodeItems(vs)|, BindItems(vs, slots, k, pos), k + |vs|)
    decreases |vs|
  {
    if vs != [] {
      var slots1, p1 := BindAt(slots, k, vs[0], pos), pos + |Encode(vs[0])|;
      AtSplit(bs, pos, Encode(vs[0]), EncodeItems(vs[1..]));
      ReadFirst(bs, pos, vs[0], slots, k, slots1, p1);
      ReadAllBinds(bs, p1, vs[1..], slots1, k + 1);
    }
  }

  lemma ReadFirst(bs: seq<Byte>, pos: nat, v: Value, slots: seq<Slot>, k: nat, slots1: seq<Slot>, p1: nat)
    requires WellFormed(v) && At(bs, pos, Encode(v)) && RegularSlots(slots) && k < |slots|
    requires slots1 == BindAt(slots, k, v, pos) && p1 == pos + |Encode(v)|
    ensures RegularSlots(slots1) && ReadAll(bs, pos, slots, k) == ReadAll(bs, p1, slots1, k + 1)
  {
    ReadAtBinds(bs, pos, v, slots, k);
    BindAtRegular(slots, k, v, pos);
  }

  /** Element j takes its own value, with its place, and no other. */
  lemma {:induction false} ItemBound(vs: seq<Value>, slots: seq<Slot>, k: nat, pos: nat, j: nat)
    requires AllItems(vs) && j < |slots| && k + |vs| <= |slots|
    ensures var after := BindItems(vs, slots, k, pos)[j];
            after == if k <= j < k + |vs| then
                       slots[j].(dest := BindOne(Some(slots[j]), vs[j - k], ItemPos(vs, j - k, pos)))
                     else slots[j]
    decreases |vs|
  {
    if vs != [] {
      var slots1, p1 := BindAt(slots, k, vs[0], pos), pos + |Encode(vs[0])|;
      ItemBound(vs[1..], slots1, k + 1, p1, j);
      if k < j < k + |vs| {
        ItemPosNext(vs, j - k, pos);
      }
    }
  }

  /** Element j is filled from value j, with the place of that value; elements without a value are as before. */
  ghost predicate EachBound(vs: seq<Value>, slots: seq<Slot>, pos: nat, filled: seq<Slot>)
    requires AllItems(vs)
  {
    && |filled| == |slots| >= |vs|
    && (forall j | 0 <= j < |vs| :: filled[j] == slots[j].(dest := BindOne(Some(slots[j]), vs[j], ItemPos(vs, j, pos))))
    && (forall j | |vs| <= j < |slots| :: filled[j] == slots[j])
  }

  lemma ItemsBound(vs: seq<Value>, slots: seq<Slot>, pos: nat, filled: seq<Slot>)
    requires AllItems(vs) && |vs| <= |slots| && filled == BindItems(vs, slots, 0, pos)
    ensures EachBound(vs, slots, pos, filled)
  {
    forall j | 0 <= j < |slots|
      ensures filled[j] == if j < |vs| then slots[j].(dest := BindOne(Some(slots[j]), vs[j], ItemPos(vs, j, pos)))
                           else slots[j]
    {
      ItemBound(vs, slots, 0, pos, j);
    }
  }

  /** As many values as elements: every value is consumed, and element j holds what value j makes of it. */
  lemma ListBinds(bs: seq<Byte>, pos: nat, vs: seq<Value>, slots: seq<Slot>) returns (filled: seq<Slot>)
    requires AllItems(vs) && At(bs, pos, EncodeItems(vs)) && RegularSlots(slots) && |vs| == |slots|
    ensures ReadAll(bs, pos, slots, 0) == Next(pos + |EncodeItems(vs)|, filled)
    ensures EachBound(vs, slots, pos, filled)
  {
    filled := BindItems(vs, slots, 0, pos);
    ReadAllBinds(bs, pos, vs, slots, 0);
    ItemsBound(vs, slots, pos, filled);
  }

  /** The input ends behind fewer values than there are elements: the next element has to be optional, and then it
      and all others keep what they held. */
  lemma ListEnds(bs: seq<Byte>, pos: nat, vs: seq<Value>, slots: seq<Slot>) returns (filled: seq<Slot>)
    requires AllItems(vs) && At(bs, pos, EncodeItems(vs)) && RegularSlots(slots) && |vs| < |slots|
    requires |bs| == pos + |EncodeItems(vs)|
    ensures ReadAll(bs, pos, slots, 0) == if slots[|vs|].optional then Stop(|bs|, filled) else Fail
    ensures EachBound(vs, slots, pos, filled)
  {
    filled := BindItems(vs, slots, 0, pos);
    ReadAllBinds(bs, pos, vs, slots, 0);
    ItemsBound(vs, slots, pos, filled);
    NothingLeft(bs, filled, |vs|);
  }

  lemma NothingLeft(bs: seq<Byte>, slots: seq<Slot>, k: nat)
    requires k < |slots| && Regular(slots[k])
    ensures ReadAll(bs, |bs|, slots, k) == if slots[k].optional then Stop(|bs|, slots) else Fail
  {
    var s := slots[k];
    assert slots[k := s.(dest := s.dest)] == slots;
    if s.typeless {
      assert ReadVariant(bs, |bs|, s.dest) == Fail;
      assert ReadBody(bs, |bs|, Variant, s.dest, s.len) == ReadVariant(bs, |bs|, s.dest);
    }
    assert ReadOne(bs, |bs|, Some(s)) == if s.optional then Stop(|bs|, s.dest) else Fail;
    assert ReadAt(bs, |bs|, slots, k) == if s.optional then Stop(|bs|, slots) else Fail;
  }

  /** Whatever stands around them, encoded values read with their schemas are consumed exactly, and each comes
      back whole. */
  lemma EncodedComesBack(bs: seq<Byte>, pos: nat, vs: seq<Value>)
    requires AllItems(vs) && (forall i | 0 <= i < |vs| :: DistinctKeys(vs[i])) && At(bs, pos, EncodeItems(vs))
    ensures var r := ReadAll(bs, pos, SchemaForItems(vs), 0);
            && r.Next? && r.pos == pos + |EncodeItems(vs)|
            && |r.value| == |vs| && forall i | 0 <= i < |vs| :: Holds(r.value[i].dest, vs[i])
  {
    var slots := SchemaForItems(vs);
    forall i | 0 <= i < |slots| ensures Regular(slots[i]) {
      SchemaRegular(vs[i], []);
    }
    var filled := ListBinds(bs, pos, vs, slots);
    forall i | 0 <= i < |vs| ensures Holds(filled[i].dest, vs[i]) {
      ItemHolds(vs[i], ItemPos(vs, i, pos), slots[i], filled[i]);
    }
  }

  lemma ItemHolds(v: Value, pos: nat, s: Slot, filled: Slot)
    requires WellFormed(v) && DistinctKeys(v)
    requires s == SchemaFor(v, []) && filled == s.(dest := BindOne(Some(s), v, pos))
    ensures Holds(filled.dest, v)
  {
    BindHolds(v, [], pos);
  }
}
