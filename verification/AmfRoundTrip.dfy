/** A schema built for a value gets exactly that value back; of several values for one key the last one
    stays; an element shadowed by an earlier one of the same name is never filled. */
module AmfRoundTrip {
  import opened Amf
  import opened Bytes
  import opened AmfReader
  import opened AmfBinding
  import opened Wrappers

  // ---------------------------------------------------------------- keys

  lemma {:induction false} StrnEqualReflexive(a: seq<Byte>)
    ensures StrnEqual(a, a)
  {
    if a != [] {
      StrnEqualReflexive(a[1..]);
    }
  }

  lemma {:induction false} StrnEqualJoins(a: seq<Byte>, b: seq<Byte>, c: seq<Byte>)
    requires |a| == |b| == |c| && StrnEqual(a, b) && StrnEqual(c, b)
    ensures StrnEqual(a, c)
  {
    if a != [] && a[0] != 0 {
      StrnEqualJoins(a[1..], b[1..], c[1..]);
    }
  }

  lemma {:induction false} FindKeyFirst(slots: seq<Slot>, key: seq<Byte>)
    ensures var n := FindKey(slots, key);
            && (n < |slots| ==> KeyMatches(key, slots[n].name))
            && forall i | 0 <= i < n :: !KeyMatches(key, slots[i].name)
  {
    if slots != [] && !KeyMatches(key, slots[0].name) {
      FindKeyFirst(slots[1..], key);
      forall i | 0 <= i < FindKey(slots, key) ensures !KeyMatches(key, slots[i].name) {
        if i > 0 {
          assert slots[i] == slots[1..][i - 1];
        }
      }
    }
  }

  lemma {:induction false} FindKeyIs(slots: seq<Slot>, key: seq<Byte>, n: nat)
    requires n <= |slots| && (n < |slots| ==> KeyMatches(key, slots[n].name))
    requires forall i | 0 <= i < n :: !KeyMatches(key, slots[i].name)
    ensures FindKey(slots, key) == n
  {
    FindKeyFirst(slots, key);
  }

  predicate SameNames(a: seq<Slot>, b: seq<Slot>) {
    |a| == |b| && forall i | 0 <= i < |a| :: a[i].name == b[i].name
  }

  lemma SameNamesFind(a: seq<Slot>, b: seq<Slot>, key: seq<Byte>)
    requires SameNames(a, b)
    ensures FindKey(a, key) == FindKey(b, key)
  {
    FindKeyFirst(a, key);
    FindKeyFirst(b, key);
  }

  lemma {:induction false} BindFieldsNames(fields: seq<Field>, slots: seq<Slot>, pos: nat)
    requires forall i | 0 <= i < |fields| :: WellFormedField(fields[i])
    ensures SameNames(slots, BindFields(fields, slots, pos))
    decreases fields
  {
    if fields != [] {
      var f := fields[0];
      assert WellFormedField(f);
      var p := pos + 2 + |f.key|;
      var slots1 := BindAt(slots, FindKey(slots, f.key), f.value, p);
      assert SameNames(slots, slots1);
      BindFieldsNames(fields[1..], slots1, p + |Encode(f.value)|);
    }
  }

  predicate AllWellFormed(fields: seq<Field>) {
    forall i | 0 <= i < |fields| :: WellFormedField(fields[i])
  }

  /** A field in front of others. */
  lemma BindCons(g: Field, rest: seq<Field>, slots: seq<Slot>, pos: nat, slots1: seq<Slot>, p1: nat)
    requires WellFormedField(g) && AllWellFormed(rest)
    requires p1 == pos + 2 + |g.key| + |Encode(g.value)|
    requires slots1 == BindAt(slots, FindKey(slots, g.key), g.value, pos + 2 + |g.key|)
    ensures AllWellFormed([g] + rest) && BindFields([g] + rest, slots, pos) == BindFields(rest, slots1, p1)
    ensures pos + |EncodeFields([g] + rest)| == p1 + |EncodeFields(rest)|
  {
    assert ([g] + rest)[1..] == rest;
    BindFirst([g] + rest, g, slots, pos, slots1, p1);
  }

  /** The fields are bound one after the other; the last one, whose value stands at q, comes last. */
  lemma {:induction false} LastFieldWins(fields: seq<Field>, f: Field, slots: seq<Slot>, pos: nat) returns (q: nat)
    requires AllWellFormed(fields) && WellFormedField(f)
    ensures q == pos + |EncodeFields(fields)| + 2 + |f.key|
    ensures BindFields(fields + [f], slots, pos)
            == BindAt(BindFields(fields, slots, pos), FindKey(slots, f.key), f.value, q)
    decreases fields
  {
    if fields == [] {
      OneField(f, slots, pos);
      assert fields + [f] == [f] + [];
      q := pos + 2 + |f.key|;
    } else {
      var g, rest := fields[0], fields[1..];
      assert WellFormedField(g) && fields == [g] + rest && fields + [f] == [g] + rest + [f];
      var p := pos + 2 + |g.key|;
      var slots1, p1 := BindAt(slots, FindKey(slots, g.key), g.value, p), p + |Encode(g.value)|;
      q := LastFieldWins(rest, f, slots1, p1);
      SameKey(slots, FindKey(slots, g.key), g.value, p, f.key);
      BindCons(g, rest, slots, pos, slots1, p1);
      LastBehind(g, rest, f, slots, pos, slots1, p1);
    }
  }

  lemma SameKey(slots: seq<Slot>, k: nat, v: Value, pos: nat, key: seq<Byte>)
    requires WellFormed(v)
    ensures FindKey(BindAt(slots, k, v, pos), key) == FindKey(slots, key)
  {
    SameNamesFind(slots, BindAt(slots, k, v, pos), key);
  }

  lemma LastBehind(g: Field, rest: seq<Field>, f: Field, slots: seq<Slot>, pos: nat, slots1: seq<Slot>, p1: nat)
    requires WellFormedField(g) && AllWellFormed(rest) && WellFormedField(f)
    requires p1 == pos + 2 + |g.key| + |Encode(g.value)|
    requires slots1 == BindAt(slots, FindKey(slots, g.key), g.value, pos + 2 + |g.key|)
    ensures BindFields([g] + rest + [f], slots, pos) == BindFields(rest + [f], slots1, p1)
  {
    BindCons(g, rest + [f], slots, pos, slots1, p1);
    assert [g] + rest + [f] == [g] + (rest + [f]);
  }

  lemma OneField(f: Field, slots: seq<Slot>, pos: nat)
    requires WellFormedField(f)
    ensures BindFields([f] + [], slots, pos) == BindAt(slots, FindKey(slots, f.key), f.value, pos + 2 + |f.key|)
  {
    var p := pos + 2 + |f.key|;
    BindCons(f, [], slots, pos, BindAt(slots, FindKey(slots, f.key), f.value, p), p + |Encode(f.value)|);
  }

  /** Whether an element takes a value, or lets it pass by. */
  predicate Takes(s: Slot, v: Value) {
    if s.typeless then FindAlternative(Nested(s.dest), Marker(v)) < |Nested(s.dest)|
    else Compatible(s.kind, Marker(v))
  }

  /** Element j is the one that field f is for, and takes its value. */
  predicate Meant(slots: seq<Slot>, j: nat, f: Field) {
    j < |slots| && FindKey(slots, f.key) == j && Takes(slots[j], f.value)
  }

  /** The last field for element j. */
  function LastFor(fields: seq<Field>, slots: seq<Slot>, j: nat): (last: Option<nat>)
    ensures last.Some? ==> last.value < |fields| && Meant(slots, j, fields[last.value])
                           && forall i | last.value < i < |fields| :: !Meant(slots, j, fields[i])
    ensures last.None? ==> forall i | 0 <= i < |fields| :: !Meant(slots, j, fields[i])
  {
    if fields == [] then None
    else if Meant(slots, j, fields[|fields| - 1]) then Some(|fields| - 1)
    else LastFor(fields[..|fields| - 1], slots, j)
  }

  /** Where the value of field i stands. */
  function ValuePos(fields: seq<Field>, i: nat, pos: nat): nat
    requires i < |fields| && forall k | 0 <= k < |fields| :: WellFormedField(fields[k])
  {
    pos + |EncodeFields(fields[..i])| + 2 + |fields[i].key|
  }

  /** The same element, with something else stored: it takes the same values. */
  predicate SameShape(s: Slot, t: Slot) {
    && t == s.(dest := t.dest) && (s.dest.Cell? ==> t.dest.Cell?)
    && (s.typeless ==> SameAlternatives(Nested(s.dest), Nested(t.dest)))
  }

  predicate SameAlternatives(a: seq<Slot>, b: seq<Slot>) {
    |a| == |b| && forall i | 0 <= i < |a| :: b[i] == a[i].(dest := b[i].dest)
  }

  lemma {:induction false} SameAlternative(a: seq<Slot>, b: seq<Slot>, marker: Byte)
    requires SameAlternatives(a, b)
    ensures FindAlternative(a, marker) == FindAlternative(b, marker)
  {
    if a != [] {
      SameAlternative(a[..|a| - 1], b[..|b| - 1], marker);
    }
  }

  lemma SameTaken(s: Slot, t: Slot, v: Value)
    requires SameShape(s, t)
    ensures Takes(s, v) <==> Takes(t, v)
  {
    if s.typeless {
      SameAlternative(Nested(s.dest), Nested(t.dest), Marker(v));
    }
  }

  /** Binding one value, after others. */
  lemma BoundOne(s: Slot, t: Slot, v: Value, pos: nat)
    requires WellFormed(v) && SameShape(s, t)
    ensures SameShape(s, t.(dest := BindOne(Some(t), v, pos)))
    ensures !Takes(t, v) ==> BindOne(Some(t), v, pos) == t.dest
  {
    if s.typeless {
      var slots := Nested(t.dest);
      var k := FindAlternative(slots, Marker(v));
      if k < |slots| {
        var slots1 := slots[k := slots[k].(dest := BindBody(v, slots[k].dest, slots[k].len, pos + 1))];
        assert Nested(BindVariant(t.dest, v, pos)) == slots1;
      }
    }
  }

  /** Element j after the fields: as the last one for it left it. */
  predicate LeftBy(fields: seq<Field>, slots: seq<Slot>, pos: nat, j: nat, last: Option<nat>, after: Slot)
    requires j < |slots| && (forall i | 0 <= i < |fields| :: WellFormedField(fields[i]))
    requires last.Some? ==> last.value < |fields|
  {
    match last
    case None => after == slots[j]
    case Some(i) =>
      var before := BindFields(fields[..i], slots, pos)[j];
      && SameShape(slots[j], before) && WellFormedField(fields[i])
      && after == before.(dest := BindOne(Some(before), fields[i].value, ValuePos(fields, i, pos)))
  }

  /** One more field: element j is bound to its value if the field is meant for it, and kept otherwise. */
  lemma SlotBound(front: seq<Field>, f: Field, slots: seq<Slot>, pos: nat, j: nat, before: Slot, p: nat)
    returns (after: Slot)
    requires j < |slots| && (forall i | 0 <= i < |front| :: WellFormedField(front[i])) && WellFormedField(f)
    requires before == BindFields(front, slots, pos)[j] && SameShape(slots[j], before)
    requires p == pos + |EncodeFields(front)| + 2 + |f.key|
    ensures after == BindFields(front + [f], slots, pos)[j] && SameShape(slots[j], after)
    ensures after == if Meant(slots, j, f) then before.(dest := BindOne(Some(before), f.value, p)) else before
  {
    var q := LastFieldWins(front, f, slots, pos);
    BoundOne(slots[j], before, f.value, p);
    SameTaken(slots[j], before, f.value);
    after := BindFields(front + [f], slots, pos)[j];
  }

  lemma LastPushed(front: seq<Field>, f: Field, slots: seq<Slot>, j: nat)
    ensures LastFor(front + [f], slots, j) == if Meant(slots, j, f) then Some(|front|) else LastFor(front, slots, j)
  {
    assert (front + [f])[..|front|] == front;
  }

  lemma LeftByLast(fields: seq<Field>, slots: seq<Slot>, pos: nat, j: nat, n: nat, before: Slot, after: Slot)
    requires j < |slots| && (forall i | 0 <= i < |fields| :: WellFormedField(fields[i])) && n < |fields|
    requires before == BindFields(fields[..n], slots, pos)[j] && SameShape(slots[j], before)
             && WellFormedField(fields[n])
    requires after == before.(dest := BindOne(Some(before), fields[n].value, ValuePos(fields, n, pos)))
    ensures LeftBy(fields, slots, pos, j, Some(n), after)
  {
  }

  lemma LeftByFront(fields: seq<Field>, n: nat, slots: seq<Slot>, pos: nat, j: nat, last: Option<nat>, after: Slot)
    requires j < |slots| && (forall i | 0 <= i < |fields| :: WellFormedField(fields[i])) && n <= |fields|
    requires (last.Some? ==> last.value < n) && LeftBy(fields[..n], slots, pos, j, last, after)
    ensures LeftBy(fields, slots, pos, j, last, after)
  {
    if last.Some? {
      assert fields[..n][..last.value] == fields[..last.value];
    }
  }

  /** After an object was bound, element j is what the last field for it made of it; other fields, and values
      it does not take, leave it alone. */
  lemma {:induction false} SlotAfterFields(fields: seq<Field>, slots: seq<Slot>, pos: nat, j: nat)
    requires j < |slots| && forall i | 0 <= i < |fields| :: WellFormedField(fields[i])
    ensures SameShape(slots[j], BindFields(fields, slots, pos)[j])
    ensures LeftBy(fields, slots, pos, j, LastFor(fields, slots, j), BindFields(fields, slots, pos)[j])
  {
    if fields != [] {
      var n := |fields| - 1;
      var front, f := fields[..n], fields[n];
      assert fields == front + [f] && WellFormedField(f);
      SlotAfterFields(front, slots, pos, j);
      LastPushed(front, f, slots, j);
      var before := BindFields(front, slots, pos)[j];
      var after := SlotBound(front, f, slots, pos, j, before, ValuePos(fields, n, pos));
      if Meant(slots, j, f) {
        LeftByLast(fields, slots, pos, j, n, before, after);
      } else {
        LeftByFront(fields, n, slots, pos, j, LastFor(front, slots, j), before);
      }
    }
  }

  /** Whether a scalar destination is overwritten by every value the element takes; otherwise by none. */
  predicate Overwrites(s: Slot) {
    s.context || LowByte(s.kind) in {NUMBER, BOOLEAN} || (LowByte(s.kind) == STRING && s.len > 0)
  }

  lemma CellBound(s: Slot, t: Slot, v: Value, pos: nat)
    requires WellFormed(v) && s.dest.Cell? && t.dest.Cell? && t == s.(dest := t.dest) && Takes(s, v)
    ensures BindOne(Some(t), v, pos) == if Overwrites(s) then BindOne(Some(s), v, pos) else t.dest
  {
  }

  /** For a scalar destination the last field alone decides. */
  lemma {:induction false} CellAfterFields(fields: seq<Field>, slots: seq<Slot>, pos: nat, j: nat)
    requires j < |slots| && slots[j].dest.Cell? && forall i | 0 <= i < |fields| :: WellFormedField(fields[i])
    ensures var last, dest := LastFor(fields, slots, j), BindFields(fields, slots, pos)[j].dest;
            dest == match last
                    case None => slots[j].dest
                    case Some(i) => BindOne(Some(slots[j]), fields[i].value, ValuePos(fields, i, pos))
  {
    SlotAfterFields(fields, slots, pos, j);
    var last := LastFor(fields, slots, j);
    if last.Some? {
      var i := last.value;
      var front := fields[..i];
      var before, p := BindFields(front, slots, pos)[j], ValuePos(fields, i, pos);
      assert WellFormedField(fields[i]);
      CellBound(slots[j], before, fields[i].value, p);
      CellBound(slots[j], slots[j], fields[i].value, p);
      CellAfterFields(front, slots, pos, j);
      var last1 := LastFor(front, slots, j);
      if last1.Some? {
        assert WellFormedField(front[last1.value]);
        CellBound(slots[j], slots[j], front[last1.value].value, ValuePos(front, last1.value, pos));
      }
    }
  }

  /** An element whose name an earlier element already matches keeps its destination. */
  lemma {:induction false} ShadowedNeverFilled(fields: seq<Field>, slots: seq<Slot>, pos: nat, i: nat, j: nat)
    requires forall k | 0 <= k < |fields| :: WellFormedField(fields[k])
    requires i < j < |slots| && KeyMatches(slots[j].name, slots[i].name)
    ensures BindFields(fields, slots, pos)[j] == slots[j]
    decreases fields
  {
    if fields != [] {
      var f := fields[0];
      assert WellFormedField(f);
      var p, k := pos + 2 + |f.key|, FindKey(slots, f.key);
      FindKeyFirst(slots, f.key);
      if KeyMatches(f.key, slots[j].name) {
        StrnEqualSwap(slots[j].name, slots[i].name);
        StrnEqualJoins(f.key, slots[j].name, slots[i].name);
      }
      ShadowedNeverFilled(fields[1..], BindAt(slots, k, f.value, p), p + |Encode(f.value)|, i, j);
    }
  }

  lemma {:induction false} StrnEqualSwap(a: seq<Byte>, b: seq<Byte>)
    requires |a| == |b| && StrnEqual(a, b)
    ensures StrnEqual(b, a)
  {
    StrnEqualReflexive(b);
    StrnEqualJoins(b, b, a);
  }

  /** An element for objects is filled from a mixed array as from an object, and the other way round. */
  lemma ObjectsAlike(fields: seq<Field>, s: Slot, pos: nat)
    requires AllWellFormed(fields) && !s.typeless && !s.context && LowByte(s.kind) in {OBJECT, MIXED_ARRAY}
    ensures BindOne(Some(s), Object(fields), pos + 4) == BindOne(Some(s), MixedArray(fields), pos)
         == WithNested(s.dest, BindFields(fields, Nested(s.dest), pos + 5))
  {
  }

  // ----------------------------------------------------- matching schema

  function Element(marker: Byte, name: seq<Byte>, dest: Dest, len: nat): Slot {
    Slot(Plain(marker), false, false, false, name, dest, len)
  }

  /** The schema that expects `v` under `name`, with empty destinations of the right sizes. */
  function SchemaFor(v: Value, name: seq<Byte>): Slot
    decreases v, 0
  {
    match v
    case Number(_) => Element(NUMBER, name, Cell(None), 8)
    case Boolean(_) => Element(BOOLEAN, name, Cell(None), 1)
    case Str(text) => Element(STRING, name, Cell(None), |text| + 1)
    case Null => Element(NULL, name, NoDest, 0)
    case ArrayNull => Element(ARRAY_NULL, name, NoDest, 0)
    case Object(fields) => Element(OBJECT, name, Elts(SchemaForFields(fields)), 0)
    case MixedArray(fields) => Element(MIXED_ARRAY, name, Elts(SchemaForFields(fields)), 0)
    case StrictArray(items) => Element(ARRAY, name, Elts(SchemaForItems(items)), 0)
  }

  function SchemaForFields(fields: seq<Field>): (slots: seq<Slot>)
    ensures |slots| == |fields|
    ensures forall i | 0 <= i < |fields| :: slots[i] == SchemaFor(fields[i].value, fields[i].key)
    decreases fields
  {
    if fields == [] then []
    else [SchemaFor(fields[0].value, fields[0].key)] + SchemaForFields(fields[1..])
  }

  function SchemaForItems(items: seq<Value>): (slots: seq<Slot>)
    ensures |slots| == |items|
    ensures forall i | 0 <= i < |items| :: slots[i] == SchemaFor(items[i], [])
    decreases items
  {
    if items == [] then [] else [SchemaFor(items[0], [])] + SchemaForItems(items[1..])
  }

  /** The value a caller finds in a filled element. */
  ghost predicate Holds(dest: Dest, v: Value)
    decreases v
  {
    match v
    case Number(bytes) => dest == Cell(Some(Bytes(bytes)))
    case Boolean(b) => dest == Cell(Some(Bytes([b])))
    case Str(text) => dest == Cell(Some(Bytes(text + [0])))
    case Null => true
    case ArrayNull => true
    case Object(fields) => dest.Elts? && HoldsFields(dest.slots, fields)
    case MixedArray(fields) => dest.Elts? && HoldsFields(dest.slots, fields)
    case StrictArray(items) =>
      dest.Elts? && |dest.slots| == |items| && forall i | 0 <= i < |items| :: Holds(dest.slots[i].dest, items[i])
  }

  ghost predicate HoldsFields(slots: seq<Slot>, fields: seq<Field>)
    decreases fields
  {
    |slots| == |fields|
    && forall i | 0 <= i < |fields| :: slots[i].name == fields[i].key && Holds(slots[i].dest, fields[i].value)
  }

  /** Within one object no key is taken for another. */
  predicate DistinctKeys(v: Value) {
    match v
    case Object(fields) => DistinctFields(fields)
    case MixedArray(fields) => DistinctFields(fields)
    case StrictArray(items) => forall i | 0 <= i < |items| :: DistinctKeys(items[i])
    case _ => true
  }

  predicate DistinctFields(fields: seq<Field>) {
    && (forall i, j | 0 <= i < j < |fields| :: !KeyMatches(fields[j].key, fields[i].key))
    && (forall i | 0 <= i < |fields| :: DistinctKeys(fields[i].value))
  }

  lemma {:induction false} BindHolds(v: Value, name: seq<Byte>, pos: nat)
    requires WellFormed(v) && DistinctKeys(v)
    ensures Holds(BindOne(Some(SchemaFor(v, name)), v, pos), v)
    decreases v, 1
  {
    match v
    case Object(fields) => BindFieldsHold(fields, 0, fields, SchemaForFields(fields), pos + 1);
    case MixedArray(fields) => BindFieldsHold(fields, 0, fields, SchemaForFields(fields), pos + 5);
    case StrictArray(items) => BindItemsHold(items, items, SchemaForItems(items), pos + 5);
    case _ =>
  }

  /** `rest`, the fields from n on, is still to be bound: the elements of those before hold them, the others
      are empty. */
  lemma {:induction false} BindFieldsHold(all: seq<Field>, n: nat, rest: seq<Field>, slots: seq<Slot>, pos: nat)
    requires DistinctFields(all) && AllWellFormed(all) && n <= |all| == |slots| && rest == all[n..]
    requires forall i | 0 <= i < |all| :: slots[i].name == all[i].key
    requires forall i | 0 <= i < n :: Holds(slots[i].dest, all[i].value)
    requires forall i | n <= i < |all| :: slots[i] == SchemaFor(all[i].value, all[i].key)
    ensures HoldsFields(BindFields(rest, slots, pos), all)
    decreases all, |rest|
  {
    if rest != [] {
      var f := all[n];
      assert f == rest[0] && WellFormedField(f) && DistinctKeys(f.value);
      var p := pos + 2 + |f.key|;
      StrnEqualReflexive(f.key);
      FindKeyIs(slots, f.key, n);
      BindHolds(f.value, f.key, p);
      var slots1, p1 := BindAt(slots, n, f.value, p), p + |Encode(f.value)|;
      BindFirst(rest, f, slots, pos, slots1, p1);
      OneMoreHolds(all, n, slots, slots1);
      BindFieldsHold(all, n + 1, rest[1..], slots1, p1);
    }
  }

  /** The element at `n` was filled, the others kept. */
  lemma OneMoreHolds(all: seq<Field>, n: nat, slots: seq<Slot>, slots1: seq<Slot>)
    requires n < |all| == |slots| == |slots1| && Holds(slots1[n].dest, all[n].value)
    requires slots1 == slots[n := slots[n].(dest := slots1[n].dest)]
    requires forall i | 0 <= i < n :: Holds(slots[i].dest, all[i].value)
    requires forall i | 0 <= i < |all| :: slots[i].name == all[i].key
    requires forall i | n <= i < |all| :: slots[i] == SchemaFor(all[i].value, all[i].key)
    ensures forall i | 0 <= i < n + 1 :: Holds(slots1[i].dest, all[i].value)
    ensures forall i | 0 <= i < |all| :: slots1[i].name == all[i].key
    ensures forall i | n + 1 <= i < |all| :: slots1[i] == SchemaFor(all[i].value, all[i].key)
  {
  }

  lemma {:induction false} BindItemsHold(all: seq<Value>, rest: seq<Value>, slots: seq<Slot>, pos: nat)
    requires forall i | 0 <= i < |all| :: WellFormed(all[i]) && DistinctKeys(all[i])
    requires |rest| <= |all| && rest == all[|all| - |rest|..] && |slots| == |all|
    requires forall i | 0 <= i < |all| - |rest| :: Holds(slots[i].dest, all[i])
    requires forall i | |all| - |rest| <= i < |all| :: slots[i] == SchemaFor(all[i], [])
    ensures var filled := BindItems(rest, slots, |all| - |rest|, pos);
            |filled| == |all| && forall i | 0 <= i < |all| :: Holds(filled[i].dest, all[i])
    decreases all, |rest|
  {
    if rest != [] {
      var n, v := |all| - |rest|, rest[0];
      assert v == all[n];
      BindHolds(v, [], pos);
      var slots1 := BindAt(slots, n, v, pos);
      OneMoreItem(all, n, slots, slots1);
      BindItemsHold(all, rest[1..], slots1, pos + |Encode(v)|);
    }
  }

  lemma OneMoreItem(all: seq<Value>, n: nat, slots: seq<Slot>, slots1: seq<Slot>)
    requires n < |all| == |slots| == |slots1| && Holds(slots1[n].dest, all[n])
    requires slots1 == slots[n := slots[n].(dest := slots1[n].dest)]
    requires forall i | 0 <= i < n :: Holds(slots[i].dest, all[i])
    requires forall i | n <= i < |all| :: slots[i] == SchemaFor(all[i], [])
    ensures forall i | 0 <= i < n + 1 :: Holds(slots1[i].dest, all[i])
    ensures forall i | n + 1 <= i < |all| :: slots1[i] == SchemaFor(all[i], [])
  {
  }

  lemma {:induction false} SchemaRegular(v: Value, name: seq<Byte>)
    ensures Regular(SchemaFor(v, name))
    decreases v
  {
    match v
    case Object(fields) =>
      forall i | 0 <= i < |fields| ensures Regular(SchemaForFields(fields)[i]) {
        SchemaRegular(fields[i].value, fields[i].key);
      }
    case MixedArray(fields) =>
      forall i | 0 <= i < |fields| ensures Regular(SchemaForFields(fields)[i]) {
        SchemaRegular(fields[i].value, fields[i].key);
      }
    case StrictArray(items) =>
      forall i | 0 <= i < |items| ensures Regular(SchemaForItems(items)[i]) {
        SchemaRegular(items[i], []);
      }
    case _ =>
  }
}
