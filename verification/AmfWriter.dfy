/** The writer (ngx_rtmp_amf_put, write, write_object, write_array) over a chain of buffers that are
    allocated as they fill up. */
module AmfWriter {
  import opened Sequences
  import opened Amf
  import opened Bytes
  import opened AmfChain
  import opened AmfReader
  import opened AmfBinding
  import opened AmfRoundTrip
  import opened AmfLists
  import opened Wrappers

  type Size = n: int | n > 0 witness 1

  /** One step of a loop that writes `x` and still has `rest` to write out of `all`. */
  lemma Shift(start: seq<Byte>, x: seq<Byte>, after: seq<Byte>, rest: seq<Byte>, todo: seq<Byte>)
    requires after == start + x && todo == x + rest
    ensures after + rest == start + todo
  {
  }

  lemma {:induction false} FieldsStep(fields: seq<Field>, n: nat, bytes: seq<Byte>)
    requires n < |fields| && forall i | 0 <= i < |fields| :: WellFormedField(fields[i])
    requires WellFormedField(fields[n]) && bytes == U16(|fields[n].key|) + fields[n].key + Encode(fields[n].value)
    ensures EncodeFields(fields[n..]) == bytes + EncodeFields(fields[n + 1..])
  {
    assert fields[n..][0] == fields[n] && fields[n..][1..] == fields[n + 1..];
  }

  lemma {:induction false} ItemsStep(items: seq<Value>, n: nat)
    requires n < |items| && forall i | 0 <= i < |items| :: WellFormed(items[i])
    ensures EncodeItems(items[n..]) == Encode(items[n]) + EncodeItems(items[n + 1..])
  {
    assert items[n..][0] == items[n] && items[n..][1..] == items[n + 1..];
  }

  /** The sizes of the buffers that the first `calls` calls of the allocator gave. */
  function Sizes(alloc: nat -> Option<Size>, calls: nat): seq<Size> {
    if calls == 0 then []
    else
      match alloc(calls - 1)
      case None => Sizes(alloc, calls - 1)
      case Some(size) => Sizes(alloc, calls - 1) + [size]
  }

  /** Every buffer is filled to its size but the last one, which has the given room left. */
  predicate Filled(chain: seq<seq<Byte>>, room: nat, sizes: seq<Size>) {
    && |chain| == |sizes|
    && (chain == [] ==> room == 0)
    && (forall i | 0 <= i < |chain| - 1 :: |chain[i]| == sizes[i])
    && (chain != [] ==> |chain[|chain| - 1]| + room == sizes[|chain| - 1])
  }

  class WriteCtx {
    /** The allocator: the size of its n-th buffer, or None when memory is out. */
    const alloc: nat -> Option<Size>
    var calls: nat
    /** The filled parts of the buffers of the chain, and the free room in the last one. */
    var chain: seq<seq<Byte>>
    var room: nat

    predicate Valid()
      reads this
    {
      Filled(chain, room, Sizes(alloc, calls))
    }

    function Output(): seq<Byte>
      reads this
    {
      Flat(chain)
    }

    /** The latest call of the allocator failed. */
    predicate OutOfMemory()
      reads this
    {
      calls > 0 && alloc(calls - 1) == None
    }

    constructor (alloc: nat -> Option<Size>)
      ensures Valid() && Output() == [] && this.alloc == alloc
    {
      this.alloc := alloc;
      calls, chain, room := 0, [], 0;
    }

    /** Copies into the free room of the last buffer. */
    method Append(p: seq<Byte>)
      requires Valid() && chain != [] && |p| <= room
      modifies this`chain, this`room
      ensures Valid() && chain != [] && Output() == old(Output()) + p && room == old(room) - |p|
    {
      ghost var front, last := chain[..|chain| - 1], chain[|chain| - 1];
      assert chain == front + [last];
      FlatPush(front, last);
      FlatPush(front, last + p);
      chain := chain[|chain| - 1 := chain[|chain| - 1] + p];
      assert chain == front + [last + p];
      room := room - |p|;
    }

    /** A buffer behind the last one, which is full. */
    method Extend() returns (ok: bool)
      requires Valid() && room == 0
      modifies this
      ensures Valid() && Output() == old(Output())
      ensures if ok then chain != [] && room > 0 else OutOfMemory()
    {
      var size := alloc(calls);
      calls := calls + 1;
      if size.None? {
        return false;
      }
      FlatPush(chain, []);
      assert Flat(chain) + [] == Flat(chain);
      chain, room := chain + [[]], size.value;
      return true;
    }

    /** One turn of the loop: as much of `p` as the last buffer takes, after a new one if that is full. */
    method PutSome(p: seq<Byte>) returns (ok: bool, ghost done: seq<Byte>, rest: seq<Byte>)
      requires Valid() && p != []
      modifies this
      ensures Valid() && p == done + rest && Output() == old(Output()) + done
      ensures if ok then |rest| < |p| else OutOfMemory()
    {
      ok, done, rest := true, [], p;
      assert [] + p == p && Output() + [] == Output();
      if chain == [] || room == 0 {
        ok := Extend();
        if !ok {
          return;
        }
      }
      var size := if room >= |p| then |p| else room;
      Append(p[..size]);
      done, rest := p[..size], p[size..];
    }

    /** ngx_rtmp_amf_put: all of `p`, in as many buffers as it takes. */
    method Put(p: seq<Byte>) returns (ok: bool)
      requires Valid()
      modifies this
      ensures Valid() && (ok ==> Output() == old(Output()) + p) && (!ok ==> OutOfMemory())
    {
      var rest := p;
      ghost var done: seq<Byte>, start := [], Output();
      assert start == start + [];
      while |rest| > 0
        invariant Valid() && p == done + rest && Output() == start + done
        decreases |rest|
      {
        ghost var some;
        ok, some, rest := PutSome(rest);
        if !ok {
          return;
        }
        Assoc(start, done, some);
        Assoc(done, some, rest);
        done := done + some;
      }
      return true;
    }

    /** ngx_rtmp_amf_write for one element: the marker and what follows it. */
    method Write(v: Value) returns (ok: bool)
      requires Valid() && WellFormed(v)
      modifies this
      ensures Valid() && (ok ==> Output() == old(Output()) + Encode(v)) && (!ok ==> OutOfMemory())
      decreases v, 1
    {
      ghost var start := Output();
      ok := Put([Marker(v)]);
      if ok {
        ok := WriteBody(v);
        Assoc(start, [Marker(v)], EncodeBody(v));
      }
    }

    /** The switch over the type. */
    method WriteBody(v: Value) returns (ok: bool)
      requires Valid() && WellFormed(v)
      modifies this
      ensures Valid() && (ok ==> Output() == old(Output()) + EncodeBody(v)) && (!ok ==> OutOfMemory())
      decreases v, 0
    {
      ghost var start := Output();
      match v {
        case Number(bytes) => ok := Put(Reverse(bytes));
        case Boolean(b) => ok := Put([b]);
        case Str(text) =>
          ok := Put(U16(|text|));
          if ok {
            ok := Put(text);
            Assoc(start, U16(|text|), text);
          }
        case Null => ok := true;
        case ArrayNull => ok := true;
        case Object(fields) => ok := WriteFields(fields);
        case MixedArray(fields) =>
          ok := Put([0, 0, 0, 0]);
          if ok {
            ok := WriteFields(fields);
            Assoc(start, [0, 0, 0, 0], EncodeFields(fields) + [0, 0, END]);
          }
        case StrictArray(items) => ok := WriteArray(items);
      }
    }

    /** ngx_rtmp_amf_write_object and the end marker its caller adds. */
    method WriteFields(fields: seq<Field>) returns (ok: bool)
      requires Valid() && forall i | 0 <= i < |fields| :: WellFormedField(fields[i])
      modifies this
      ensures Valid() && (!ok ==> OutOfMemory())
      ensures ok ==> Output() == old(Output()) + (EncodeFields(fields) + [0, 0, END])
      decreases fields, 1
    {
      ghost var start, bytes := Output(), EncodeFields(fields);
      var n := 0;
      assert fields[0..] == fields;
      while n < |fields|
        invariant 0 <= n <= |fields| && Valid()
        invariant Output() + EncodeFields(fields[n..]) == start + bytes
      {
        ghost var before := Output();
        assert WellFormedField(fields[n]);
        ok := WriteField(fields[n]);
        if !ok {
          return;
        }
        ghost var bit := U16(|fields[n].key|) + fields[n].key + Encode(fields[n].value);
        FieldsStep(fields, n, bit);
        Shift(before, bit, Output(), EncodeFields(fields[n + 1..]), EncodeFields(fields[n..]));
        n := n + 1;
      }
      assert fields[n..] == [] && Output() == start + bytes;
      ok := PutEnd();
      Assoc(start, bytes, [0, 0, END]);
    }

    /** The empty key and the end marker. */
    method PutEnd() returns (ok: bool)
      requires Valid()
      modifies this
      ensures Valid() && (!ok ==> OutOfMemory())
      ensures ok ==> Output() == old(Output()) + [0, 0, END]
    {
      ghost var start := Output();
      ok := Put([0, 0]);
      if ok {
        ok := Put([END]);
        Assoc(start, [0, 0], [END]);
        assert [0, 0] + [END] == [0, 0, END];
      }
    }

    method WriteField(f: Field) returns (ok: bool)
      requires Valid() && WellFormedField(f)
      modifies this
      ensures Valid() && (!ok ==> OutOfMemory())
      ensures ok ==> Output() == old(Output()) + (U16(|f.key|) + f.key + Encode(f.value))
      decreases f, 2
    {
      ghost var start := Output();
      ok := Put(U16(|f.key|));
      if ok {
        ok := Put(f.key);
      }
      if ok {
        ok := Write(f.value);
        Assoc4(start, U16(|f.key|), f.key, Encode(f.value));
      }
    }

    /** ngx_rtmp_amf_write_array: the number of items and the items. */
    method WriteArray(items: seq<Value>) returns (ok: bool)
      requires Valid() && |items| < 0x1_0000_0000 && forall i | 0 <= i < |items| :: WellFormed(items[i])
      modifies this
      ensures Valid() && (!ok ==> OutOfMemory())
      ensures ok ==> Output() == old(Output()) + (U32(|items|) + EncodeItems(items))
      decreases items, 1
    {
      ghost var start := Output();
      ok := Put(U32(|items|));
      if ok {
        ok := WriteItems(items);
        Assoc(start, U32(|items|), EncodeItems(items));
      }
    }

    /** ngx_rtmp_amf_write for a list of elements. */
    method WriteItems(items: seq<Value>) returns (ok: bool)
      requires Valid() && forall i | 0 <= i < |items| :: WellFormed(items[i])
      modifies this
      ensures Valid() && (ok ==> Output() == old(Output()) + EncodeItems(items)) && (!ok ==> OutOfMemory())
      decreases items, 0
    {
      ghost var start, bytes := Output(), EncodeItems(items);
      var n := 0;
      assert items[0..] == items;
      while n < |items|
        invariant 0 <= n <= |items| && Valid()
        invariant Output() + EncodeItems(items[n..]) == start + bytes
      {
        ghost var before := Output();
        ok := Write(items[n]);
        if !ok {
          return;
        }
        ItemsStep(items, n);
        Shift(before, Encode(items[n]), Output(), EncodeItems(items[n + 1..]), EncodeItems(items[n..]));
        n := n + 1;
      }
      assert items[n..] == [] && Output() == start + bytes;
      ok := true;
    }
  }

  /** The values of a command written through `alloc`'s buffers and read back from other buffers that hold the
      same bytes: unless memory ran out they are consumed whole and every schema holds its value. */
  method WriteThenRead(vs: seq<Value>, alloc: nat -> Option<Size>, cut: seq<seq<Byte>> -> seq<seq<Byte>>)
    returns (written: bool, rc: Rc, slots: seq<Slot>)
    requires forall i | 0 <= i < |vs| :: WellFormed(vs[i]) && DistinctKeys(vs[i])
    requires forall chain: seq<seq<Byte>> :: cut(chain) != [] && Flat(cut(chain)) == Flat(chain)
    ensures !written ==> exists n: nat :: alloc(n) == None
    ensures written ==> rc == Rc.Ok && |slots| == |vs| && forall i | 0 <= i < |vs| :: Holds(slots[i].dest, vs[i])
  {
    var w := new WriteCtx(alloc);
    written := w.WriteItems(vs);
    rc, slots := Rc.Error, [];
    if written {
      ghost var bytes := w.Output();
      assert bytes == [] + EncodeItems(vs) == EncodeItems(vs);
      var r := new ReadCtx(cut(w.chain));
      assert r.Input() == bytes && bytes[0..|bytes|] == bytes && At(bytes, 0, EncodeItems(vs));
      EncodedComesBack(bytes, 0, vs);
      rc, slots := r.ReadElts(SchemaForItems(vs));
    }
  }
}
