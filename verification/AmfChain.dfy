/** The reader in place: ctx->link and ctx->offset move over a chain of buffers of any sizes. */
module AmfChain {
  import opened Amf
  import opened Bytes
  import opened AmfReader
  import opened Wrappers

  function Before(chain: seq<seq<Byte>>, link: nat): nat
    requires link <= |chain|
  {
    if link == 0 then 0 else Before(chain, link - 1) + |chain[link - 1]|
  }

  lemma {:induction false} FlatAt(chain: seq<seq<Byte>>, link: nat)
    requires link <= |chain|
    ensures Before(chain, link) + |Flat(chain[link..])| == |Flat(chain)|
    ensures Flat(chain)[Before(chain, link)..] == Flat(chain[link..])
  {
    if link == 0 {
      assert chain[0..] == chain;
    } else {
      FlatAt(chain, link - 1);
      var rest := chain[link - 1..];
      assert rest[0] == chain[link - 1] && rest[1..] == chain[link..];
      var b := Before(chain, link - 1);
      assert Flat(chain)[b..][|chain[link - 1]|..] == Flat(chain)[b + |chain[link - 1]|..];
    }
  }

  /** NGX_OK, the NGX_OK that skips the remaining elements, and NGX_ERROR. */
  datatype Rc = Ok | Early | Error

  /** A method's outcome is the one `r` describes; after an error only the code counts. */
  ghost predicate Agrees<T(!new)>(r: Result<T>, rc: Rc, value: T, pos: nat) {
    match r
    case Fail => rc == Error
    case Next(p, v) => rc == Ok && pos == p && value == v
    case Stop(p, v) => rc == Early && pos == p && value == v
  }

  class ReadCtx {
    const chain: seq<seq<Byte>>
    var link: nat
    var offset: nat

    predicate Valid()
      reads this
    {
      link < |chain| && offset <= |chain[link]|
    }

    /** The whole input and the position in it. */
    function Input(): seq<Byte> {
      Flat(chain)
    }

    function Pos(): (p: nat)
      requires Valid()
      reads this
      ensures p <= |Input()|
    {
      FlatAt(chain, link);
      assert chain[link..] == [chain[link]] + chain[link + 1..];
      Before(chain, link) + offset
    }

    constructor (chain: seq<seq<Byte>>)
      requires chain != []
      ensures Valid() && this.chain == chain && Pos() == 0
    {
      this.chain, link, offset := chain, 0, 0;
    }

    /** ngx_rtmp_amf_get: `n` bytes across buffer ends, or nothing if the input is too short. */
    method Get(n: nat) returns (ok: bool, p: seq<Byte>)
      requires Valid()
      modifies this
      ensures Valid() && ok == Has(Input(), old(Pos()), n)
      ensures ok ==> p == Input()[old(Pos())..old(Pos()) + n] && Pos() == old(Pos()) + n
      ensures !ok ==> Pos() == old(Pos())
    {
      if n == 0 {
        return true, [];
      }
      var l, off;
      ok, p, l, off := Collect(n);
      if ok {
        link, offset := l, off;
      }
    }

    /** The loop over the links; on success, the link and the offset behind the bytes. */
    method Collect(n: nat) returns (ok: bool, p: seq<Byte>, l: nat, off: nat)
      requires Valid() && n > 0
      ensures ok == Has(Input(), Pos(), n)
      ensures ok ==> l < |chain| && off <= |chain[l]| && Before(chain, l) + off == Pos() + n
                     && p == Input()[Pos()..Pos() + n]
    {
      p, l, off := [], link, offset;
      var left, links := n, chain;
      ghost var start, flat, now := Pos(), Input(), Pos();
      while l < |links|
        invariant l <= |links| && 0 < left && (if l < |links| then off <= |links[l]| else off == 0)
        invariant now == Before(links, l) + off && start + n == now + left && start <= now <= |flat|
        invariant p == flat[start..now]
      {
        var buf := links[l];
        if |buf| >= off + left {
          TakeFrom(links, l, off, off + left, start);
          return true, p + buf[off..off + left], l, off + left;
        }
        TakeFrom(links, l, off, |buf|, start);
        p := p + buf[off..|buf|];
        BeforeNext(links, l);
        now := Before(links, l) + |buf|;
        left := left - (|buf| - off);
        l, off := l + 1, 0;
      }
      FlatAt(links, |links|);
      ok := false;
    }

    // ------------------------------------------------------------ values

    method ReadScalarInto(dest: Dest, n: nat) returns (rc: Rc, filled: Dest)
      requires Valid()
      modifies this
      ensures Valid() && Agrees(ReadScalar(Input(), old(Pos()), dest, n), rc, filled, Pos())
    {
      var ok, buf := Get(n);
      if !ok {
        return Error, dest;
      }
      return Ok, Stored(dest, Reverse(buf));
    }

    method ReadStringInto(dest: Dest, len: nat) returns (rc: Rc, filled: Dest)
      requires Valid()
      modifies this
      ensures Valid() && Agrees(ReadString(Input(), old(Pos()), dest, len), rc, filled, Pos())
    {
      var ok, buf := Get(2);
      if !ok {
        return Error, dest;
      }
      var n := FromU16(buf);
      ghost var start := Pos();
      if !dest.Cell? {
        ok, buf := Get(n);
        return if ok then Ok else Error, dest;
      }
      if len == 0 {
        return Error, dest;
      }
      if len <= n {
        ok, buf := Get(len - 1);
        if !ok {
          return Error, dest;
        }
        var text := buf;
        ok, buf := Get(n - len + 1);
        assert ok ==> Input()[start..start + n][..len - 1] == text;
        return if ok then Ok else Error, Stored(dest, text + [0]);
      }
      ok, buf := Get(n);
      return if ok then Ok else Error, Stored(dest, buf + [0]);
    }

    method ReadBodyInto(kind: Kind, dest: Dest, len: nat) returns (rc: Rc, filled: Dest)
      requires Valid()
      modifies this
      ensures Valid() && Agrees(ReadBody(Input(), old(Pos()), kind, dest, len), rc, filled, Pos())
      decreases |Input()| - Pos(), 2, 0
    {
      match kind {
        case Int8 => rc, filled := ReadScalarInto(dest, 1);
        case Int16 => rc, filled := ReadScalarInto(dest, 2);
        case Int32 => rc, filled := ReadScalarInto(dest, 4);
        case Variant => rc, filled := ReadVariantInto(dest);
        case Plain(marker) =>
          if marker == NUMBER {
            rc, filled := ReadScalarInto(dest, 8);
          } else if marker == BOOLEAN {
            rc, filled := ReadScalarInto(dest, 1);
          } else if marker == STRING {
            rc, filled := ReadStringInto(dest, len);
          } else if marker == NULL || marker == ARRAY_NULL {
            rc, filled := Ok, dest;
          } else if marker == MIXED_ARRAY || marker == OBJECT {
            if marker == MIXED_ARRAY {
              var ok, _ := Get(4);
              if !ok {
                return Error, dest;
              }
            }
            var slots;
            rc, slots := ReadObjectInto(Nested(dest));
            filled := WithNested(dest, slots);
          } else if marker == ARRAY {
            var slots;
            rc, slots := ReadArrayInto(Nested(dest));
            filled := WithNested(dest, slots);
          } else if marker == END {
            rc, filled := Early, dest;
          } else {
            rc, filled := Error, dest;
          }
      }
    }

    /** One value for element `k`, or for none if there is no such element. */
    method ReadAtInto(slots: seq<Slot>, k: nat) returns (rc: Rc, filled: seq<Slot>)
      requires Valid()
      modifies this
      ensures Valid() && Agrees(ReadAt(Input(), old(Pos()), slots, k), rc, filled, Pos())
      decreases |Input()| - Pos(), 4, 0
    {
      var dest;
      if k < |slots| {
        rc, dest := ReadOneInto(Some(slots[k]));
        filled := slots[k := slots[k].(dest := dest)];
      } else {
        rc, dest := ReadOneInto(None);
        filled := slots;
      }
    }

    method ReadOneInto(slot: Option<Slot>) returns (rc: Rc, filled: Dest)
      requires Valid()
      modifies this
      ensures Valid() && Agrees(ReadOne(Input(), old(Pos()), slot), rc, filled, Pos())
      decreases |Input()| - Pos(), 3, 0
    {
      if slot.Some? && slot.value.typeless {
        if slot.value.optional || slot.value.context {
          return Error, slot.value.dest;
        }
        rc, filled := ReadBodyInto(slot.value.kind, slot.value.dest, slot.value.len);
        return;
      }
      var keep := if slot.Some? then slot.value.dest else NoDest;
      var ok, buf := Get(1);
      if !ok {
        return if slot.Some? && slot.value.optional then Early else Error, keep;
      }
      var marker := buf[0];
      if slot.None? {
        rc, filled := ReadBodyInto(Plain(marker), NoDest, 0);
      } else if !Compatible(slot.value.kind, marker) {
        rc, filled := ReadBodyInto(Plain(marker), NoDest, 0);
        filled := keep;
      } else if slot.value.context {
        keep := Saved(keep, Pos());
        rc, filled := ReadBodyInto(Plain(marker), NoDest, 0);
        filled := keep;
      } else {
        rc, filled := ReadBodyInto(Plain(marker), slot.value.dest, slot.value.len);
      }
    }

    method MaxNameLen(slots: seq<Slot>) returns (maxlen: nat)
      ensures forall i | 0 <= i < |slots| :: |slots[i].name| <= maxlen
    {
      maxlen := 0;
      for n := 0 to |slots|
        invariant forall i | 0 <= i < n :: |slots[i].name| <= maxlen
      {
        if |slots[n].name| > maxlen {
          maxlen := |slots[n].name|;
        }
      }
    }

    /** Reads a key of `len` bytes and searches its element. Of a key longer than any name only that
        much is kept; its length alone then rules out a match. */
    method ReadKey(slots: seq<Slot>, len: nat) returns (ok: bool, k: nat)
      requires Valid()
      modifies this
      ensures Valid() && ok == Has(Input(), old(Pos()), len)
      ensures ok ==> Pos() == old(Pos()) + len && k == FindKey(slots, Input()[old(Pos())..old(Pos()) + len])
    {
      var maxlen := MaxNameLen(slots);
      var name;
      k := 0;
      if len <= maxlen {
        ok, name := Get(len);
      } else {
        ok, name := Get(maxlen);
        if ok {
          var rest;
          ok, rest := Get(len - maxlen);
        }
      }
      if !ok {
        return;
      }
      ghost var key := Input()[old(Pos())..old(Pos()) + len];
      assert len <= maxlen ==> name == key;
      while k < |slots| && (len != |slots[k].name| || !StrnEqual(name, slots[k].name))
        invariant k <= |slots|
        invariant k + FindKey(slots[k..], key) == FindKey(slots, key)
      {
        assert slots[k..][1..] == slots[k + 1..];
        k := k + 1;
      }
    }

    method ReadObjectInto(slots0: seq<Slot>) returns (rc: Rc, slots: seq<Slot>)
      requires Valid()
      modifies this
      ensures Valid() && rc != Early && Agrees(ReadObject(Input(), old(Pos()), slots0), rc, slots, Pos())
      decreases |Input()| - Pos(), 1, 1
    {
      slots := slots0;
      ghost var goal := ReadObject(Input(), Pos(), slots0);
      var more := true;
      rc := Ok;
      while more
        invariant Valid() && (more ==> old(Pos()) <= Pos())
        invariant if more then ReadObject(Input(), Pos(), slots) == goal
                  else rc != Early && Agrees(goal, rc, slots, Pos())
        decreases more, |Input()| - Pos()
      {
        more, rc, slots := ReadFieldInto(slots);
      }
    }

    /** One field, or the end of the object in any of its forms. */
    method ReadFieldInto(slots0: seq<Slot>) returns (more: bool, rc: Rc, slots: seq<Slot>)
      requires Valid()
      modifies this
      ensures Valid()
      ensures if more then Pos() > old(Pos())
              && ReadObject(Input(), Pos(), slots) == ReadObject(Input(), old(Pos()), slots0)
              else rc != Early && Agrees(ReadObject(Input(), old(Pos()), slots0), rc, slots, Pos())
      decreases |Input()| - Pos(), 1, 0
    {
      slots := slots0;
      var ok, buf := Get(2);
      if !ok {
        return false, Ok, slots;
      }
      var n := FromU16(buf);
      if n == 0 {
        ok, buf := Get(1);
        return false, if ok && buf[0] == END then Ok else Error, slots;
      }
      var k;
      ok, k := ReadKey(slots, n);
      if !ok {
        return false, Error, slots;
      }
      ghost var r := ReadAt(Input(), Pos(), slots0, k);
      ObjectTurn(Input(), old(Pos()), slots0, n, k, r);
      rc, slots := ReadAtInto(slots, k);
      more := rc != Error;
    }

    method ReadArrayInto(slots0: seq<Slot>) returns (rc: Rc, slots: seq<Slot>)
      requires Valid()
      modifies this
      ensures Valid() && rc != Early
      ensures if Has(Input(), old(Pos()), 4) then
                Agrees(ReadItems(Input(), old(Pos()) + 4, slots0, 0,
                                 FromU32(Input()[old(Pos())..old(Pos()) + 4])), rc, slots, Pos())
              else rc == Error
      decreases |Input()| - Pos(), 1, 0
    {
      slots := slots0;
      var ok, buf := Get(4);
      if !ok {
        return Error, slots;
      }
      var count := FromU32(buf);
      ghost var goal := ReadItems(Input(), Pos(), slots0, 0, count);
      var i := 0;
      while i < count
        invariant Valid() && i <= count && old(Pos()) + 4 <= Pos()
        invariant ReadItems(Input(), Pos(), slots, i, count) == goal
      {
        rc, slots := ReadAtInto(slots, i);
        if rc == Error {
          return;
        }
        i := i + 1;
      }
      rc := Ok;
    }

    method ReadVariantInto(dest: Dest) returns (rc: Rc, filled: Dest)
      requires Valid()
      modifies this
      ensures Valid() && Agrees(ReadVariant(Input(), old(Pos()), dest), rc, filled, Pos())
      decreases |Input()| - Pos(), 1, 0
    {
      var ok, buf := Get(1);
      if !ok {
        return Error, dest;
      }
      var marker, slots := buf[0], Nested(dest);
      var k := LookUpAlternative(slots, marker);
      var d;
      if k < |slots| {
        rc, d := ReadBodyInto(Plain(marker), slots[k].dest, slots[k].len);
        filled := WithNested(dest, slots[k := slots[k].(dest := d)]);
      } else {
        rc, d := ReadBodyInto(Plain(marker), NoDest, 0);
        filled := dest;
      }
      if rc == Early {
        rc := Ok;
      }
    }

    /** The loop of read_variant: a later alternative overrides an earlier one. */
    method LookUpAlternative(slots: seq<Slot>, marker: Byte) returns (k: nat)
      ensures k == FindAlternative(slots, marker)
    {
      k := |slots|;
      for n := 0 to |slots|
        invariant if FindAlternative(slots[..n], marker) < n then k == FindAlternative(slots[..n], marker)
                  else k == |slots|
      {
        assert slots[..n + 1][..n] == slots[..n];
        if IsAlternative(slots[n], marker) {
          k := n;
        }
      }
      assert slots[..|slots|] == slots;
    }

    /** ngx_rtmp_amf_read */
    method ReadElts(slots0: seq<Slot>) returns (rc: Rc, slots: seq<Slot>)
      requires Valid()
      modifies this
      ensures Valid() && Agrees(ReadAll(Input(), old(Pos()), slots0, 0), rc, slots, Pos())
    {
      slots := slots0;
      ghost var goal := ReadAll(Input(), Pos(), slots0, 0);
      var k := 0;
      while k < |slots|
        invariant Valid() && k <= |slots| == |slots0|
        invariant ReadAll(Input(), Pos(), slots, k) == goal
      {
        rc, slots := ReadAtInto(slots, k);
        if rc != Ok {
          return;
        }
        k := k + 1;
      }
      rc := Ok;
    }
  }

  lemma {:induction false} InBuffer(flat: seq<Byte>, b: nat, buf: seq<Byte>, rest: seq<Byte>, off: nat, k: nat)
    requires b <= |flat| && flat[b..] == buf + rest && off <= k <= |buf|
    ensures b + k <= |flat| && flat[b + off..b + k] == buf[off..k]
  {
    assert |flat[b..]| == |flat| - b;
    forall i | off <= i < k ensures flat[b + i] == buf[i] {
      assert flat[b..][i] == (buf + rest)[i];
    }
  }

  lemma {:induction false} SlicesJoin(s: seq<Byte>, a: nat, b: nat, c: nat)
    requires a <= b <= c <= |s|
    ensures s[a..b] + s[b..c] == s[a..c]
  {
  }

  /** Taking [off, k) of buffer `l` extends what was taken since `start`. */
  lemma {:induction false} TakeFrom(chain: seq<seq<Byte>>, l: nat, off: nat, k: nat, start: nat)
    requires l < |chain| && off <= k <= |chain[l]| && start <= Before(chain, l) + off
    ensures Before(chain, l) + k <= |Flat(chain)|
    ensures Flat(chain)[start..Before(chain, l) + off] + chain[l][off..k] == Flat(chain)[start..Before(chain, l) + k]
  {
    FlatAt(chain, l);
    var b := Before(chain, l);
    InBuffer(Flat(chain), b, chain[l], Flat(chain[l..][1..]), off, k);
    SlicesJoin(Flat(chain), start, b + off, b + k);
  }

  lemma BeforeNext(chain: seq<seq<Byte>>, l: nat)
    requires l < |chain|
    ensures Before(chain, l + 1) == Before(chain, l) + |chain[l]|
  {
  }
}
