/** Chains of shared output buffers, all of one size (ngx_rtmp_append_shared_bufs). */
module SharedBufs {
  import opened Sequences
  import opened Bytes

  /** The bytes between pos and last, and the room between last and end. */
  datatype Buf = Buf(data: seq<Byte>, room: nat)

  function Content(chain: seq<Buf>): seq<Byte> {
    if chain == [] then [] else Content(chain[..|chain| - 1]) + chain[|chain| - 1].data
  }

  predicate NoneEmpty(chain: seq<Buf>) {
    forall b <- chain :: b.data != []
  }

  lemma ContentLast(front: seq<Buf>, b: Buf)
    ensures Content(front + [b]) == Content(front) + b.data
  {
    assert (front + [b])[..|front|] == front;
  }

  lemma {:induction false} ContentAppend(a: seq<Buf>, b: seq<Buf>)
    ensures Content(a + b) == Content(a) + Content(b)
  {
    if b == [] {
      assert a + b == a;
    } else {
      var front, last := b[..|b| - 1], b[|b| - 1];
      assert a + b == (a + front) + [last] && b == front + [last];
      ContentLast(a + front, last);
      ContentAppend(a, front);
    }
  }

  lemma {:induction false} ContentFirst(chain: seq<Buf>)
    requires chain != []
    ensures Content(chain) == chain[0].data + Content(chain[1..])
  {
    assert chain == [chain[0]] + chain[1..];
    ContentAppend([chain[0]], chain[1..]);
    assert [chain[0]][..0] == [];
  }

  /** `b` is the last buffer of a chain after `p` went into its room. */
  function Filled(b: Buf, p: seq<Byte>): (r: Buf)
    requires |p| <= b.room
    ensures |r.data| + r.room == |b.data| + b.room
  {
    Buf(b.data + p, b.room - |p|)
  }

  lemma {:induction false} Copied(front: seq<Buf>, b: Buf, p: seq<Byte>)
    requires |p| <= b.room
    ensures Content(front + [Filled(b, p)]) == Content(front + [b]) + p
  {
    ContentLast(front, b);
    ContentLast(front, Filled(b, p));
    Assoc(Content(front), b.data, p);
  }

  predicate FullBut(front: seq<Buf>, last: Buf, size: nat) {
    (forall b <- front :: |b.data| == size && b.room == 0) && |last.data| + last.room == size
  }

  /** One copy: into a fresh buffer if the last one is full, as much of `p` as fits. */
  method CopyIn(front0: seq<Buf>, last0: Buf, p: seq<Byte>, size: nat)
    returns (front: seq<Buf>, last: Buf, left: seq<Byte>)
    requires FullBut(front0, last0, size) && size > 0
    ensures FullBut(front, last, size)
    ensures Content(front + [last]) + left == Content(front0 + [last0]) + p
    ensures |left| <= |p| && (p != [] ==> |left| < |p| && last.data != []) && (p == [] ==> last == last0)
  {
    front, last := front0, last0;
    if last.room == 0 && p != [] {
      EmptyAdded(front + [last], size);
      front, last := front + [last], Buf([], size);
    }
    var n := if last.room >= |p| then |p| else last.room;
    Copied(front, last, p[..n]);
    SplitAt(Content(front + [last]), p, n);
    last, left := Filled(last, p[..n]), p[n..];
  }

  lemma EmptyAdded(chain: seq<Buf>, size: nat)
    ensures Content(chain + [Buf([], size)]) == Content(chain)
  {
    ContentLast(chain, Buf([], size));
  }

  lemma SplitAt(done: seq<Byte>, p: seq<Byte>, n: nat)
    requires n <= |p|
    ensures done + p[..n] + p[n..] == done + p
  {
  }

  /** One buffer of the input, into as many buffers as it takes. */
  method CopyAll(front0: seq<Buf>, last0: Buf, input: seq<Byte>, size: nat) returns (front: seq<Buf>, last: Buf)
    requires FullBut(front0, last0, size) && size > 0
    ensures FullBut(front, last, size)
    ensures Content(front + [last]) == Content(front0 + [last0]) + input
    ensures if input == [] then front == front0 && last == last0 else last.data != []
  {
    front, last := front0, last0;
    var p := input;
    while p != []
      invariant Content(front + [last]) + p == Content(front0 + [last0]) + input
      invariant FullBut(front, last, size)
      invariant if p == input then front == front0 && last == last0 else last.data != []
      decreases |p|
    {
      front, last, p := CopyIn(front, last, p, size);
    }
    assert Content(front + [last]) + [] == Content(front + [last]);
  }

  /** The input chain copied into buffers of `size` bytes, all of them full but the last one. */
  method CopyChain(input: seq<seq<Byte>>, size: nat) returns (front: seq<Buf>, last: Buf)
    requires size > 0
    ensures FullBut(front, last, size) && Content(front + [last]) == Flat(input)
    ensures last.data == [] ==> front == [] && Flat(input) == []
  {
    front, last := [], Buf([], size);
    ContentLast([], last);
    var i := 0;
    assert input[0..] == input;
    while i < |input|
      invariant i <= |input| && FullBut(front, last, size)
      invariant Content(front + [last]) + Flat(input[i..]) == Flat(input)
      invariant last.data == [] ==> front == [] && Flat(input[i..]) == Flat(input)
    {
      assert Flat(input[i..]) == input[i] + Flat(input[i + 1..]) by {
        assert input[i..][0] == input[i] && input[i..][1..] == input[i + 1..];
      }
      ghost var before := Content(front + [last]);
      front, last := CopyAll(front, last, input[i], size);
      assert before + (input[i] + Flat(input[i + 1..])) == before + input[i] + Flat(input[i + 1..]);
      i := i + 1;
    }
    assert input[i..] == [];
  }

  /** ngx_rtmp_append_shared_bufs with no head. */
  method AppendSharedBufs(input: seq<seq<Byte>>, size: nat) returns (out: seq<Buf>)
    requires size > 0
    ensures Content(out) == Flat(input) && out != []
    ensures Flat(input) != [] ==> NoneEmpty(out)
  {
    var front, last := CopyChain(input, size);
    out := front + [last];
  }
}
