/** A session's output: a ring of shared messages that is filled by priority and emptied by partial
    sends. */
module OutQueue {
  import opened Sequences
  import opened Bytes
  import opened Wrappers

  /** A message is a chain of shared buffers; none of them is empty. */
  type Id = int
  type Chain = c: seq<seq<Byte>> | c != [] && forall b <- c :: b != [] witness [[0]]

  /** Reference counts; a message that is not in the map was never made. */
  type Refs = map<Id, nat>

  function Count(refs: Refs, id: Id): nat {
    if id in refs then refs[id] else 0
  }

  function Acquired(refs: Refs, id: Id): Refs {
    refs[id := Count(refs, id) + 1]
  }

  /** ngx_rtmp_free_shared_chain, as far as the count goes. */
  function Released(refs: Refs, id: Id): Refs
    requires Count(refs, id) > 0
  {
    refs[id := Count(refs, id) - 1]
  }

  /** Every message has a reference for each time it is listed. */
  ghost predicate Covers(refs: Refs, ids: seq<Id>) {
    forall id: Id :: multiset(ids)[id] <= Count(refs, id)
  }

  lemma CoversFirst(refs: Refs, ids: seq<Id>)
    requires Covers(refs, ids) && ids != []
    ensures Count(refs, ids[0]) > 0
    ensures Covers(Released(refs, ids[0]), ids[1..])
  {
    var first, rest := ids[0], ids[1..];
    assert ids == [first] + rest;
    assert multiset(ids) == multiset{first} + multiset(rest);
    assert Count(refs, first) > 0;
    var refs1 := Released(refs, first);
    forall id: Id ensures multiset(rest)[id] <= Count(refs1, id) {
      assert multiset(ids)[id] <= Count(refs, id);
    }
  }

  /** Each listed message was released, as often as it is listed, and no other. */
  ghost predicate Lost(refs: Refs, ids: seq<Id>, refs1: Refs) {
    forall id: Id :: Count(refs1, id) + multiset(ids)[id] == Count(refs, id)
  }

  lemma LostMore(refs: Refs, a: seq<Id>, refs1: Refs, b: seq<Id>, refs2: Refs)
    requires Lost(refs, a, refs1) && Lost(refs1, b, refs2)
    ensures Lost(refs, a + b, refs2)
  {
    forall id: Id ensures Count(refs2, id) + multiset(a + b)[id] == Count(refs, id) {
      assert Count(refs1, id) + multiset(a)[id] == Count(refs, id);
    }
  }

  lemma LostOne(refs: Refs, id: Id)
    requires Count(refs, id) > 0
    ensures Lost(refs, [id], Released(refs, id))
  {
  }

  // --------------------------------------------------------------- ring

  function Next(i: nat, queue: nat): (n: nat)
    requires i < queue
    ensures n == (i + 1) % queue
  {
    if i + 1 == queue then 0 else i + 1
  }

  function Used(pos: nat, last: nat, queue: nat): nat
    requires pos < queue && last < queue
  {
    if pos <= last then last - pos else last + queue - pos
  }

  /** The occupied slots, the oldest first. */
  function Ring(out: seq<Id>, pos: nat, last: nat): (ids: seq<Id>)
    requires pos < |out| && last < |out|
    ensures |ids| == Used(pos, last, |out|)
    decreases Used(pos, last, |out|)
  {
    if pos == last then [] else [out[pos]] + Ring(out, Next(pos, |out|), last)
  }

  lemma {:induction false} RingPush(out: seq<Id>, pos: nat, last: nat, id: Id)
    requires pos < |out| && last < |out| && Used(pos, last, |out|) < |out| - 1
    ensures Ring(out[last := id], pos, Next(last, |out|)) == Ring(out, pos, last) + [id]
    decreases Used(pos, last, |out|)
  {
    var next := Next(last, |out|);
    if pos == last {
      assert Ring(out[last := id], next, next) == [];
    } else {
      RingPush(out, Next(pos, |out|), last, id);
    }
  }

  /** The number the drop rule works with. */
  lemma NumberOfMessages(pos: nat, last: nat, queue: nat)
    requires pos < queue && last < queue
    ensures (last + queue - pos) % queue == Used(pos, last, queue)
  {
    if pos <= last {
      assert last + queue - pos == queue + (last - pos);
    }
  }

  // ---------------------------------------------------------- priorities

  /** Whether a message of a priority (0 is the highest) goes into a ring with `used` slots taken. */
  predicate Accepts(used: nat, priority: nat, queue: nat) {
    used + 1 + (if priority > 3 then 3 else priority) * queue / 4 < queue
  }

  /** The code's test, on the ring's two positions. */
  lemma DropRule(pos: nat, last: nat, queue: nat, nmsg: nat, priority: nat, p: nat)
    requires pos < queue && last < queue && nmsg == (last + queue - pos) % queue + 1
    requires p == if priority > 3 then 3 else priority
    ensures nmsg + p * queue / 4 < queue <==> Accepts(Used(pos, last, queue), priority, queue)
    ensures nmsg + p * queue / 4 < queue ==> Used(pos, last, queue) + 1 < queue
  {
    NumberOfMessages(pos, last, queue);
    assert p * queue / 4 >= 0;
  }

  /** A slot always stays free, and what goes in goes in at any higher priority and in any emptier ring. */
  lemma AcceptsMonotone(used: nat, priority: nat, queue: nat, used1: nat, priority1: nat)
    requires Accepts(used, priority, queue) && used1 <= used && priority1 <= priority
    ensures Accepts(used1, priority1, queue) && used + 1 < queue
  {
    var p, p1 := if priority > 3 then 3 else priority, if priority1 > 3 then 3 else priority1;
    assert p1 * queue <= p * queue;
    assert p1 * queue / 4 <= p * queue / 4;
  }

  /** A message of a lower priority needs more of the ring free behind it: a quarter for each level, up to three. */
  lemma FreeQuarters(used: nat, priority: nat, queue: nat)
    requires used < queue
    ensures Accepts(used, priority, queue)
       <==> 4 * (queue - used - 1) > (if priority > 3 then 3 else priority) * queue
  {
  }

  // --------------------------------------------------------------- bytes

  function AllBytes(bytes: Id -> Chain, ids: seq<Id>): seq<Byte> {
    if ids == [] then [] else AllBytes(bytes, ids[..|ids| - 1]) + Flat(bytes(ids[|ids| - 1]))
  }

  lemma {:induction false} AllBytesFirst(bytes: Id -> Chain, ids: seq<Id>)
    requires ids != []
    ensures AllBytes(bytes, ids) == Flat(bytes(ids[0])) + AllBytes(bytes, ids[1..])
    decreases |ids|
  {
    var n := |ids| - 1;
    if n > 0 {
      AllBytesFirst(bytes, ids[..n]);
      assert ids[..n][1..] == ids[1..][..n - 1];
    } else {
      assert ids[..n] == [] && ids[1..] == [];
    }
  }

  lemma AllBytesPush(bytes: Id -> Chain, ids: seq<Id>, id: Id)
    ensures AllBytes(bytes, ids + [id]) == AllBytes(bytes, ids) + Flat(bytes(id))
  {
    assert (ids + [id])[..|ids|] == ids;
  }

  /** A send takes at least one byte, or fails. */
  type Size = n: int | n > 0 witness 1

  datatype Kernel = Took(n: Size) | Again | Error

  datatype Outcome = Drained | Blocked | Finalized

  /** The kernel takes part of what it is offered, `n` times in a row. */
  ghost predicate Takes(kernel: nat -> Kernel, n: nat) {
    forall i | 0 <= i < n :: kernel(i).Took?
  }

  /** How a write handler that ran or did not ends after `sends` sends that were taken. */
  ghost predicate Ends(o: Option<Outcome>, runs: bool, timedOut: bool, empty: bool, kernel: nat -> Kernel,
                       sends: nat)
  {
    && Takes(kernel, sends)
    && (o.Some? <==> runs)
    && (!runs || timedOut ==> sends == 0)
    && (o == Some(Drained) <==> runs && !timedOut && empty)
    && (o == Some(Blocked) <==> runs && !timedOut && !empty && kernel(sends).Again?)
    && (o == Some(Finalized) <==> runs && (timedOut || (!empty && kernel(sends).Error?)))
  }

  /** A kernel that never refuses gets everything, unless the write event timed out. */
  lemma NeverRefused(o: Option<Outcome>, runs: bool, timedOut: bool, empty: bool, kernel: nat -> Kernel, sends: nat)
    requires Ends(o, runs, timedOut, empty, kernel, sends) && kernel(sends).Took?
    ensures runs && !timedOut ==> o == Some(Drained)
  {
    if runs {
      var end := o.value;
      assert end == Drained || end == Blocked || end == Finalized;
    }
  }

  lemma TakesMore(kernel: nat -> Kernel, n: nat)
    requires Takes(kernel, n) && kernel(n).Took?
    ensures Takes(kernel, n + 1)
  {
  }

  class Pool {
    const bytes: Id -> Chain
    var refs: Refs

    constructor (bytes: Id -> Chain)
      ensures this.bytes == bytes && refs == map[]
    {
      this.bytes, refs := bytes, map[];
    }

    method Acquire(id: Id)
      modifies this
      ensures refs == Acquired(old(refs), id)
    {
      refs := Acquired(refs, id);
    }

    method Release(id: Id)
      requires Count(refs, id) > 0
      modifies this
      ensures refs == Released(old(refs), id)
    {
      refs := Released(refs, id);
    }
  }

  /** The queued messages, oldest first, and the place in the first of them where sending stopped:
      out_chain as the number of a buffer and out_bpos as an offset in it. */
  datatype Queue = Queue(ids: seq<Id>, chain: Option<nat>, bpos: nat)

  predicate WellPlaced(bytes: Id -> Chain, q: Queue) {
    q.chain.Some? ==>
      && q.ids != []
      && q.chain.value < |bytes(q.ids[0])|
      && q.bpos < |bytes(q.ids[0])[q.chain.value]|
  }

  /** From an offset in one buffer of a chain to the end of the chain. */
  function Left(bufs: seq<seq<Byte>>, k: nat, bpos: nat): seq<Byte>
    requires k < |bufs| && bpos <= |bufs[k]|
  {
    bufs[k][bpos..] + Flat(bufs[k + 1..])
  }

  /** The bytes of the queued messages that did not go out yet. */
  function Unsent(bytes: Id -> Chain, q: Queue): seq<Byte>
    requires WellPlaced(bytes, q)
  {
    if q.chain.None? then AllBytes(bytes, q.ids)
    else Left(bytes(q.ids[0]), q.chain.value, q.bpos) + AllBytes(bytes, q.ids[1..])
  }

  /** The invariant: every queued message is referenced, and what went out and what is still to go out
      is what was accepted. */
  ghost predicate Sound(bytes: Id -> Chain, q: Queue, refs: Refs, wire: seq<Byte>, accepted: seq<Id>) {
    && WellPlaced(bytes, q)
    && Covers(refs, q.ids)
    && wire + Unsent(bytes, q) == AllBytes(bytes, accepted)
  }

  lemma CoversPush(refs: Refs, ids: seq<Id>, id: Id)
    requires Covers(refs, ids)
    ensures Covers(Acquired(refs, id), ids + [id])
  {
    forall j: Id ensures multiset(ids + [id])[j] <= Count(Acquired(refs, id), j) {
      assert multiset(ids)[j] <= Count(refs, j);
    }
  }

  lemma UnsentPush(bytes: Id -> Chain, q: Queue, id: Id)
    requires WellPlaced(bytes, q)
    ensures WellPlaced(bytes, q.(ids := q.ids + [id]))
    ensures Unsent(bytes, q.(ids := q.ids + [id])) == Unsent(bytes, q) + Flat(bytes(id))
  {
    if q.chain.None? {
      AllBytesPush(bytes, q.ids, id);
    } else {
      assert (q.ids + [id])[1..] == q.ids[1..] + [id];
      AllBytesPush(bytes, q.ids[1..], id);
      Assoc(Left(bytes(q.ids[0]), q.chain.value, q.bpos), AllBytes(bytes, q.ids[1..]), Flat(bytes(id)));
    }
  }

  lemma EnqueueSound(bytes: Id -> Chain, q: Queue, refs: Refs, wire: seq<Byte>, accepted: seq<Id>, id: Id)
    requires Sound(bytes, q, refs, wire, accepted)
    ensures Sound(bytes, q.(ids := q.ids + [id]), Acquired(refs, id), wire, accepted + [id])
  {
    CoversPush(refs, q.ids, id);
    UnsentPush(bytes, q, id);
    AllBytesPush(bytes, accepted, id);
    Assoc(wire, Unsent(bytes, q), Flat(bytes(id)));
  }

  /** The kernel took `n` bytes of the current buffer. */
  function Advanced(bytes: Id -> Chain, q: Queue, n: nat): (q1: Queue)
    requires WellPlaced(bytes, q) && q.chain.Some?
    requires q.bpos + n <= |bytes(q.ids[0])[q.chain.value]|
    ensures WellPlaced(bytes, q1)
  {
    var bufs, k, b := bytes(q.ids[0]), q.chain.value, q.bpos + n;
    if b < |bufs[k]| then q.(bpos := b)
    else if k + 1 < |bufs| then Queue(q.ids, Some(k + 1), 0)
    else if |q.ids| == 1 then Queue([], None, b)
    else Queue(q.ids[1..], Some(0), 0)
  }

  lemma LeftStep(bufs: seq<seq<Byte>>, k: nat, from: nat, to: nat)
    requires k < |bufs| && from <= to <= |bufs[k]|
    ensures Left(bufs, k, from) == bufs[k][from..to] + LeftAfter(bufs, k, to)
  {
    assert bufs[k][from..] == bufs[k][from..to] + bufs[k][to..];
    Assoc(bufs[k][from..to], bufs[k][to..], Flat(bufs[k + 1..]));
    if to == |bufs[k]| && k + 1 < |bufs| {
      assert bufs[k + 1..][0] == bufs[k + 1] && bufs[k + 1..][1..] == bufs[k + 2..];
    }
  }

  /** What is left of the first message after a send. */
  function LeftAfter(bufs: seq<seq<Byte>>, k: nat, b: nat): seq<Byte>
    requires k < |bufs| && b <= |bufs[k]|
  {
    if b < |bufs[k]| then Left(bufs, k, b) else if k + 1 < |bufs| then Left(bufs, k + 1, 0) else []
  }

  lemma UnsentAfter(bytes: Id -> Chain, q: Queue, n: nat)
    requires WellPlaced(bytes, q) && q.chain.Some?
    requires q.bpos + n <= |bytes(q.ids[0])[q.chain.value]|
    ensures Unsent(bytes, Advanced(bytes, q, n))
         == LeftAfter(bytes(q.ids[0]), q.chain.value, q.bpos + n) + AllBytes(bytes, q.ids[1..])
  {
    var bufs, k, b, rest := bytes(q.ids[0]), q.chain.value, q.bpos + n, AllBytes(bytes, q.ids[1..]);
    if b == |bufs[k]| && k + 1 == |bufs| {
      assert [] + rest == rest;
      StartUnsent(bytes, q.ids[1..]);
    } else {
      var q1 := Advanced(bytes, q, n);
      assert q1.ids == q.ids && q1.chain.Some?;
      assert Unsent(bytes, q1) == Left(bufs, q1.chain.value, q1.bpos) + rest;
    }
  }

  lemma AdvancedUnsent(bytes: Id -> Chain, q: Queue, n: nat)
    requires WellPlaced(bytes, q) && q.chain.Some?
    requires q.bpos + n <= |bytes(q.ids[0])[q.chain.value]|
    ensures var buf := bytes(q.ids[0])[q.chain.value];
            Unsent(bytes, q) == buf[q.bpos..q.bpos + n] + Unsent(bytes, Advanced(bytes, q, n))
  {
    var bufs, k, b := bytes(q.ids[0]), q.chain.value, q.bpos + n;
    LeftStep(bufs, k, q.bpos, b);
    UnsentAfter(bytes, q, n);
    Assoc(bufs[k][q.bpos..b], LeftAfter(bufs, k, b), AllBytes(bytes, q.ids[1..]));
  }

  /** Sending starts at the first byte of the first message. */
  lemma StartUnsent(bytes: Id -> Chain, ids: seq<Id>)
    ensures ids != [] ==> Unsent(bytes, Queue(ids, Some(0), 0)) == AllBytes(bytes, ids)
  {
    if ids != [] {
      var bufs := bytes(ids[0]);
      AllBytesFirst(bytes, ids);
      assert bufs[0][0..] == bufs[0];
    }
  }

  /** The references after the step: the first message loses one when its last byte goes out. */
  function RefsAfter(bytes: Id -> Chain, q: Queue, refs: Refs, n: nat): Refs
    requires WellPlaced(bytes, q) && q.chain.Some? && Count(refs, q.ids[0]) > 0
    requires q.bpos + n <= |bytes(q.ids[0])[q.chain.value]|
  {
    if Advanced(bytes, q, n).ids == q.ids then refs else Released(refs, q.ids[0])
  }

  lemma AdvanceSound(bytes: Id -> Chain, q: Queue, refs: Refs, wire: seq<Byte>, accepted: seq<Id>, n: nat)
    requires Sound(bytes, q, refs, wire, accepted) && q.chain.Some?
    requires q.bpos + n <= |bytes(q.ids[0])[q.chain.value]|
    ensures Count(refs, q.ids[0]) > 0
    ensures var buf := bytes(q.ids[0])[q.chain.value];
            Sound(bytes, Advanced(bytes, q, n), RefsAfter(bytes, q, refs, n), wire + buf[q.bpos..q.bpos + n], accepted)
  {
    CoversFirst(refs, q.ids);
    AdvancedUnsent(bytes, q, n);
    Assoc(wire, bytes(q.ids[0])[q.chain.value][q.bpos..q.bpos + n], Unsent(bytes, Advanced(bytes, q, n)));
  }

  lemma StartSound(bytes: Id -> Chain, ids: seq<Id>, bpos: nat, refs: Refs, wire: seq<Byte>, accepted: seq<Id>)
    requires Sound(bytes, Queue(ids, None, bpos), refs, wire, accepted) && ids != []
    ensures Sound(bytes, Queue(ids, Some(0), 0), refs, wire, accepted)
  {
    StartUnsent(bytes, ids);
  }

  /** The state after one send, with the message that is finished by it, if one is. */
  lemma Transmitted(bytes: Id -> Chain, q: Queue, refs: Refs, wire: seq<Byte>, accepted: seq<Id>, n: nat)
    returns (q1: Queue, refs1: Refs, wire1: seq<Byte>, gone: seq<Id>)
    requires Sound(bytes, q, refs, wire, accepted) && q.chain.Some?
    requires 0 < n && q.bpos + n <= |bytes(q.ids[0])[q.chain.value]|
    ensures Count(refs, q.ids[0]) > 0
    ensures q1 == Advanced(bytes, q, n) && refs1 == RefsAfter(bytes, q, refs, n)
    ensures wire1 == wire + bytes(q.ids[0])[q.chain.value][q.bpos..q.bpos + n] && wire < wire1
    ensures Sound(bytes, q1, refs1, wire1, accepted)
    ensures q.ids == gone + q1.ids && Lost(refs, gone, refs1)
    ensures q1.chain == None ==> q1.ids == []
    ensures |Unsent(bytes, q1)| < |Unsent(bytes, q)|
  {
    AdvanceSound(bytes, q, refs, wire, accepted, n);
    AdvancedUnsent(bytes, q, n);
    q1, refs1 := Advanced(bytes, q, n), RefsAfter(bytes, q, refs, n);
    wire1 := wire + bytes(q.ids[0])[q.chain.value][q.bpos..q.bpos + n];
    gone := GoneAfter(bytes, q, refs, n);
  }

  lemma GoneAfter(bytes: Id -> Chain, q: Queue, refs: Refs, n: nat) returns (gone: seq<Id>)
    requires WellPlaced(bytes, q) && q.chain.Some? && Count(refs, q.ids[0]) > 0
    requires q.bpos + n <= |bytes(q.ids[0])[q.chain.value]|
    ensures q.ids == gone + Advanced(bytes, q, n).ids && Lost(refs, gone, RefsAfter(bytes, q, refs, n))
    ensures Advanced(bytes, q, n).chain == None ==> Advanced(bytes, q, n).ids == []
  {
    LostOne(refs, q.ids[0]);
    gone := if Advanced(bytes, q, n).ids == q.ids then [] else [q.ids[0]];
  }

  lemma NothingUnsent(bytes: Id -> Chain, q: Queue)
    requires WellPlaced(bytes, q) && q.ids == []
    ensures Unsent(bytes, q) == []
  {
  }

  class Session {
    const pool: Pool
    const out: array<Id>
    const outBuffer: bool
    const cork: nat
    var pos: nat
    var last: nat
    var chain: Option<nat>
    var bpos: nat
    /** What the kernel took, and what was accepted, from the beginning. */
    ghost var wire: seq<Byte>
    ghost var accepted: seq<Id>

    ghost predicate Valid()
      reads this, out, pool
    {
      && pos < out.Length && last < out.Length
      && Sound(pool.bytes, View(), pool.refs, wire, accepted)
    }

    function View(): Queue
      requires pos < out.Length && last < out.Length
      reads this, out
    {
      Queue(Ring(out[..], pos, last), chain, bpos)
    }

    constructor (pool: Pool, queue: nat, outBuffer: bool, cork: nat)
      requires queue > 0
      ensures Valid() && fresh(out) && this.pool == pool && out.Length == queue
      ensures View() == Queue([], None, 0) && wire == [] && accepted == []
      ensures this.outBuffer == outBuffer && this.cork == cork
    {
      this.pool, this.outBuffer, this.cork := pool, outBuffer, cork;
      out := new Id[queue](_ => 0);
      pos, last, chain, bpos := 0, 0, None, 0;
      wire, accepted := [], [];
    }

    /** s->out[s->out_last++] = out; s->out_last %= s->out_queue */
    method Push(id: Id)
      requires pos < out.Length && last < out.Length && Used(pos, last, out.Length) + 1 < out.Length
      modifies this`last, out
      ensures last < out.Length && View() == Queue(old(View()).ids + [id], chain, bpos)
    {
      ghost var slots := out[..];
      RingPush(slots, pos, last, id);
      out[last] := id;
      last := (last + 1) % out.Length;
      assert out[..] == slots[old(last) := id];
    }

    /** The message goes into the ring and gains a reference. */
    method Enqueue(id: Id)
      requires pos < out.Length && last < out.Length && Used(pos, last, out.Length) + 1 < out.Length
      modifies this`last, this`accepted, out, pool
      ensures accepted == old(accepted) + [id] && pool.refs == Acquired(old(pool.refs), id)
      ensures last < out.Length && View() == Queue(old(View()).ids + [id], chain, bpos)
    {
      pool.Acquire(id);
      accepted := accepted + [id];
      Push(id);
    }

    /** What happens after the kernel took `n` bytes. */
    method Advance(n: nat, ghost q: Queue)
      requires pos < out.Length && last < out.Length && q == View() && WellPlaced(pool.bytes, q) && chain.Some?
      requires Count(pool.refs, q.ids[0]) > 0 && q.bpos + n <= |pool.bytes(q.ids[0])[q.chain.value]|
      modifies this`pos, this`chain, this`bpos, this`wire, pool
      ensures pos < out.Length && View() == Advanced(pool.bytes, q, n)
      ensures pool.refs == RefsAfter(pool.bytes, q, old(pool.refs), n)
      ensures wire == old(wire) + pool.bytes(q.ids[0])[q.chain.value][q.bpos..q.bpos + n]
    {
      var bufs, k := pool.bytes(out[pos]), chain.value;
      wire := wire + bufs[k][bpos..bpos + n];
      bpos := bpos + n;
      if bpos == |bufs[k]| {
        chain := if k + 1 < |bufs| then Some(k + 1) else None;
        if chain.None? {
          pool.Release(out[pos]);
          pos := (pos + 1) % out.Length;
          if pos == last {
            return;
          }
          chain := Some(0);
        }
        bpos := 0;
      }
    }

    /** One send: the kernel takes `n` of the bytes it is offered. `gone` is the message that is finished
        by it, if one is. */
    method Transmit(n: nat) returns (ghost gone: seq<Id>)
      requires Valid() && chain.Some? && 0 < n <= |pool.bytes(out[pos])[chain.value]| - bpos
      modifies this`pos, this`chain, this`bpos, this`wire, pool
      ensures Valid() && old(wire) < wire && |wire| == old(|wire|) + n
      ensures old(View()).ids == gone + View().ids && Lost(old(pool.refs), gone, pool.refs)
      ensures chain == None ==> pos == last
      ensures |Unsent(pool.bytes, View())| < old(|Unsent(pool.bytes, View())|)
    {
      ghost var q, q1, refs1, wire1 := View(), View(), pool.refs, wire;
      q1, refs1, wire1, gone := Transmitted(pool.bytes, q, pool.refs, wire, accepted, n);
      Advance(n, q);
      assert View() == q1 && pool.refs == refs1 && wire == wire1;
    }

    /** out_chain is set at the first message if nothing is being sent. */
    method Start()
      requires Valid()
      modifies this`chain, this`bpos
      ensures Valid() && View().ids == old(View()).ids
      ensures chain == None ==> pos == last
    {
      if chain == None && pos != last {
        StartSound(pool.bytes, View().ids, bpos, pool.refs, wire, accepted);
        chain, bpos := Some(0), 0;
      }
    }

    /** c->send is offered the rest of the current buffer, and takes as much of it as it can. */
    method Offer(r: Kernel) returns (ghost gone: seq<Id>)
      requires Valid() && chain.Some? && r.Took?
      modifies this`pos, this`chain, this`bpos, this`wire, pool
      ensures Valid() && old(wire) < wire && |wire| <= old(|wire|) + r.n
      ensures |wire| < old(|wire|) + r.n ==> |wire| == old(|wire| + |pool.bytes(out[pos])[chain.value]| - bpos)
      ensures old(View()).ids == gone + View().ids && Lost(old(pool.refs), gone, pool.refs)
      ensures chain == None ==> pos == last
      ensures |Unsent(pool.bytes, View())| < old(|Unsent(pool.bytes, View())|)
    {
      var size := |pool.bytes(out[pos])[chain.value]| - bpos;
      var n := if r.n < size then r.n else size;
      gone := Transmit(n);
    }

    /** The loop of the write handler; the first `sends` sends were taken. */
    method Drain(kernel: nat -> Kernel) returns (o: Outcome, ghost gone: seq<Id>, ghost sends: nat)
      requires Valid() && (chain == None ==> pos == last)
      modifies this`pos, this`chain, this`bpos, this`wire, pool
      ensures Valid() && old(wire) <= wire && (sends == 0 ==> wire == old(wire))
      ensures old(View()).ids == gone + View().ids && Lost(old(pool.refs), gone, pool.refs)
      ensures Takes(kernel, sends)
      ensures o == Drained <==> chain == None
      ensures o == Drained ==> pos == last
      ensures o != Drained ==> !kernel(sends).Took?
      ensures o == Blocked ==> kernel(sends).Again?
      ensures o == Finalized ==> kernel(sends).Error?
    {
      gone := [];
      ghost var ids, refs0 := View().ids, pool.refs;
      assert ids == gone + ids;
      var calls := 0;
      while chain.Some?
        invariant Valid() && old(wire) <= wire && (calls == 0 ==> wire == old(wire))
        invariant chain == None ==> pos == last
        invariant ids == gone + View().ids && Lost(refs0, gone, pool.refs)
        invariant Takes(kernel, calls)
        decreases |Unsent(pool.bytes, View())|
      {
        var r := kernel(calls);
        if !r.Took? {
          return if r == Again then Blocked else Finalized, gone, calls;
        }
        TakesMore(kernel, calls);
        calls := calls + 1;
        ghost var ids1, refs1 := View().ids, pool.refs;
        ghost var more := Offer(r);
        gone := GoneMore(ids, refs0, gone, ids1, refs1, more, View().ids, pool.refs);
      }
      o, sends := Drained, calls;
    }

    /** The write handler when the write event is no timeout. */
    method Flush(kernel: nat -> Kernel) returns (o: Outcome, ghost gone: seq<Id>, ghost sends: nat)
      requires Valid()
      modifies this`pos, this`chain, this`bpos, this`wire, pool
      ensures Valid() && old(wire) <= wire
      ensures old(View()).ids == gone + View().ids && Lost(old(pool.refs), gone, pool.refs)
      ensures Ends(Some(o), true, false, pos == last, kernel, sends)
      ensures sends == 0 ==> wire == old(wire)
      ensures o == Drained ==> wire == AllBytes(pool.bytes, accepted)
    {
      Start();
      o, gone, sends := Drain(kernel);
      if o == Drained {
        NothingUnsent(pool.bytes, View());
      }
    }

    /** ngx_http_flv_live_write_handler: sends until the queue is empty or the kernel takes no more. The messages
        of `gone` went out in full, and the first `sends` sends were taken: a send that would block leaves the
        rest for later, one that fails ends the session, and so does a timeout, before anything is sent. */
    method WriteHandler(timedOut: bool, kernel: nat -> Kernel)
      returns (o: Outcome, ghost gone: seq<Id>, ghost sends: nat)
      requires Valid()
      modifies this`pos, this`chain, this`bpos, this`wire, pool
      ensures Valid() && old(wire) <= wire
      ensures old(View()).ids == gone + View().ids && Lost(old(pool.refs), gone, pool.refs)
      ensures Takes(kernel, sends)
      ensures sends == 0 ==> wire == old(wire)
      ensures timedOut ==> o == Finalized && sends == 0
      ensures !timedOut ==> (o == Drained <==> pos == last)
      ensures o == Drained ==> wire == AllBytes(pool.bytes, accepted)
      ensures o == Blocked <==> !timedOut && pos != last && kernel(sends).Again?
      ensures o == Finalized <==> timedOut || (pos != last && kernel(sends).Error?)
    {
      if timedOut {
        gone, sends := [], 0;
        assert View().ids == gone + View().ids;
        return Finalized, gone, sends;
      }
      o, gone, sends := Flush(kernel);
    }

    /** A message that was accepted, with its reference. */
    method Accept(id: Id)
      requires Valid() && Used(pos, last, out.Length) + 1 < out.Length
      modifies this`last, this`accepted, out, pool
      ensures Valid() && wire == old(wire) && accepted == old(accepted) + [id]
      ensures pool.refs == Acquired(old(pool.refs), id) && View().ids == old(View()).ids + [id]
    {
      EnqueueSound(pool.bytes, View(), pool.refs, wire, accepted, id);
      Enqueue(id);
    }

    method MaybeWrite(now: bool, timedOut: bool, kernel: nat -> Kernel)
      returns (o: Option<Outcome>, ghost gone: seq<Id>, ghost sends: nat)
      requires Valid()
      modifies this`pos, this`chain, this`bpos, this`wire, pool
      ensures Valid() && old(wire) <= wire
      ensures old(View()).ids == gone + View().ids && Lost(old(pool.refs), gone, pool.refs)
      ensures Ends(o, now, timedOut, pos == last, kernel, sends)
      ensures sends == 0 ==> wire == old(wire)
      ensures o == None ==> gone == []
      ensures o == Some(Drained) ==> wire == AllBytes(pool.bytes, accepted)
    {
      if now {
        var end;
        end, gone, sends := WriteHandler(timedOut, kernel);
        o := Some(end);
      } else {
        o, gone, sends := None, [], 0;
        assert View().ids == gone + View().ids;
      }
    }

    method Deliver(id: Id, now: bool, timedOut: bool, kernel: nat -> Kernel)
      returns (o: Option<Outcome>, ghost gone: seq<Id>, ghost sends: nat)
      requires Valid() && Used(pos, last, out.Length) + 1 < out.Length
      modifies this, out, pool
      ensures Valid() && old(wire) <= wire && accepted == old(accepted) + [id]
      ensures old(View()).ids + [id] == gone + View().ids && Lost(Acquired(old(pool.refs), id), gone, pool.refs)
      ensures Ends(o, now, timedOut, pos == last, kernel, sends)
      ensures sends == 0 ==> wire == old(wire)
      ensures o == None ==> gone == []
      ensures o == Some(Drained) ==> wire == AllBytes(pool.bytes, accepted)
    {
      Accept(id);
      o, gone, sends := MaybeWrite(now, timedOut, kernel);
    }

    /** Whether a message goes into the ring, and whether the write handler runs behind it. */
    method Consider(priority: nat, writeActive: bool) returns (fits: bool, now: bool)
      requires pos < out.Length && last < out.Length
      ensures fits == Accepts(Used(pos, last, out.Length), priority, out.Length)
      ensures fits ==> Used(pos, last, out.Length) + 1 < out.Length
      ensures now <==> !writeActive && (priority == 0 || !outBuffer || Used(pos, last, out.Length) + 1 >= cork)
    {
      var nmsg := (last + out.Length - pos) % out.Length + 1;
      var p := if priority > 3 then 3 else priority;
      DropRule(pos, last, out.Length, nmsg, priority, p);
      NumberOfMessages(pos, last, out.Length);
      fits := nmsg + p * out.Length / 4 < out.Length;
      var waits := p > 0 && outBuffer && nmsg < cork;
      now := !waits && !writeActive;
    }

    /** ngx_http_flv_live_send_message; the write handler runs, with outcome `o`, unless the message waits for more
        or a write event is pending. */
    method SendMessage(id: Id, priority: nat, writeActive: bool, timedOut: bool, kernel: nat -> Kernel)
      returns (queued: bool, o: Option<Outcome>, ghost gone: seq<Id>, ghost sends: nat)
      requires Valid()
      modifies this, out, pool
      ensures Valid() && old(wire) <= wire
      ensures queued == Accepts(|old(View()).ids|, priority, out.Length)
      ensures !queued ==> View() == old(View()) && pool.refs == old(pool.refs)
                          && wire == old(wire) && accepted == old(accepted)
      ensures queued ==> accepted == old(accepted) + [id]
                         && old(View()).ids + [id] == gone + View().ids
                         && Lost(Acquired(old(pool.refs), id), gone, pool.refs)
      ensures Ends(o, queued && !writeActive && (priority == 0 || !outBuffer || |old(View()).ids| + 1 >= cork),
                   timedOut, pos == last, kernel, sends)
      ensures sends == 0 ==> wire == old(wire)
      ensures o == None ==> gone == []
      ensures o == Some(Drained) ==> wire == AllBytes(pool.bytes, accepted)
    {
      var fits, now := Consider(priority, writeActive);
      if !fits {
        return false, None, [], 0;
      }
      o, gone, sends := Deliver(id, now, timedOut, kernel);
      queued := true;
    }

    /** The oldest message leaves the ring. */
    method DropFirst()
      requires pos < out.Length && last < out.Length && pos != last && Count(pool.refs, View().ids[0]) > 0
      modifies this`pos, pool
      ensures pos < out.Length && View().ids == old(View()).ids[1..]
      ensures pool.refs == Released(old(pool.refs), old(View()).ids[0])
    {
      pool.Release(out[pos]);
      pos := (pos + 1) % out.Length;
    }

    /** The loop of ngx_http_flv_live_close_session_handler: each queued message is released once. */
    method Close()
      requires Valid()
      modifies this`pos, pool
      ensures pos == last && Lost(old(pool.refs), old(View()).ids, pool.refs)
      ensures wire == old(wire) && accepted == old(accepted)
    {
      ReleaseQueued();
    }

    method ReleaseQueued()
      requires pos < out.Length && last < out.Length && Covers(pool.refs, View().ids)
      modifies this`pos, pool
      ensures pos == last && Lost(old(pool.refs), old(View()).ids, pool.refs)
    {
      ghost var ids, refs0 := View().ids, pool.refs;
      ghost var gone: seq<Id> := [];
      assert ids == gone + ids;
      while pos != last
        invariant pos < out.Length && last < out.Length
        invariant ids == gone + View().ids && Lost(refs0, gone, pool.refs)
        invariant Covers(pool.refs, View().ids)
        decreases |View().ids|
      {
        ghost var ids1, refs1 := View().ids, pool.refs;
        CoversFirst(refs1, ids1);
        DropFirst();
        gone := GoneOne(ids, refs0, gone, ids1, refs1);
      }
      assert gone + [] == gone;
    }
  }

  lemma GoneOne(ids: seq<Id>, refs: Refs, a: seq<Id>, ids1: seq<Id>, refs1: Refs) returns (gone: seq<Id>)
    requires ids == a + ids1 && Lost(refs, a, refs1) && ids1 != [] && Count(refs1, ids1[0]) > 0
    ensures ids == gone + ids1[1..] && Lost(refs, gone, Released(refs1, ids1[0]))
  {
    LostOne(refs1, ids1[0]);
    gone := GoneMore(ids, refs, a, ids1, refs1, [ids1[0]], ids1[1..], Released(refs1, ids1[0]));
  }

  lemma GoneMore(ids: seq<Id>, refs: Refs, a: seq<Id>, ids1: seq<Id>, refs1: Refs, b: seq<Id>, ids2: seq<Id>,
                 refs2: Refs)
    returns (gone: seq<Id>)
    requires ids == a + ids1 && Lost(refs, a, refs1) && ids1 == b + ids2 && Lost(refs1, b, refs2)
    ensures ids == gone + ids2 && Lost(refs, gone, refs2)
  {
    gone := a + b;
    LostMore(refs, a, refs1, b, refs2);
  }
}
