/** The reference counts over all sessions: who may hold a message, and when its storage is free. */
module SharedMessages {
  import opened OutQueue
  import opened Wrappers

  /** `holders` are the references of code that made a message and did not free it yet; `made` and `freed`
      count how often each chain left and re-entered the free list. */
  datatype Hub = Hub(refs: Refs, holders: multiset<Id>, queues: seq<seq<Id>>, made: multiset<Id>, freed: multiset<Id>)

  /** append_shared_bufs; send_message on a session; the oldest message of a session leaves its ring, sent
      or at the closing of the session; free_message. */
  datatype Event = Make(id: Id) | Accept(s: nat, id: Id) | Leave(s: nat) | Free(id: Id)

  predicate Enabled(h: Hub, e: Event) {
    match e
    case Make(id) => Count(h.refs, id) == 0
    case Accept(s, id) => s < |h.queues| && id in h.holders
    case Leave(s) => s < |h.queues| && h.queues[s] != [] && Count(h.refs, h.queues[s][0]) > 0
    case Free(id) => id in h.holders && Count(h.refs, id) > 0
  }

  function Release(h: Hub, id: Id): Hub
    requires Count(h.refs, id) > 0
  {
    var refs := Released(h.refs, id);
    h.(refs := refs, freed := h.freed + if Count(refs, id) == 0 then multiset{id} else multiset{})
  }

  function Step(h: Hub, e: Event): Hub
    requires Enabled(h, e)
  {
    match e
    case Make(id) => h.(refs := h.refs[id := 1], holders := h.holders + multiset{id}, made := h.made + multiset{id})
    case Accept(s, id) => h.(refs := Acquired(h.refs, id), queues := h.queues[s := h.queues[s] + [id]])
    case Leave(s) => Release(h.(queues := h.queues[s := h.queues[s][1..]]), h.queues[s][0])
    case Free(id) => Release(h.(holders := h.holders - multiset{id}), id)
  }

  /** The number of slots that hold a message. */
  function Slots(queues: seq<seq<Id>>, id: Id): nat {
    if queues == [] then 0 else multiset(queues[0])[id] + Slots(queues[1..], id)
  }

  lemma {:induction false} SlotsUpdate(queues: seq<seq<Id>>, s: nat, q: seq<Id>, id: Id)
    requires s < |queues|
    ensures Slots(queues[s := q], id) + multiset(queues[s])[id] == Slots(queues, id) + multiset(q)[id]
  {
    if s == 0 {
      assert queues[0 := q][1..] == queues[1..];
    } else {
      assert queues[s := q][1..] == queues[1..][s - 1 := q];
      SlotsUpdate(queues[1..], s - 1, q, id);
    }
  }

  lemma {:induction false} SlotsHold(queues: seq<seq<Id>>, s: nat, id: Id)
    requires s < |queues|
    ensures multiset(queues[s])[id] <= Slots(queues, id)
  {
    if s > 0 {
      SlotsHold(queues[1..], s - 1, id);
    }
  }

  /** Each count is the outside holders plus the slots, and the storage is in use while it is not 0. */
  ghost predicate Balanced(h: Hub) {
    && (forall id: Id :: Count(h.refs, id) == h.holders[id] + Slots(h.queues, id))
    && (forall id: Id :: h.made[id] == h.freed[id] + if Count(h.refs, id) > 0 then 1 else 0)
  }

  lemma ReleaseBalanced(h: Hub, id: Id)
    requires forall j: Id :: Count(h.refs, j) == h.holders[j] + Slots(h.queues, j) + if j == id then 1 else 0
    requires forall j: Id :: h.made[j] == h.freed[j] + if Count(h.refs, j) > 0 then 1 else 0
    ensures Count(h.refs, id) > 0 && Balanced(Release(h, id))
  {
    var h1 := Release(h, id);
    forall j: Id ensures Count(h1.refs, j) == h1.holders[j] + Slots(h1.queues, j)
                         && h1.made[j] == h1.freed[j] + if Count(h1.refs, j) > 0 then 1 else 0
    {
      assert Count(h.refs, j) == h.holders[j] + Slots(h.queues, j) + if j == id then 1 else 0;
      assert h.made[j] == h.freed[j] + if Count(h.refs, j) > 0 then 1 else 0;
    }
  }

  /** Every step keeps the balance; in particular no count ever has to go below 0. */
  lemma StepBalanced(h: Hub, e: Event)
    requires Balanced(h)
    requires match e
             case Leave(s) => s < |h.queues| && h.queues[s] != []
             case Free(id) => id in h.holders
             case _ => Enabled(h, e)
    ensures Enabled(h, e) && Balanced(Step(h, e))
  {
    match e
    case Make(id) => MakeBalanced(h, id);
    case Accept(s, id) => AcceptBalanced(h, s, id);
    case Leave(s) => LeaveBalanced(h, s);
    case Free(id) => FreeBalanced(h, id);
  }

  lemma LeaveBalanced(h: Hub, s: nat)
    requires Balanced(h) && s < |h.queues| && h.queues[s] != []
    ensures Enabled(h, Leave(s)) && Balanced(Step(h, Leave(s)))
  {
    var q := h.queues[s];
    var h1 := h.(queues := h.queues[s := q[1..]]);
    assert q == [q[0]] + q[1..];
    forall j: Id ensures Count(h1.refs, j) == h1.holders[j] + Slots(h1.queues, j) + if j == q[0] then 1 else 0 {
      SlotsUpdate(h.queues, s, q[1..], j);
      assert Count(h.refs, j) == h.holders[j] + Slots(h.queues, j);
    }
    ReleaseBalanced(h1, q[0]);
  }

  lemma FreeBalanced(h: Hub, id: Id)
    requires Balanced(h) && id in h.holders
    ensures Enabled(h, Free(id)) && Balanced(Step(h, Free(id)))
  {
    var h1 := h.(holders := h.holders - multiset{id});
    forall j: Id ensures Count(h1.refs, j) == h1.holders[j] + Slots(h1.queues, j) + if j == id then 1 else 0 {
      assert Count(h.refs, j) == h.holders[j] + Slots(h.queues, j);
    }
    ReleaseBalanced(h1, id);
  }

  lemma MakeBalanced(h: Hub, id: Id)
    requires Balanced(h) && Count(h.refs, id) == 0
    ensures Balanced(Step(h, Make(id)))
  {
    var h1 := Step(h, Make(id));
    forall j: Id ensures Count(h1.refs, j) == h1.holders[j] + Slots(h1.queues, j)
                         && h1.made[j] == h1.freed[j] + if Count(h1.refs, j) > 0 then 1 else 0
    {
      assert Count(h.refs, j) == h.holders[j] + Slots(h.queues, j);
      assert h.made[j] == h.freed[j] + if Count(h.refs, j) > 0 then 1 else 0;
    }
  }

  lemma AcceptBalanced(h: Hub, s: nat, id: Id)
    requires Balanced(h) && s < |h.queues| && id in h.holders
    ensures Balanced(Step(h, Accept(s, id)))
  {
    var h1 := Step(h, Accept(s, id));
    forall j: Id ensures Count(h1.refs, j) == h1.holders[j] + Slots(h1.queues, j)
                         && h1.made[j] == h1.freed[j] + if Count(h1.refs, j) > 0 then 1 else 0
    {
      SlotsUpdate(h.queues, s, h.queues[s] + [id], j);
      assert Count(h.refs, j) == h.holders[j] + Slots(h.queues, j);
      assert h.made[j] == h.freed[j] + if Count(h.refs, j) > 0 then 1 else 0;
    }
  }

  /** What the balance means for one session: its ring meets the requirement of OutQueue.Session, and
      nothing in it is on the free list. */
  lemma QueuedIsAlive(h: Hub, s: nat)
    requires Balanced(h) && s < |h.queues|
    ensures Covers(h.refs, h.queues[s])
    ensures forall id <- h.queues[s] :: h.made[id] == h.freed[id] + 1
  {
    forall id: Id ensures multiset(h.queues[s])[id] <= Count(h.refs, id) {
      SlotsHold(h.queues, s, id);
      assert Count(h.refs, id) == h.holders[id] + Slots(h.queues, id);
    }
    forall id <- h.queues[s] ensures h.made[id] == h.freed[id] + 1 {
      assert multiset(h.queues[s])[id] > 0;
    }
  }

  lemma {:induction false} NoSlots(queues: seq<seq<Id>>, id: Id)
    requires forall i | 0 <= i < |queues| :: queues[i] == []
    ensures Slots(queues, id) == 0
  {
    if queues != [] {
      NoSlots(queues[1..], id);
    }
  }

  /** Once every session is closed and every holder has let go, each message was freed as often as it
      was made. */
  lemma AllFreed(h: Hub)
    requires Balanced(h) && h.holders == multiset{} && forall i | 0 <= i < |h.queues| :: h.queues[i] == []
    ensures h.made == h.freed
  {
    forall id: Id ensures h.made[id] == h.freed[id] {
      NoSlots(h.queues, id);
      assert Count(h.refs, id) == h.holders[id] + Slots(h.queues, id);
    }
  }

  ghost predicate Reachable(h: Hub, trace: seq<Event>)
    decreases |trace|
  {
    if trace == [] then
      h.refs == map[] && h.holders == h.made == h.freed == multiset{}
          && forall i | 0 <= i < |h.queues| :: h.queues[i] == []
    else
      var n := |trace| - 1;
      exists g: Hub :: Reachable(g, trace[..n]) && Enabled(g, trace[n]) && h == Step(g, trace[n])
  }

  lemma {:induction false} AlwaysBalanced(h: Hub, trace: seq<Event>)
    requires Reachable(h, trace)
    ensures Balanced(h)
    decreases |trace|
  {
    if trace == [] {
      forall id: Id ensures Slots(h.queues, id) == 0 {
        NoSlots(h.queues, id);
      }
    } else {
      var n := |trace| - 1;
      var g: Hub :| Reachable(g, trace[..n]) && Enabled(g, trace[n]) && h == Step(g, trace[n]);
      AlwaysBalanced(g, trace[..n]);
      StepBalanced(g, trace[n]);
    }
  }

  // ---------------------------------------------- sessions as runs of the hub

  ghost predicate SameCounts(refs: Refs, refs1: Refs) {
    forall id: Id :: Count(refs, id) == Count(refs1, id)
  }

  /** The hub after a run, if each of its events is enabled when its turn comes. */
  function Run(h: Hub, events: seq<Event>): Option<Hub>
    decreases |events|
  {
    if events == [] then Some(h)
    else if Enabled(h, events[0]) then Run(Step(h, events[0]), events[1..])
    else None
  }

  function Leaves(s: nat, n: nat): seq<Event> {
    if n == 0 then [] else [Leave(s)] + Leaves(s, n - 1)
  }

  lemma RunFirst(h: Hub, e: Event, rest: seq<Event>)
    requires Enabled(h, e)
    ensures Run(h, [e] + rest) == Run(Step(h, e), rest)
  {
    assert ([e] + rest)[1..] == rest;
  }

  /** What a run at session s does to the rest of the hub: nothing. */
  predicate OnlyQueue(h: Hub, s: nat, rest: seq<Id>, h1: Hub)
    requires s < |h.queues|
  {
    h1.queues == h.queues[s := rest] && h1.holders == h.holders && h1.made == h.made
  }

  /** The messages at the head of a queue leave it one by one. */
  lemma {:induction false} LeavesRun(h: Hub, s: nat, gone: seq<Id>, rest: seq<Id>, refs1: Refs) returns (h1: Hub)
    requires Balanced(h) && s < |h.queues| && h.queues[s] == gone + rest && Lost(h.refs, gone, refs1)
    ensures Run(h, Leaves(s, |gone|)) == Some(h1) && Balanced(h1) && OnlyQueue(h, s, rest, h1)
            && SameCounts(h1.refs, refs1)
    decreases |gone|
  {
    if gone == [] {
      h1 := h;
      NoneLeaves(h, s, gone, rest, refs1);
    } else {
      var g, tail := FirstLeaves(h, s, gone, rest, refs1);
      h1 := LeavesRun(g, s, tail, rest, refs1);
      MoreLeave(h, s, |tail|, tail + rest, g, rest, h1);
    }
  }

  lemma MoreLeave(h: Hub, s: nat, n: nat, q: seq<Id>, g: Hub, rest: seq<Id>, h1: Hub)
    requires s < |h.queues| && Enabled(h, Leave(s)) && g == Step(h, Leave(s)) && Run(g, Leaves(s, n)) == Some(h1)
    requires OnlyQueue(h, s, q, g) && OnlyQueue(g, s, rest, h1)
    ensures Run(h, Leaves(s, n + 1)) == Some(h1) && OnlyQueue(h, s, rest, h1)
  {
    RunFirst(h, Leave(s), Leaves(s, n));
    OnlyQueueJoins(h, s, q, g, rest, h1);
  }

  lemma NoneLeaves(h: Hub, s: nat, gone: seq<Id>, rest: seq<Id>, refs1: Refs)
    requires s < |h.queues| && h.queues[s] == gone + rest && Lost(h.refs, gone, refs1) && gone == []
    ensures OnlyQueue(h, s, rest, h) && SameCounts(h.refs, refs1)
  {
    assert gone + rest == rest;
    forall id: Id ensures Count(h.refs, id) == Count(refs1, id) {
      assert Count(refs1, id) + multiset(gone)[id] == Count(h.refs, id);
    }
  }

  lemma OnlyQueueJoins(h: Hub, s: nat, q: seq<Id>, g: Hub, rest: seq<Id>, h1: Hub)
    requires s < |h.queues| && OnlyQueue(h, s, q, g) && OnlyQueue(g, s, rest, h1)
    ensures OnlyQueue(h, s, rest, h1)
  {
  }

  lemma FirstLeaves(h: Hub, s: nat, gone: seq<Id>, rest: seq<Id>, refs1: Refs) returns (g: Hub, tail: seq<Id>)
    requires Balanced(h) && s < |h.queues| && h.queues[s] == gone + rest && Lost(h.refs, gone, refs1) && gone != []
    ensures Enabled(h, Leave(s)) && g == Step(h, Leave(s)) && Balanced(g)
    ensures |tail| + 1 == |gone| && OnlyQueue(h, s, tail + rest, g) && Lost(g.refs, tail, refs1)
  {
    LeaveBalanced(h, s);
    g, tail := Step(h, Leave(s)), gone[1..];
    assert h.queues[s][1..] == tail + rest;
    LostFirst(h.refs, gone, refs1, g.refs);
  }

  lemma LostFirst(refs: Refs, gone: seq<Id>, refs1: Refs, next: Refs)
    requires Lost(refs, gone, refs1) && gone != [] && Count(refs, gone[0]) > 0 && next == Released(refs, gone[0])
    ensures Lost(next, gone[1..], refs1)
  {
    assert gone == [gone[0]] + gone[1..];
    forall id: Id ensures Count(refs1, id) + multiset(gone[1..])[id] == Count(next, id) {
      assert Count(refs1, id) + multiset(gone)[id] == Count(refs, id);
    }
  }

  lemma SameLost(refs0: Refs, refs: Refs, gone: seq<Id>, refs1: Refs)
    requires SameCounts(refs0, refs) && Lost(refs, gone, refs1)
    ensures Lost(refs0, gone, refs1)
  {
    forall id: Id ensures Count(refs1, id) + multiset(gone)[id] == Count(refs0, id) {
      assert Count(refs0, id) == Count(refs, id);
    }
  }

  lemma SameAcquired(refs0: Refs, refs: Refs, id: Id)
    requires SameCounts(refs0, refs)
    ensures SameCounts(Acquired(refs0, id), Acquired(refs, id))
  {
    forall j: Id ensures Count(Acquired(refs0, id), j) == Count(Acquired(refs, id), j) {
      assert Count(refs0, j) == Count(refs, j) && Count(refs0, id) == Count(refs, id);
    }
  }

  /** A message is accepted and others leave: what send_message does to the hub. */
  lemma SendIsRun(h: Hub, s: nat, id: Id, gone: seq<Id>, rest: seq<Id>, refs1: Refs) returns (h1: Hub)
    requires Balanced(h) && s < |h.queues| && id in h.holders && h.queues[s] + [id] == gone + rest
    requires Lost(Acquired(h.refs, id), gone, refs1)
    ensures Run(h, [Accept(s, id)] + Leaves(s, |gone|)) == Some(h1) && Balanced(h1)
    ensures OnlyQueue(h, s, rest, h1) && SameCounts(h1.refs, refs1)
  {
    AcceptBalanced(h, s, id);
    var g := Step(h, Accept(s, id));
    h1 := LeavesRun(g, s, gone, rest, refs1);
    OnlyQueueJoins(h, s, h.queues[s] + [id], g, rest, h1);
    RunFirst(h, Accept(s, id), Leaves(s, |gone|));
  }

  /** A session is session s of the hub. */
  ghost predicate Shows(h: Hub, s: nat, session: Session)
    requires session.Valid()
    reads session, session.out, session.pool
  {
    s < |h.queues| && h.queues[s] == session.View().ids && SameCounts(h.refs, session.pool.refs)
  }

  /** The operations of a session, each with the run of the hub that it is. */
  method Send(session: Session, id: Id, priority: nat, writeActive: bool, timedOut: bool, kernel: nat -> Kernel,
              ghost h: Hub, ghost s: nat)
    returns (queued: bool, ghost n: nat, ghost h1: Hub)
    requires session.Valid() && Balanced(h) && Shows(h, s, session) && id in h.holders
    modifies session, session.out, session.pool
    ensures session.Valid() && Balanced(h1) && Shows(h1, s, session)
    ensures Run(h, if queued then [Accept(s, id)] + Leaves(s, n) else []) == Some(h1)
  {
    ghost var refs, gone := session.pool.refs, [];
    var o;
    ghost var sends;
    queued, o, gone, sends := session.SendMessage(id, priority, writeActive, timedOut, kernel);
    n, h1 := |gone|, h;
    if queued {
      SameAcquired(h.refs, refs, id);
      SameLost(Acquired(h.refs, id), Acquired(refs, id), gone, session.pool.refs);
      h1 := SendIsRun(h, s, id, gone, session.View().ids, session.pool.refs);
    }
  }

  method Write(session: Session, timedOut: bool, kernel: nat -> Kernel, ghost h: Hub, ghost s: nat)
    returns (o: Outcome, ghost n: nat, ghost h1: Hub)
    requires session.Valid() && Balanced(h) && Shows(h, s, session)
    modifies session, session.pool
    ensures session.Valid() && Balanced(h1) && Shows(h1, s, session) && Run(h, Leaves(s, n)) == Some(h1)
  {
    ghost var refs, gone := session.pool.refs, [];
    ghost var sends;
    o, gone, sends := session.WriteHandler(timedOut, kernel);
    n := |gone|;
    SameLost(h.refs, refs, gone, session.pool.refs);
    h1 := LeavesRun(h, s, gone, session.View().ids, session.pool.refs);
  }

  method Close(session: Session, ghost h: Hub, ghost s: nat) returns (ghost h1: Hub)
    requires session.Valid() && Balanced(h) && Shows(h, s, session)
    modifies session, session.pool
    ensures Balanced(h1) && h1.queues == h.queues[s := []] && SameCounts(h1.refs, session.pool.refs)
    ensures Run(h, Leaves(s, |h.queues[s]|)) == Some(h1)
  {
    ghost var refs, ids := session.pool.refs, session.View().ids;
    session.Close();
    assert ids + [] == ids;
    SameLost(h.refs, refs, ids, session.pool.refs);
    h1 := LeavesRun(h, s, ids, [], session.pool.refs);
  }
}
