/** The upload progress index: one shared tree and one list over the same nodes. */
module ProgressIndex {
  import opened Bytes
  import opened ProgressTree
  import opened Wrappers

  /** `len` is one byte: the search and the order see that much of the stored id. */
  datatype Node = Node(hash: nat, id: seq<Byte>, len: nat, errStatus: nat, length: int, rest: int, done: bool,
                       timeout: int)

  function KeyOf(n: Node): Key {
    Key(n.hash, if n.len <= |n.id| then n.id[..n.len] else n.id)
  }

  function KeysOf(nodes: map<Ref, Node>): Keys {
    map r | r in nodes :: KeyOf(nodes[r])
  }

  function NewNode(hash: nat, id: seq<Byte>, errStatus: nat, length: int, rest: int): Node {
    Node(hash, id, |id| % 0x100, errStatus, length, rest, false, 0)
  }

  // ------------------------------------------------------------ sequences

  ghost predicate Distinct(s: seq<Ref>) {
    forall i, j | 0 <= i < j < |s| :: s[i] != s[j]
  }

  function Without(s: seq<Ref>, r: Ref): (t: seq<Ref>)
    ensures forall q :: q in t <==> q in s && q != r
  {
    if s == [] then []
    else
      assert s == [s[0]] + s[1..];
      (if s[0] == r then [] else [s[0]]) + Without(s[1..], r)
  }

  lemma {:induction false} WithoutKeepsOrder(keys: Keys, s: seq<Ref>, r: Ref)
    requires Sorted(keys, s)
    ensures Sorted(keys, Without(s, r))
  {
    if s != [] {
      var rest := s[1..];
      assert s == [s[0]] + rest;
      forall i, j | 0 <= i < j < |rest| ensures !Less(At(keys, rest[j]), At(keys, rest[i])) {
        assert rest[i] == s[i + 1] && rest[j] == s[j + 1];
      }
      WithoutKeepsOrder(keys, rest, r);
      forall q <- Without(rest, r) ensures !Less(At(keys, q), At(keys, s[0])) {
        var j :| 0 <= j < |rest| && rest[j] == q;
        assert s[j + 1] == q;
      }
    }
  }

  lemma {:induction false} WithoutKeepsDistinct(s: seq<Ref>, r: Ref)
    requires Distinct(s)
    ensures Distinct(Without(s, r))
  {
    if s != [] {
      var rest := s[1..];
      assert s == [s[0]] + rest;
      assert Distinct(rest) by {
        forall i, j | 0 <= i < j < |rest| ensures rest[i] != rest[j] {
          assert rest[i] == s[i + 1] && rest[j] == s[j + 1];
        }
      }
      WithoutKeepsDistinct(rest, r);
      assert s[0] !in rest;
    }
  }

  lemma InsertedDistinct(s: seq<Ref>, k: nat, r: Ref)
    requires k <= |s| && Distinct(s) && r !in s
    ensures Distinct(Inserted(s, k, r))
  {
  }

  lemma SortedSame(keys: Keys, keys1: Keys, s: seq<Ref>)
    requires Sorted(keys, s) && forall r <- s :: At(keys1, r) == At(keys, r)
    ensures Sorted(keys1, s)
  {
  }

  /** The nodes a clean-up pass keeps. */
  predicate Keeps(n: Node, now: int, quitting: bool) {
    !(n.done && n.timeout < now) && !quitting
  }

  /** A finished node stays until its time is over, a live one always, and none at shutdown. */
  lemma KeptUntil(n: Node, finished: int, timeout: int, now: int)
    ensures Keeps(n.(done := true, timeout := finished + timeout), now, false) <==> now <= finished + timeout
    ensures !n.done ==> Keeps(n, now, false)
    ensures !Keeps(n, now, true)
  {
  }

  function Survivors(s: seq<Ref>, nodes: map<Ref, Node>, now: int, quitting: bool): seq<Ref> {
    if s == [] then []
    else
      (if s[0] in nodes && Keeps(nodes[s[0]], now, quitting) then [s[0]] else [])
      + Survivors(s[1..], nodes, now, quitting)
  }

  ghost predicate SameNodes(s: seq<Ref>, nodes: map<Ref, Node>) {
    Distinct(s) && forall r :: r in s <==> r in nodes
  }

  /** What is stored in a node belongs to its id. */
  predicate Stored(hash: seq<Byte> -> nat, n: Node) {
    n.hash == hash(n.id) && n.len == |n.id| % 0x100
  }

  ghost predicate Unique(nodes: map<Ref, Node>) {
    forall q, r | q in nodes && r in nodes && q != r && nodes[q].id == nodes[r].id :: |nodes[r].id| >= 0x100
  }

  /** The invariant: list and tree hold the same nodes, the tree is in order, the nodes of live requests
      are there, and no id that fits its length byte is stored twice. */
  ghost predicate Sound(hash: seq<Byte> -> nat, nodes: map<Ref, Node>, s: seq<Ref>, list: seq<Ref>, live: set<Ref>) {
    && SameNodes(list, nodes) && SameNodes(s, nodes)
    && Sorted(KeysOf(nodes), s)
    && (forall r <- nodes :: Stored(hash, nodes[r]))
    && (forall r <- live :: r in nodes && !nodes[r].done)
    && Unique(nodes)
  }

  /** A stored node that the search takes for `id`. */
  predicate Matches(hash: seq<Byte> -> nat, n: Node, id: seq<Byte>) {
    KeyOf(n) == Key(hash(id), id)
  }

  ghost predicate IsTracked(hash: seq<Byte> -> nat, nodes: map<Ref, Node>, id: seq<Byte>) {
    exists r <- nodes :: Matches(hash, nodes[r], id)
  }

  /** A node is found under its own id exactly if the id is shorter than 256 bytes; what is longer is
      found by no search at all. */
  lemma FoundIfShort(hash: seq<Byte> -> nat, n: Node, id: seq<Byte>)
    requires Stored(hash, n)
    ensures Matches(hash, n, n.id) <==> |n.id| < 0x100
    ensures |id| >= 0x100 ==> !Matches(hash, n, id)
  {
    if |n.id| < 0x100 {
      assert n.id[..n.len] == n.id;
    }
  }

  /** After an upload was registered a progress request for its id finds it exactly if the id is shorter
      than 256 bytes; a second upload with a longer id is registered again. */
  lemma RegisteredIsFound(hash: seq<Byte> -> nat, nodes: map<Ref, Node>, slot: Ref, n: Node)
    requires !IsTracked(hash, nodes, n.id) && slot !in nodes && Stored(hash, n)
    ensures IsTracked(hash, nodes[slot := n], n.id) <==> |n.id| < 0x100
  {
    FoundIfShort(hash, n, n.id);
    var nodes1 := nodes[slot := n];
    if |n.id| < 0x100 {
      assert slot in nodes1 && Matches(hash, nodes1[slot], n.id);
    } else {
      forall r <- nodes1 ensures !Matches(hash, nodes1[r], n.id) {
        assert r != slot ==> !Matches(hash, nodes[r], n.id);
      }
    }
  }

  lemma UniqueInsert(hash: seq<Byte> -> nat, nodes: map<Ref, Node>, slot: Ref, n: Node)
    requires Unique(nodes) && slot !in nodes && Stored(hash, n)
    requires forall r <- nodes :: Stored(hash, nodes[r]) && !Matches(hash, nodes[r], n.id)
    ensures Unique(nodes[slot := n])
  {
    forall r <- nodes ensures nodes[r].id == n.id ==> |n.id| >= 0x100 {
      FoundIfShort(hash, nodes[r], n.id);
    }
  }

  lemma SameNodesInsert(s: seq<Ref>, nodes: map<Ref, Node>, slot: Ref, n: Node, k: nat)
    requires SameNodes(s, nodes) && slot !in nodes && k <= |s|
    ensures SameNodes(Inserted(s, k, slot), nodes[slot := n])
  {
    InsertedDistinct(s, k, slot);
  }

  lemma InsertSound(hash: seq<Byte> -> nat, nodes: map<Ref, Node>, t: Tree, list: seq<Ref>, live: set<Ref>,
                    slot: Ref, n: Node, nodes1: map<Ref, Node>, t1: Tree)
    requires Sound(hash, nodes, InOrder(t), list, live) && slot !in nodes && Stored(hash, n) && !n.done
    requires !IsTracked(hash, nodes, n.id)
    requires nodes1 == nodes[slot := n] && t1 == InsertValue(t, KeysOf(nodes1), slot)
    ensures Sound(hash, nodes1, InOrder(t1), [slot] + list, live + {slot})
  {
    var k := InsertSorted(nodes, t, slot, nodes1, t1);
    SequencesInsert(hash, nodes, InOrder(t), list, live, slot, n, nodes1, InOrder(t1), k);
  }

  lemma SequencesInsert(hash: seq<Byte> -> nat, nodes: map<Ref, Node>, s: seq<Ref>, list: seq<Ref>, live: set<Ref>,
                        slot: Ref, n: Node, nodes1: map<Ref, Node>, s1: seq<Ref>, k: nat)
    requires Sound(hash, nodes, s, list, live) && slot !in nodes && Stored(hash, n) && !n.done
    requires !IsTracked(hash, nodes, n.id)
    requires nodes1 == nodes[slot := n] && k <= |s| && s1 == Inserted(s, k, slot) && Sorted(KeysOf(nodes1), s1)
    ensures Sound(hash, nodes1, s1, [slot] + list, live + {slot})
  {
    SameNodesInsert(s, nodes, slot, n, k);
    SameNodesInsert(list, nodes, slot, n, 0);
    assert Inserted(list, 0, slot) == [slot] + list;
    UniqueInsert(hash, nodes, slot, n);
  }

  lemma InsertSorted(nodes: map<Ref, Node>, t: Tree, slot: Ref, nodes1: map<Ref, Node>, t1: Tree) returns (k: nat)
    requires Sorted(KeysOf(nodes), InOrder(t)) && slot !in nodes && (forall r <- InOrder(t) :: r in nodes)
    requires nodes1.Keys == nodes.Keys + {slot} && forall r <- nodes :: nodes1[r] == nodes[r]
    requires t1 == InsertValue(t, KeysOf(nodes1), slot)
    ensures k <= |InOrder(t)| && InOrder(t1) == Inserted(InOrder(t), k, slot)
    ensures Sorted(KeysOf(nodes1), InOrder(t1))
  {
    SortedSame(KeysOf(nodes), KeysOf(nodes1), InOrder(t));
    k := InsertKeepsOrder(t, KeysOf(nodes1), slot);
  }

  lemma {:induction false} WithoutAbsent(s: seq<Ref>, r: Ref)
    requires r !in s
    ensures Without(s, r) == s
  {
    if s != [] {
      WithoutAbsent(s[1..], r);
    }
  }

  lemma {:induction false} WithoutAt(s: seq<Ref>, i: nat)
    requires i < |s| && Distinct(s)
    ensures Without(s, s[i]) == s[..i] + s[i + 1..]
  {
    var rest := s[1..];
    if i == 0 {
      WithoutAbsent(rest, s[0]);
    } else {
      assert forall j, k | 0 <= j < k < |rest| :: rest[j] == s[j + 1] && rest[k] == s[k + 1];
      WithoutAt(rest, i - 1);
      assert s[..i] == [s[0]] + rest[..i - 1] && s[i + 1..] == rest[i..];
    }
  }

  lemma RemoveSound(hash: seq<Byte> -> nat, nodes: map<Ref, Node>, s: seq<Ref>, list: seq<Ref>, live: set<Ref>, r: Ref)
    requires Sound(hash, nodes, s, list, live)
    ensures Sound(hash, nodes - {r}, Without(s, r), Without(list, r), live - {r})
  {
    WithoutKeepsOrder(KeysOf(nodes), s, r);
    SortedSame(KeysOf(nodes), KeysOf(nodes - {r}), Without(s, r));
    WithoutKeepsDistinct(s, r);
    WithoutKeepsDistinct(list, r);
  }

  /** A change of a node that leaves its key alone. */
  lemma UpdateSound(hash: seq<Byte> -> nat, nodes: map<Ref, Node>, s: seq<Ref>, list: seq<Ref>, live: set<Ref>,
                    r: Ref, n: Node, live1: set<Ref>)
    requires Sound(hash, nodes, s, list, live) && r in nodes
    requires n.id == nodes[r].id && n.hash == nodes[r].hash && n.len == nodes[r].len
    requires live1 <= live && (r in live1 ==> !n.done)
    ensures Sound(hash, nodes[r := n], s, list, live1)
  {
    SortedSame(KeysOf(nodes), KeysOf(nodes[r := n]), s);
  }

  /** The nodes after the part of the list from `i` on was looked at. */
  ghost predicate CleanedFrom(nodes0: map<Ref, Node>, list0: seq<Ref>, i: nat, now: int, quitting: bool,
                              nodes: map<Ref, Node>, list: seq<Ref>)
    requires i <= |list0|
  {
    && list == list0[..i] + Survivors(list0[i..], nodes0, now, quitting)
    && (forall r <- nodes ::
          r in nodes0 && nodes[r] == nodes0[r]
          && (Keeps(nodes0[r], now, quitting) || r in list0[..i]))
    && (forall r <- nodes0 | Keeps(nodes0[r], now, quitting) || r in list0[..i] :: r in nodes)
  }

  lemma CleanedStep(nodes0: map<Ref, Node>, list0: seq<Ref>, i: nat, now: int, quitting: bool,
                    nodes: map<Ref, Node>, list: seq<Ref>)
    requires i < |list0| && SameNodes(list0, nodes0)
    requires CleanedFrom(nodes0, list0, i + 1, now, quitting, nodes, list)
    ensures list[i] == list0[i] && list0[i] in nodes0 && list0[i] in nodes
    ensures Keeps(nodes0[list0[i]], now, quitting) ==> CleanedFrom(nodes0, list0, i, now, quitting, nodes, list)
    ensures !Keeps(nodes0[list0[i]], now, quitting) ==>
              CleanedFrom(nodes0, list0, i, now, quitting, nodes - {list0[i]}, list[..i] + list[i + 1..])
  {
    var r, after := list0[i], Survivors(list0[i + 1..], nodes0, now, quitting);
    assert list0[..i + 1] == list0[..i] + [r];
    assert list0[i..][0] == r && list0[i..][1..] == list0[i + 1..];
    assert list == list0[..i] + ([r] + after);
    assert r !in list0[..i];
  }

  datatype Answer = Declined | Error500 | Error503 | Failed

  class Index {
    const hash: seq<Byte> -> nat
    /** What the tree library makes of a tree after an insertion, and of a tree and a node to delete. */
    const rotated: Tree -> Tree
    const removed: (Tree, Ref) -> Tree
    var nodes: map<Ref, Node>
    var tree: Tree
    var list: seq<Ref>
    /** The nodes of the requests that are still being served. */
    ghost var live: set<Ref>

    ghost predicate Library() {
      && (forall t :: InOrder(rotated(t)) == InOrder(t))
      && (forall t, r :: InOrder(removed(t, r)) == Without(InOrder(t), r))
    }

    ghost predicate Valid()
      reads this
    {
      Library() && Sound(hash, nodes, InOrder(tree), list, live)
    }

    constructor (hash: seq<Byte> -> nat, rotated: Tree -> Tree, removed: (Tree, Ref) -> Tree)
      requires forall t :: InOrder(rotated(t)) == InOrder(t)
      requires forall t, r :: InOrder(removed(t, r)) == Without(InOrder(t), r)
      ensures Valid() && nodes == map[]
    {
      this.hash, this.rotated, this.removed := hash, rotated, removed;
      nodes, tree, list, live := map[], Leaf, [], {};
    }

    method Find(id: seq<Byte>) returns (found: Option<Ref>)
      requires Valid()
      ensures found.Some? ==> found.value in nodes && Matches(hash, nodes[found.value], id)
      ensures found.None? <==> !IsTracked(hash, nodes, id)
    {
      found := FindNode(tree, KeysOf(nodes), id, hash(id));
      if found.None? {
        forall r <- nodes ensures !Matches(hash, nodes[r], id) {
          assert r in InOrder(tree) && At(KeysOf(nodes), r) == KeyOf(nodes[r]);
        }
      }
    }

    /** Both handlers: the node becomes the head of the list and a leaf of the tree. */
    method Insert(slot: Ref, n: Node)
      requires Valid() && slot !in nodes && Stored(hash, n) && !n.done
      requires !IsTracked(hash, nodes, n.id)
      modifies this
      ensures Valid()
      ensures nodes == old(nodes)[slot := n] && list == [slot] + old(list) && live == old(live) + {slot}
    {
      var nodes1 := nodes[slot := n];
      var t1 := InsertValue(tree, KeysOf(nodes1), slot);
      InsertSound(hash, nodes, tree, list, live, slot, n, nodes1, t1);
      nodes, list, tree, live := nodes1, [slot] + list, rotated(t1), live + {slot};
    }

    /** ngx_media_upload_progress_handler once a tracking id and a zone are known: `slot` is what the
        allocator returns, `bodyRest` the rest of a body that is being read. */
    method Track(id: seq<Byte>, errStatus: nat, contentLength: int, bodyRest: Option<int>, record: bool,
                 slot: Option<Ref>, context: bool)
      returns (answer: Answer)
      requires Valid() && (slot.Some? ==> slot.value !in nodes)
      modifies this
      ensures Valid()
      ensures answer == if IsTracked(hash, old(nodes), id) || !record then Error500
                        else if slot.None? then Error503 else if context then Declined else Failed
      ensures answer in {Error500, Error503} ==> nodes == old(nodes) && list == old(list) && live == old(live)
      ensures answer in {Declined, Failed} ==>
                && nodes == old(nodes)[slot.value := Node(hash(id), id, |id| % 0x100, errStatus, contentLength,
                     if contentLength != 0 && bodyRest.Some? then bodyRest.value else contentLength, false, 0)]
                && list == [slot.value] + old(list) && live == old(live) + {slot.value}
    {
      var found := Find(id);
      if found.Some? || !record {
        return Error500;
      }
      if slot.None? {
        return Error503;
      }
      var rest := if contentLength != 0 && bodyRest.Some? then bodyRest.value else contentLength;
      Insert(slot.value, NewNode(hash(id), id, errStatus, contentLength, rest));
      answer := if context then Declined else Failed;
    }

    /** The error tracker: the status goes into the node, or into a new one. */
    method TrackError(id: seq<Byte>, errStatus: nat, slot: Option<Ref>) returns (node: Option<Ref>)
      requires Valid() && (slot.Some? ==> slot.value !in nodes)
      modifies this
      ensures Valid()
      ensures node.None? ==> slot.None? && nodes == old(nodes) && list == old(list) && live == old(live)
                             && !IsTracked(hash, nodes, id)
      ensures node.Some? && node.value in old(nodes) ==>
                && Matches(hash, old(nodes)[node.value], id)
                && nodes == old(nodes)[node.value := old(nodes)[node.value].(errStatus := errStatus)]
                && list == old(list) && live == old(live)
      ensures node.Some? && node.value !in old(nodes) ==>
                && nodes == old(nodes)[node.value := Node(hash(id), id, |id| % 0x100, errStatus, 0, 0, false, 0)]
                && list == [node.value] + old(list) && live == old(live) + {node.value}
    {
      node := Find(id);
      if node.Some? {
        var n := nodes[node.value].(errStatus := errStatus);
        UpdateSound(hash, nodes, InOrder(tree), list, live, node.value, n, live);
        nodes := nodes[node.value := n];
      } else if slot.Some? {
        Insert(slot.value, NewNode(hash(id), id, errStatus, 0, 0));
        node := slot;
      }
    }

    /** ngx_media_upload_progress_cleanup, when the request goes away. */
    method Finish(r: Ref, now: int, timeout: int, status: nat)
      requires Valid() && r in live
      modifies this
      ensures Valid() && live == old(live) - {r} && list == old(list)
      ensures nodes == old(nodes)[r := old(nodes)[r].(done := true, timeout := now + timeout,
                         errStatus := if status >= 300 then status else old(nodes)[r].errStatus)]
    {
      var n := nodes[r].(done := true, timeout := now + timeout);
      if status >= 300 {
        n := n.(errStatus := status);
      }
      UpdateSound(hash, nodes, InOrder(tree), list, live, r, n, live - {r});
      nodes, live := nodes[r := n], live - {r};
    }

    /** One node leaves list and tree. */
    method Remove(i: nat)
      requires Valid() && i < |list|
      modifies this
      ensures Valid() && nodes == old(nodes) - {old(list)[i]} && live == old(live) - {old(list)[i]}
      ensures list == old(list)[..i] + old(list)[i + 1..]
    {
      var r := list[i];
      RemoveSound(hash, nodes, InOrder(tree), list, live, r);
      WithoutAt(list, i);
      list, tree, nodes, live := list[..i] + list[i + 1..], removed(tree, r), nodes - {r}, live - {r};
    }

    /** One turn of the walk, at the node of index i. */
    method CleanOne(i: nat, now: int, quitting: bool, ghost nodes0: map<Ref, Node>, ghost list0: seq<Ref>)
      requires Valid() && i < |list0| && SameNodes(list0, nodes0)
      requires CleanedFrom(nodes0, list0, i + 1, now, quitting, nodes, list)
      modifies this
      ensures Valid() && CleanedFrom(nodes0, list0, i, now, quitting, nodes, list)
      ensures !quitting ==> live == old(live)
    {
      CleanedStep(nodes0, list0, i, now, quitting, nodes, list);
      var n := nodes[list[i]];
      if (n.done && n.timeout < now) || quitting {
        Remove(i);
      }
    }

    /** ngx_media_up_clean_old_connections, from the tail of the list to its head. Outside shutdown the
        nodes that go are exactly those that are done and expired, and no live one is among them. */
    method CleanOld(now: int, quitting: bool) returns (again: bool)
      requires Valid()
      modifies this
      ensures Valid()
      ensures list == Survivors(old(list), old(nodes), now, quitting)
      ensures forall r <- nodes :: r in old(nodes) && nodes[r] == old(nodes)[r] && Keeps(nodes[r], now, quitting)
      ensures forall r <- old(nodes) | Keeps(old(nodes)[r], now, quitting) :: r in nodes
      ensures !quitting ==> live == old(live)
      ensures again <==> nodes != map[] || !quitting
    {
      ghost var nodes0, list0, live0 := nodes, list, live;
      var i := |list|;
      assert list0[..i] == list0 && list0[i..] == [];
      while i > 0
        invariant i <= |list0| && Valid()
        invariant CleanedFrom(nodes0, list0, i, now, quitting, nodes, list)
        invariant !quitting ==> live == live0
      {
        i := i - 1;
        CleanOne(i, now, quitting, nodes0, list0);
      }
      assert list0[0..] == list0;
      again := |list| > 0 || !quitting;
      assert list != [] ==> list[0] in list;
    }
  }
}
