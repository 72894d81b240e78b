/** The search tree over upload nodes: ordered by hash, then by stored id. */
module ProgressTree {
  import opened Bytes
  import opened Wrappers

  type Ref = int

  /** A node's place in the order: its hash and as much of its id as its one-byte length admits. */
  datatype Key = Key(hash: nat, text: seq<Byte>)

  datatype Tree = Leaf | Fork(left: Tree, ref: Ref, right: Tree)

  type Keys = map<Ref, Key>

  function InOrder(t: Tree): seq<Ref> {
    match t
    case Leaf => []
    case Fork(left, ref, right) => InOrder(left) + [ref] + InOrder(right)
  }

  // ---------------------------------------------------------------- order

  /** ngx_memn2cmp, up to the size of its result. */
  function Compare(a: seq<Byte>, b: seq<Byte>): (c: int)
    ensures c == 0 <==> a == b
  {
    if a == [] then (if b == [] then 0 else -1)
    else if b == [] then 1
    else if a[0] < b[0] then -1
    else if a[0] > b[0] then 1
    else
      assert a == [a[0]] + a[1..] && b == [b[0]] + b[1..];
      Compare(a[1..], b[1..])
  }

  predicate Less(a: Key, b: Key) {
    a.hash < b.hash || (a.hash == b.hash && Compare(a.text, b.text) < 0)
  }

  lemma {:induction false} CompareSwap(a: seq<Byte>, b: seq<Byte>)
    ensures Compare(a, b) < 0 <==> Compare(b, a) > 0
  {
    if a != [] && b != [] {
      CompareSwap(a[1..], b[1..]);
    }
  }

  lemma {:induction false} CompareChain(a: seq<Byte>, b: seq<Byte>, c: seq<Byte>)
    requires Compare(a, b) <= 0 && Compare(b, c) <= 0
    ensures Compare(a, c) <= 0
  {
    if a != [] && b != [] && c != [] && a[0] == b[0] == c[0] {
      CompareChain(a[1..], b[1..], c[1..]);
    }
  }

  lemma LessChain(a: Key, b: Key, c: Key)
    requires !Less(b, a) && !Less(c, b)
    ensures !Less(c, a)
  {
    CompareSwap(a.text, b.text);
    CompareSwap(b.text, c.text);
    CompareSwap(a.text, c.text);
    if a.hash == b.hash == c.hash {
      CompareChain(a.text, b.text, c.text);
    }
  }

  lemma LessAntisymmetric(a: Key, b: Key)
    requires !Less(a, b) && !Less(b, a)
    ensures a == b
  {
    CompareSwap(a.text, b.text);
  }

  lemma LessIsStrict(a: Key, b: Key)
    requires Less(a, b)
    ensures !Less(b, a) && a != b
  {
    CompareSwap(a.text, b.text);
    CompareSwap(b.text, a.text);
  }

  function At(keys: Keys, r: Ref): Key {
    if r in keys then keys[r] else Key(0, [])
  }

  ghost predicate Sorted(keys: Keys, s: seq<Ref>) {
    forall i, j | 0 <= i < j < |s| :: !Less(At(keys, s[j]), At(keys, s[i]))
  }

  // ----------------------------------------------------------- the search

  /** ngx_media_uprogress_find_node: an outer loop over hashes and an inner one over equal hashes. */
  method FindNode(tree: Tree, keys: Keys, id: seq<Byte>, hash: nat) returns (found: Option<Ref>)
    requires Sorted(keys, InOrder(tree))
    ensures found.Some? ==> found.value in InOrder(tree) && At(keys, found.value) == Key(hash, id)
    ensures found.None? ==> forall r <- InOrder(tree) :: At(keys, r) != Key(hash, id)
  {
    ghost var key := Key(hash, id);
    var node := tree;
    while node.Fork?
      invariant Sorted(keys, InOrder(node))
      invariant forall r <- InOrder(node) :: r in InOrder(tree)
      invariant (exists r <- InOrder(tree) :: At(keys, r) == key) ==> exists r <- InOrder(node) :: At(keys, r) == key
      decreases node
    {
      var here := At(keys, node.ref);
      Branches(keys, node, key);
      if hash < here.hash {
        node := node.left;
      } else if hash > here.hash {
        node := node.right;
      } else {
        var rc := Compare(id, here.text);
        if rc == 0 {
          return Some(node.ref);
        }
        node := if rc < 0 then node.left else node.right;
      }
    }
    found := None;
  }

  /** The two sides of a node. */
  lemma Sides(keys: Keys, a: seq<Ref>, x: Ref, b: seq<Ref>)
    requires Sorted(keys, a + [x] + b)
    ensures Sorted(keys, a) && Sorted(keys, b)
    ensures forall r <- a :: !Less(At(keys, x), At(keys, r))
    ensures forall r <- b :: !Less(At(keys, r), At(keys, x))
  {
    var s, n := a + [x] + b, |a|;
    assert s[n] == x;
    forall i | 0 <= i < n ensures s[i] == a[i] && !Less(At(keys, x), At(keys, a[i])) {
    }
    forall i | 0 <= i < |b| ensures s[n + 1 + i] == b[i] && !Less(At(keys, b[i]), At(keys, x)) {
    }
    forall i, j | 0 <= i < j < |b| ensures !Less(At(keys, b[j]), At(keys, b[i])) {
      assert s[n + 1 + i] == b[i] && s[n + 1 + j] == b[j];
    }
  }

  /** On which side of a node a key can be. */
  lemma Branches(keys: Keys, t: Tree, key: Key)
    requires t.Fork? && Sorted(keys, InOrder(t))
    ensures Sorted(keys, InOrder(t.left)) && Sorted(keys, InOrder(t.right))
    ensures forall r :: r in InOrder(t) <==> r in InOrder(t.left) || r == t.ref || r in InOrder(t.right)
    ensures Less(key, At(keys, t.ref)) ==> forall r <- InOrder(t.right) :: At(keys, r) != key
    ensures Less(At(keys, t.ref), key) ==> forall r <- InOrder(t.left) :: At(keys, r) != key
    ensures key == At(keys, t.ref) || Less(key, At(keys, t.ref)) || Less(At(keys, t.ref), key)
  {
    Sides(keys, InOrder(t.left), t.ref, InOrder(t.right));
    if !Less(key, At(keys, t.ref)) && !Less(At(keys, t.ref), key) {
      LessAntisymmetric(key, At(keys, t.ref));
    }
  }

  // -------------------------------------------------------- the insertion

  /** ngx_media_upload_progress_rbtree_insert_value: down to a free place, to the right of equals. */
  function InsertValue(t: Tree, keys: Keys, ref: Ref): Tree {
    match t
    case Leaf => Fork(Leaf, ref, Leaf)
    case Fork(left, here, right) =>
      if Less(At(keys, ref), At(keys, here)) then Fork(InsertValue(left, keys, ref), here, right)
      else Fork(left, here, InsertValue(right, keys, ref))
  }

  function Inserted(s: seq<Ref>, k: nat, ref: Ref): (t: seq<Ref>)
    requires k <= |s|
    ensures forall r :: r in t <==> r == ref || r in s
  {
    assert s == s[..k] + s[k..];
    s[..k] + [ref] + s[k..]
  }

  /** The new node comes to stand somewhere in the sequence, and the sequence stays sorted. */
  lemma {:induction false} InsertKeepsOrder(t: Tree, keys: Keys, ref: Ref) returns (k: nat)
    requires Sorted(keys, InOrder(t))
    ensures k <= |InOrder(t)|
    ensures InOrder(InsertValue(t, keys, ref)) == Inserted(InOrder(t), k, ref)
    ensures Sorted(keys, InOrder(InsertValue(t, keys, ref)))
    decreases t
  {
    if t == Leaf {
      k := 0;
      assert InOrder(Fork(Leaf, ref, Leaf)) == [ref];
    } else {
      var a, b := InOrder(t.left), InOrder(t.right);
      Sides(keys, a, t.ref, b);
      if Less(At(keys, ref), At(keys, t.ref)) {
        k := InsertKeepsOrder(t.left, keys, ref);
        JoinLeft(keys, a, k, ref, t.ref, b);
      } else {
        var n := InsertKeepsOrder(t.right, keys, ref);
        k := |a| + 1 + n;
        JoinRight(keys, a, t.ref, b, n, ref);
      }
    }
  }

  lemma JoinLeft(keys: Keys, a: seq<Ref>, k: nat, ref: Ref, x: Ref, b: seq<Ref>)
    requires k <= |a| && Sorted(keys, Inserted(a, k, ref)) && Sorted(keys, b)
    requires Less(At(keys, ref), At(keys, x))
    requires forall r <- a :: !Less(At(keys, x), At(keys, r))
    requires forall r <- b :: !Less(At(keys, r), At(keys, x))
    ensures Inserted(a + [x] + b, k, ref) == Inserted(a, k, ref) + [x] + b
    ensures Sorted(keys, Inserted(a, k, ref) + [x] + b)
  {
    LessIsStrict(At(keys, ref), At(keys, x));
    SortedJoin(keys, Inserted(a, k, ref), x, b);
    InsertedLeft(a, k, ref, [x] + b);
    assert a + [x] + b == a + ([x] + b);
  }

  lemma JoinRight(keys: Keys, a: seq<Ref>, x: Ref, b: seq<Ref>, k: nat, ref: Ref)
    requires k <= |b| && Sorted(keys, a) && Sorted(keys, Inserted(b, k, ref))
    requires !Less(At(keys, ref), At(keys, x))
    requires forall r <- a :: !Less(At(keys, x), At(keys, r))
    requires forall r <- b :: !Less(At(keys, r), At(keys, x))
    ensures Inserted(a + [x] + b, |a| + 1 + k, ref) == a + [x] + Inserted(b, k, ref)
    ensures Sorted(keys, a + [x] + Inserted(b, k, ref))
  {
    InsertedRight(a + [x], b, k, ref);
    SortedJoin(keys, a, x, Inserted(b, k, ref));
  }

  lemma InsertedLeft(a: seq<Ref>, k: nat, ref: Ref, b: seq<Ref>)
    requires k <= |a|
    ensures Inserted(a + b, k, ref) == Inserted(a, k, ref) + b
  {
    assert (a + b)[..k] == a[..k] && (a + b)[k..] == a[k..] + b;
  }

  lemma InsertedRight(a: seq<Ref>, b: seq<Ref>, k: nat, ref: Ref)
    requires k <= |b|
    ensures Inserted(a + b, |a| + k, ref) == a + Inserted(b, k, ref)
  {
    assert (a + b)[..|a| + k] == a + b[..k] && (a + b)[|a| + k..] == b[k..];
  }

  lemma SortedJoin(keys: Keys, a: seq<Ref>, x: Ref, b: seq<Ref>)
    requires Sorted(keys, a) && Sorted(keys, b)
    requires forall r <- a :: !Less(At(keys, x), At(keys, r))
    requires forall r <- b :: !Less(At(keys, r), At(keys, x))
    ensures Sorted(keys, a + [x] + b)
  {
    var s, n := a + [x] + b, |a|;
    forall i, j | 0 <= i < j < |s| ensures !Less(At(keys, s[j]), At(keys, s[i])) {
      if i < n && j > n {
        assert s[i] in a && s[j] in b;
        LessChain(At(keys, s[i]), At(keys, x), At(keys, s[j]));
      } else if i < n && j == n {
        assert s[i] in a;
      } else if i == n {
        assert s[j] in b;
      }
    }
  }
}
