/** The interval list of a resumable upload and the one-pass merge of a new range into it
    (ngx_media_upload_buf_merge_range without its text layer). */
module Ranges {

  /** Both bounds are inclusive; `total` is the length of the whole file. */
  datatype Range = Range(start: int, end: int, total: int)

  predicate Has(r: Range, x: int) {
    r.start <= x <= r.end
  }

  /** Byte x is recorded by one of the ranges. */
  predicate Covers(rs: seq<Range>, x: int) {
    rs != [] && (Has(rs[0], x) || Covers(rs[1..], x))
  }

  /** Sorted, and at least one missing byte between neighbours. */
  predicate Gapped(rs: seq<Range>) {
    && (forall i | 0 <= i < |rs| :: rs[i].start <= rs[i].end)
    && (forall i, j | 0 <= i < j < |rs| :: rs[i].end + 1 < rs[j].start)
  }

  /** What the header parser accepts for a file of `total` bytes. */
  predicate Accepted(r: Range, total: int) {
    0 <= r.start <= r.end < total && r.total == total
  }

  predicate Stored(rs: seq<Range>, total: int) {
    Gapped(rs) && forall r | r in rs :: Accepted(r, total)
  }

  function Hull(n: Range, cur: Range): Range {
    Range(if n.start < cur.start then n.start else cur.start,
          if n.end > cur.end then n.end else cur.end, n.total)
  }

  /** `found` is set once `range` has been written in front of a higher range. */
  datatype Pass = Pass(out: seq<Range>, range: Range, found: bool)

  /** One stored range met by the pass: it is copied, preceded by the new one, or absorbed. */
  function MergeStep(p: Pass, cur: Range): Pass {
    if cur.end + 1 < p.range.start then
      p.(out := p.out + [cur])
    else if cur.start > p.range.end + 1 then
      Pass(p.out + (if p.found then [] else [p.range]) + [cur], p.range, true)
    else
      p.(range := Hull(p.range, cur))
  }

  function MergeFrom(p: Pass, rs: seq<Range>): Pass
    decreases |rs|
  {
    if rs == [] then p else MergeFrom(MergeStep(p, rs[0]), rs[1..])
  }

  datatype Merged = Merged(ranges: seq<Range>, complete: bool)

  /** End of the list: the new range is written last unless it already was, and only then
      can it be the whole file. */
  function MergeEnd(p: Pass): Merged {
    if p.found then Merged(p.out, false)
    else Merged(p.out + [p.range], p.range.start == 0 && p.range.end == p.range.total - 1)
  }

  function Merge(rs: seq<Range>, n: Range): Merged {
    MergeEnd(MergeFrom(Pass([], n, false), rs))
  }

  lemma {:induction false} CoversAppend(a: seq<Range>, b: seq<Range>, x: int)
    ensures Covers(a + b, x) <==> Covers(a, x) || Covers(b, x)
  {
    if a == [] {
      assert a + b == b;
    } else {
      assert (a + b)[1..] == a[1..] + b;
      CoversAppend(a[1..], b, x);
    }
  }

  lemma {:induction false} CoversWitness(rs: seq<Range>, x: int)
    ensures Covers(rs, x) <==> exists i :: 0 <= i < |rs| && Has(rs[i], x)
  {
    if rs != [] {
      CoversWitness(rs[1..], x);
      if Covers(rs[1..], x) {
        var i :| 0 <= i < |rs[1..]| && Has(rs[1..][i], x);
        assert Has(rs[i + 1], x);
      }
      if i :| 0 <= i < |rs| && Has(rs[i], x) {
        assert i > 0 ==> Has(rs[1..][i - 1], x);
      }
    }
  }

  // ------------------------------------------------------------ one merge

  /** What holds while the pass still has `rest` to read. */
  predicate PassInv(p: Pass, rest: seq<Range>, total: int) {
    && Stored(p.out, total) && Stored(rest, total) && Accepted(p.range, total)
    && (forall o, r | o in p.out && r in rest :: o.end + 1 < r.start)
    && (if p.found then
          |p.out| >= 2 && forall r | r in rest :: p.range.end + 1 < r.start
        else
          forall o | o in p.out :: o.end + 1 < p.range.start)
  }

  /** Indices already recorded by the pass. */
  predicate PassCovers(p: Pass, x: int) {
    Covers(p.out, x) || (!p.found && Has(p.range, x))
  }

  lemma StoredAppend(rs: seq<Range>, r: Range, total: int)
    requires Stored(rs, total) && Accepted(r, total)
    requires forall o | o in rs :: o.end + 1 < r.start
    ensures Stored(rs + [r], total)
  {
  }

  lemma StoredTail(rs: seq<Range>, total: int)
    requires rs != [] && Stored(rs, total)
    ensures Stored(rs[1..], total) && Accepted(rs[0], total)
    ensures forall r | r in rs[1..] :: r in rs && rs[0].end + 1 < r.start
  {
    assert rs[0] in rs;
    forall r | r in rs[1..] ensures r in rs && rs[0].end + 1 < r.start {
      var i :| 0 <= i < |rs[1..]| && rs[1..][i] == r;
      assert rs[i + 1] == r;
    }
  }

  lemma MergeStepInv(p: Pass, rest: seq<Range>, total: int)
    requires rest != [] && PassInv(p, rest, total)
    ensures PassInv(MergeStep(p, rest[0]), rest[1..], total)
  {
    StoredTail(rest, total);
    assert rest[0] in rest;
    StepInv(p, rest[0], rest[1..], total);
  }

  lemma StepInv(p: Pass, cur: Range, tail: seq<Range>, total: int)
    requires Stored(p.out, total) && Stored(tail, total) && Accepted(p.range, total) && Accepted(cur, total)
    requires (forall o | o in p.out :: o.end + 1 < cur.start) && forall r | r in tail :: cur.end + 1 < r.start
    requires if p.found then |p.out| >= 2 && p.range.end + 1 < cur.start
             else forall o | o in p.out :: o.end + 1 < p.range.start
    ensures PassInv(MergeStep(p, cur), tail, total)
  {
    if cur.end + 1 < p.range.start {
      StoredAppend(p.out, cur, total);
    } else if cur.start > p.range.end + 1 {
      InsertStored(p, cur, total);
    }
  }

  lemma InsertStored(p: Pass, cur: Range, total: int)
    requires Stored(p.out, total) && Accepted(p.range, total) && Accepted(cur, total)
    requires (forall o | o in p.out :: o.end + 1 < cur.start) && p.range.end + 1 < cur.start
    requires !p.found ==> forall o | o in p.out :: o.end + 1 < p.range.start
    ensures Stored(p.out + (if p.found then [] else [p.range]) + [cur], total)
  {
    if p.found {
      assert p.out + [] == p.out;
      StoredAppend(p.out, cur, total);
    } else {
      StoredAppend(p.out, p.range, total);
      StoredAppend(p.out + [p.range], cur, total);
    }
  }

  lemma MergeStepCovers(p: Pass, rest: seq<Range>, total: int, x: int)
    requires rest != [] && PassInv(p, rest, total)
    ensures PassCovers(MergeStep(p, rest[0]), x) <==> PassCovers(p, x) || Has(rest[0], x)
  {
    var cur := rest[0];
    assert cur in rest;
    CoversAppend(p.out, [cur], x);
    CoversAppend(p.out, [p.range], x);
    CoversAppend(p.out + [p.range], [cur], x);
    assert p.out + [] == p.out;
  }

  lemma {:induction false} MergeFromInv(p: Pass, rest: seq<Range>, total: int)
    requires PassInv(p, rest, total)
    ensures PassInv(MergeFrom(p, rest), [], total)
    ensures forall x :: PassCovers(MergeFrom(p, rest), x) <==> PassCovers(p, x) || Covers(rest, x)
    decreases |rest|
  {
    if rest != [] {
      MergeStepInv(p, rest, total);
      MergeFromInv(MergeStep(p, rest[0]), rest[1..], total);
      forall x
        ensures PassCovers(MergeFrom(p, rest), x) <==> PassCovers(p, x) || Covers(rest, x)
      {
        MergeStepCovers(p, rest, total, x);
      }
    }
  }

  /** Merging keeps the list sorted with gaps and records exactly the old bytes and the new ones. */
  lemma MergeIsUnion(rs: seq<Range>, n: Range, total: int)
    requires Stored(rs, total) && Accepted(n, total)
    ensures Stored(Merge(rs, n).ranges, total)
    ensures forall x :: Covers(Merge(rs, n).ranges, x) <==> Covers(rs, x) || Has(n, x)
  {
    var p := MergeFrom(Pass([], n, false), rs);
    MergeFromInv(Pass([], n, false), rs, total);
    forall x
      ensures Covers(Merge(rs, n).ranges, x) <==> Covers(rs, x) || Has(n, x)
    {
      CoversAppend(p.out, [p.range], x);
      assert PassCovers(p, x) <==> PassCovers(Pass([], n, false), x) || Covers(rs, x);
    }
  }

  /** The completion flag is set exactly when every byte of the file is recorded. */
  lemma CompleteIffWhole(rs: seq<Range>, n: Range, total: int)
    requires Stored(rs, total) && Accepted(n, total)
    ensures Merge(rs, n).complete <==> forall x | 0 <= x < total :: Covers(rs, x) || Has(n, x)
  {
    var p := MergeFrom(Pass([], n, false), rs);
    var m := Merge(rs, n);
    MergeFromInv(Pass([], n, false), rs, total);
    MergeIsUnion(rs, n, total);
    if m.complete {
      forall x | 0 <= x < total ensures Covers(rs, x) || Has(n, x) {
        CoversAppend(p.out, [p.range], x);
        assert Covers(m.ranges, x);
      }
    }
    if forall x | 0 <= x < total :: Covers(rs, x) || Has(n, x) {
      forall x | 0 <= x < total ensures Covers(m.ranges, x) {
        assert Covers(rs, x) || Has(n, x);
      }
      WholeIsOneRange(m.ranges, total);
    }
  }

  lemma WholeIsOneRange(rs: seq<Range>, total: int)
    requires Stored(rs, total) && total > 0
    requires forall x | 0 <= x < total :: Covers(rs, x)
    ensures rs == [Range(0, total - 1, total)]
  {
    assert Covers(rs, 0);
    CoversWitness(rs, 0);
    var r := rs[0];
    assert r in rs;
    assert |rs| > 1 ==> rs[1] in rs;
    assert r.start == 0;
    if r.end + 1 < total {
      assert Covers(rs, r.end + 1);
      CoversWitness(rs, r.end + 1);
    }
  }

  // ------------------------------------------------- order does not matter

  lemma FirstCovered(rs: seq<Range>, x: int)
    requires Gapped(rs) && Covers(rs, x)
    ensures rs != [] && rs[0].start <= x && Covers(rs, rs[0].start)
  {
    CoversWitness(rs, x);
  }

  lemma AfterHead(rs: seq<Range>, x: int)
    requires Gapped(rs) && rs != []
    ensures Covers(rs[1..], x) <==> Covers(rs, x) && x > rs[0].end + 1
    ensures !Covers(rs, rs[0].end + 1)
  {
    CoversWitness(rs[1..], x);
    CoversWitness(rs, x);
    CoversWitness(rs, rs[0].end + 1);
    if Covers(rs[1..], x) {
      var i :| 0 <= i < |rs[1..]| && Has(rs[1..][i], x);
      assert rs[i + 1] == rs[1..][i];
    }
  }

  lemma SameHead(a: seq<Range>, b: seq<Range>, total: int)
    requires Stored(a, total) && Stored(b, total) && a != [] && b != []
    requires forall x :: Covers(a, x) <==> Covers(b, x)
    ensures a[0] == b[0]
  {
    assert a[0] in a && b[0] in b;
    assert Covers(a, a[0].start) && Covers(b, b[0].start);
    FirstCovered(a, b[0].start);
    FirstCovered(b, a[0].start);
    assert Covers(a, a[0].end) && Covers(b, b[0].end);
    AfterHead(a, 0);
    AfterHead(b, 0);
    assert Covers(a, a[0].end + 1) <==> Covers(b, a[0].end + 1);
    assert Covers(a, b[0].end + 1) <==> Covers(b, b[0].end + 1);
  }

  lemma HeadCovered(rs: seq<Range>)
    requires Gapped(rs)
    ensures rs != [] ==> Covers(rs, rs[0].start)
  {
  }

  /** A list with gaps is determined by the bytes it records. */
  lemma {:induction false} Canonical(a: seq<Range>, b: seq<Range>, total: int)
    requires Stored(a, total) && Stored(b, total)
    requires forall x :: Covers(a, x) <==> Covers(b, x)
    ensures a == b
    decreases |a|
  {
    if a == [] {
      HeadCovered(b);
    } else {
      assert Covers(b, a[0].start) by {
        assert a[0].start <= a[0].end && Covers(a, a[0].start);
      }
      SameHead(a, b, total);
      StoredTail(a, total);
      StoredTail(b, total);
      forall x
        ensures Covers(a[1..], x) <==> Covers(b[1..], x)
      {
        AfterHead(a, x);
        AfterHead(b, x);
      }
      Canonical(a[1..], b[1..], total);
      assert a == [a[0]] + a[1..] && b == [b[0]] + b[1..];
    }
  }

  /** The list after the ranges of `arrivals` came in, in this order. */
  function MergeAll(arrivals: seq<Range>): seq<Range> {
    if arrivals == [] then []
    else Merge(MergeAll(arrivals[..|arrivals| - 1]), arrivals[|arrivals| - 1]).ranges
  }

  lemma {:induction false} MergeAllIsUnion(arrivals: seq<Range>, total: int)
    requires forall r | r in arrivals :: Accepted(r, total)
    ensures Stored(MergeAll(arrivals), total)
    ensures forall x :: Covers(MergeAll(arrivals), x) <==> exists r :: r in arrivals && Has(r, x)
  {
    if arrivals != [] {
      var front, last := arrivals[..|arrivals| - 1], arrivals[|arrivals| - 1];
      assert arrivals == front + [last];
      MergeAllIsUnion(front, total);
      MergeIsUnion(MergeAll(front), last, total);
    }
  }

  /** Any order of arrival, with any repetitions, leaves the same list. */
  lemma OrderIrrelevant(a: seq<Range>, b: seq<Range>, total: int)
    requires forall r | r in a :: Accepted(r, total)
    requires forall r :: r in a <==> r in b
    ensures MergeAll(a) == MergeAll(b)
  {
    MergeAllIsUnion(a, total);
    MergeAllIsUnion(b, total);
    Canonical(MergeAll(a), MergeAll(b), total);
  }
}
